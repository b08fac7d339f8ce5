/**
 * The records the back end stores (the shapes of the back-end schemas) and the errors its services
 * raise. Every record carries the string id its repository generated.
 */
module BackendTypes {
  import opened Wrappers

  /** A row of the assignments table (`AssignmentBase` plus its id). Dates are ISO strings. */
  datatype AssignmentRecord = AssignmentRecord(
    id: string,
    courseDateId: string,
    instructorId: string,
    date: string,
    className: Option<string>)

  /** An availability record (`AvailabilityCreate` plus its id). The status is "available" or "unavailable". */
  datatype AvailabilityRecord = AvailabilityRecord(
    id: string,
    instructorId: string,
    date: string,
    status: string,
    reason: Option<string>)

  /** An instructor row (`InstructorBase` plus its id). */
  datatype InstructorRecord = InstructorRecord(
    id: string,
    name: string,
    email: Option<string>,
    phone: Option<string>,
    specialty: Option<string>,
    isActive: bool)

  /** A course date row. */
  datatype CourseDateRecord = CourseDateRecord(id: string, courseId: string, date: string, dayNumber: int)

  /** The exceptions the services raise, with the HTTP status the routers give them. */
  datatype ServiceError =
    | DuplicateAssignment(instructorId: string, date: string)  // DuplicateAssignmentError
    | NotFound(detail: string)                                // HTTPException(404)
    | MissingKey(key: string)                                 // KeyError
    | Unauthorized(detail: string)                            // AuthorizationError
    | NotImplemented                                          // NotImplementedError
    | DateOverflow                                            // OverflowError from date arithmetic
}
