/**
 * The front end's records (frontend/src/types/index.ts), reduced to the fields the modelled
 * pages read. `null`able fields become `Option`.
 */
module FrontTypes {
  import opened Wrappers
  import opened Seqs

  datatype Instructor = Instructor(
    id: string,
    name: string,
    email: Option<string>,
    phone: Option<string>,
    specialty: Option<string>,
    isActive: bool)

  datatype Course = Course(id: string, title: string, status: Option<string>)

  datatype CourseDate = CourseDate(id: string, courseId: string, date: string, dayNumber: int)

  datatype Assignment = Assignment(
    id: string,
    courseDateId: string,
    instructorId: string,
    date: string,
    className: Option<string>)

  /** `InstructorAvailability.status`. */
  datatype AvailStatus = Available | Unavailable | Pending

  datatype Availability = Availability(id: string, instructorId: string, date: string, status: AvailStatus)

  /** The lists a page reads (module-level mock arrays in the source). */
  datatype Tables = Tables(
    assignments: seq<Assignment>,
    courseDates: seq<CourseDate>,
    courses: seq<Course>,
    instructors: seq<Instructor>)

  /** The course of an assignment: its course date by id, then that date's course by id. */
  function CourseOf(a: Assignment, data: Tables): Option<Course>
  {
    var cd := Find(data.courseDates, (c: CourseDate) => c.id == a.courseDateId);
    if cd.None? then None else Find(data.courses, (c: Course) => c.id == cd.value.courseId)
  }

  function InstructorOf(a: Assignment, data: Tables): Option<Instructor>
  {
    Find(data.instructors, (i: Instructor) => i.id == a.instructorId)
  }
}
