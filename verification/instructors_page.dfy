/**
 * The instructor list of the administrator (frontend/src/pages/Instructors.tsx): the
 * all/active/inactive tabs and the case-insensitive search over name, email and specialty.
 */
module InstructorsPage {
  import opened Wrappers
  import opened Seqs
  import opened Strs
  import opened FrontTypes

  /** The three tabs: 'all', 'active', 'inactive'. */
  datatype ActiveFilter = All | ActiveOnly | InactiveOnly

  /** `field?.toLowerCase().includes(q) ?? false`: a missing field never matches. */
  predicate FieldMatches(field: Option<string>, q: string)
  {
    field.Some? && Includes(Lower(field.value), q)
  }

  /** The predicate handed to `.filter`: the tab check first, then the search when it is non-empty. */
  function Keep(inst: Instructor, filter: ActiveFilter, search: string): bool
  {
    if filter == ActiveOnly && !inst.isActive then false
    else if filter == InactiveOnly && inst.isActive then false
    else if search != "" then
      var q := Lower(search);
      Includes(Lower(inst.name), q) || FieldMatches(inst.email, q) || FieldMatches(inst.specialty, q)
    else true
  }

  /** The instructors shown. */
  function Filtered(instructors: seq<Instructor>, filter: ActiveFilter, search: string): seq<Instructor>
  {
    Filter(instructors, (inst: Instructor) => Keep(inst, filter, search))
  }

  /** The tab admits an instructor by activity alone. */
  ghost predicate TabAdmits(filter: ActiveFilter, inst: Instructor)
  {
    match filter
    case All => true
    case ActiveOnly => inst.isActive
    case InactiveOnly => !inst.isActive
  }

  /** Lower-cased `q` occurs somewhere in the lower-cased text of one of the three fields. */
  ghost predicate SearchHits(inst: Instructor, search: string)
  {
    var q := Lower(search);
    (exists i :: OccursAt(Lower(inst.name), q, i)) ||
    (inst.email.Some? && exists i :: OccursAt(Lower(inst.email.value), q, i)) ||
    (inst.specialty.Some? && exists i :: OccursAt(Lower(inst.specialty.value), q, i))
  }

  /** An instructor is kept exactly when the tab admits it and the search is empty or hits a field. */
  lemma KeepMeaning(inst: Instructor, filter: ActiveFilter, search: string)
    ensures Keep(inst, filter, search) <==> TabAdmits(filter, inst) && (search == "" || SearchHits(inst, search))
  {
  }

  /** The shown instructors are the kept ones, in the stored order. */
  lemma FilteredMeaning(instructors: seq<Instructor>, filter: ActiveFilter, search: string, inst: Instructor)
    ensures inst in Filtered(instructors, filter, search) <==>
              inst in instructors && TabAdmits(filter, inst) && (search == "" || SearchHits(inst, search))
    ensures IsSubsequence(Filtered(instructors, filter, search), instructors)
  {
    FilterMembership(instructors, (i: Instructor) => Keep(i, filter, search), inst);
    KeepMeaning(inst, filter, search);
    FilterIsSubsequence(instructors, (i: Instructor) => Keep(i, filter, search));
  }

  /** With an empty search the 'all' tab shows every instructor. */
  lemma EmptySearchShowsAll(instructors: seq<Instructor>)
    ensures Filtered(instructors, All, "") == instructors
  {
    FilterAll(instructors, (i: Instructor) => Keep(i, All, ""));
  }

  /** For any search, the 'active' and 'inactive' tabs split the 'all' tab's count. */
  lemma TabsPartition(instructors: seq<Instructor>, search: string)
    ensures |Filtered(instructors, ActiveOnly, search)| + |Filtered(instructors, InactiveOnly, search)| ==
            |Filtered(instructors, All, search)|
  {
    FilterPartition(instructors,
      (i: Instructor) => Keep(i, All, search),
      (i: Instructor) => Keep(i, ActiveOnly, search),
      (i: Instructor) => Keep(i, InactiveOnly, search),
      (i: Instructor) => i.isActive);
  }

  /** Lower-casing is idempotent. */
  lemma {:induction false} LowerIdempotent(s: string)
    ensures Lower(Lower(s)) == Lower(s)
  {
    if s != [] {
      LowerIdempotent(s[1..]);
    }
  }

  /** The search ignores case: typing the query in lower case shows the same instructors. */
  lemma SearchIgnoresCase(instructors: seq<Instructor>, filter: ActiveFilter, search: string)
    ensures Filtered(instructors, filter, Lower(search)) == Filtered(instructors, filter, search)
  {
    LowerIdempotent(search);
    FilterCongruent(instructors,
      (i: Instructor) => Keep(i, filter, Lower(search)),
      (i: Instructor) => Keep(i, filter, search));
  }
}
