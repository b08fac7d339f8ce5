/**
 * The login rule of backend/services/auth_service.py: the profile of a signed-in user is found or
 * created, and an instructor login is tied to an instructor row by its auth email or, failing that,
 * by its contact email, which then becomes its auth email. The profile store is kept abstract, as
 * two sequences of rows.
 */
module AuthService {
  import opened Wrappers
  import opened Seqs
  import opened Strs
  import opened BackendTypes

  /** A `profiles` row. */
  datatype Profile = Profile(id: string, userId: string, role: string, displayName: Option<string>)

  /** The columns of an `instructors` row the login reads and writes. */
  datatype InstructorRow = InstructorRow(id: string, email: Option<string>, authEmail: Option<string>)

  /** The `UserProfile` the login returns. */
  datatype UserProfile = UserProfile(
    id: string,
    userId: string,
    email: string,
    role: string,
    displayName: Option<string>,
    instructorId: Option<string>)

  /** The domain whose addresses are administrators. */
  const AdminDomain: string := "@teamsparta.co"

  /** The role of a new profile: "admin" exactly for addresses ending in the admin domain. */
  function RoleFor(email: string): (role: string)
    ensures role == "admin" <==> EndsWith(email, AdminDomain)
    ensures role == "instructor" <==> !EndsWith(email, AdminDomain)
  {
    if EndsWith(email, AdminDomain) then "admin" else "instructor"
  }

  /** `email.split("@")[0]`: the part of the address before its first "@". */
  function DisplayNameOf(email: string): (name: string)
    ensures StartsWith(email, name) && '@' !in name
    ensures |name| < |email| ==> email[|name|] == '@'
  {
    BeforeFirst(email, '@')
  }

  /** The profile of a user, as a predicate to search with. */
  function ByUser(userId: string): Profile -> bool
  {
    (p: Profile) => p.userId == userId
  }

  /** An instructor whose auth email is the login address. */
  function ByAuthEmail(email: string): InstructorRow -> bool
  {
    (r: InstructorRow) => r.authEmail == Some(email)
  }

  /** An instructor whose contact email is the login address. */
  function ByEmail(email: string): InstructorRow -> bool
  {
    (r: InstructorRow) => r.email == Some(email)
  }

  /** `update_instructor_auth_email(id, email)` on one row. */
  function Backfill(id: string, email: string): InstructorRow -> InstructorRow
  {
    (r: InstructorRow) => if r.id == id then r.(authEmail := Some(email)) else r
  }

  /** The refusal given to an instructor login whose address is on no instructor row. */
  const NotRegistered: string := "접근 권한이 없습니다. instructors 테이블에 등록된 이메일만 사용할 수 있습니다."

  /** The profile a first login creates. */
  function NewProfile(userId: string, email: string, freshId: string): Profile
  {
    Profile(freshId, userId, RoleFor(email), Some(DisplayNameOf(email)))
  }

  /** What one login returns and leaves in the store. */
  datatype LoginOutcome = LoginOutcome(
    result: Result<UserProfile, ServiceError>,
    profiles: seq<Profile>,
    instructors: seq<InstructorRow>)

  /** The profile a login works with: the stored one, else the one it creates. */
  function ProfileFor(profiles: seq<Profile>, userId: string, email: string, freshId: string): Profile
  {
    match Find(profiles, ByUser(userId))
    case Some(p) => p
    case None => NewProfile(userId, email, freshId)
  }

  /**
   * `get_or_create_profile(user_id, email)`, with `freshId` the id the store gives a new row. The
   * profile is created when missing and stays created even when the login is then refused.
   */
  function Login(profiles: seq<Profile>, instructors: seq<InstructorRow>, userId: string, email: string,
                 freshId: string): (o: LoginOutcome)
    ensures Find(profiles, ByUser(userId)).Some? ==> o.profiles == profiles
    ensures Find(profiles, ByUser(userId)).None? ==> o.profiles == profiles + [NewProfile(userId, email, freshId)]
    ensures o.result.Success? ==>
      var p := ProfileFor(profiles, userId, email, freshId);
      var u := o.result.value;
      u.id == p.id && u.userId == p.userId && u.role == p.role && u.displayName == p.displayName && u.email == email
    ensures o.result.Success? && o.result.value.role != "instructor" ==> o.result.value.instructorId.None?
    ensures ProfileFor(profiles, userId, email, freshId).role != "instructor" ==>
      o.result.Success? && o.instructors == instructors
    ensures o.result.Failure? ==> o.result.error.Unauthorized? && o.instructors == instructors
    ensures ProfileFor(profiles, userId, email, freshId).role == "instructor" ==>
      (o.result.Failure? <==> !Any(instructors, ByAuthEmail(email)) && !Any(instructors, ByEmail(email)))
    ensures Any(instructors, ByAuthEmail(email)) ==> o.instructors == instructors
    ensures ProfileFor(profiles, userId, email, freshId).role == "instructor" && Any(instructors, ByAuthEmail(email)) ==>
      o.result.Success? && o.result.value.instructorId == Some(Find(instructors, ByAuthEmail(email)).value.id)
    ensures var instructor := ProfileFor(profiles, userId, email, freshId).role == "instructor";
      instructor && !Any(instructors, ByAuthEmail(email)) && Any(instructors, ByEmail(email)) ==>
      o.result.Success? && o.result.value.instructorId == Some(Find(instructors, ByEmail(email)).value.id)
  {
    var profile := ProfileFor(profiles, userId, email, freshId);
    var stored := if Find(profiles, ByUser(userId)).Some? then profiles else profiles + [profile];
    var linked: Result<(Option<string>, seq<InstructorRow>), ServiceError> :=
      if profile.role != "instructor" then Success((None, instructors))
      else match Find(instructors, ByAuthEmail(email))
        case Some(row) => Success((Some(row.id), instructors))
        case None =>
          match Find(instructors, ByEmail(email))
          case Some(row) => Success((Some(row.id), Map(instructors, Backfill(row.id, email))))
          case None => Failure(Unauthorized(NotRegistered));
    match linked
    case Success((instructorId, rows)) =>
      LoginOutcome(Success(UserProfile(profile.id, profile.userId, email, profile.role, profile.displayName, instructorId)),
                   stored, rows)
    case Failure(e) => LoginOutcome(Failure(e), stored, instructors)
  }

  /** A user's first login creates an "admin" profile for the admin domain, and never links it to an instructor. */
  lemma AdminLoginUnlinked(profiles: seq<Profile>, instructors: seq<InstructorRow>, userId: string, email: string,
                           freshId: string)
    requires Find(profiles, ByUser(userId)).None? && EndsWith(email, AdminDomain)
    ensures var o := Login(profiles, instructors, userId, email, freshId);
      o.result.Success? && o.result.value.role == "admin" && o.result.value.instructorId.None? &&
      o.instructors == instructors && o.result.value.displayName == Some(DisplayNameOf(email))
  {
  }

  /** An instructor found by contact email is linked, and that row (and no other id) now carries the login address. */
  lemma ContactEmailBackfilled(profiles: seq<Profile>, instructors: seq<InstructorRow>, userId: string, email: string,
                               freshId: string, k: int)
    requires ProfileFor(profiles, userId, email, freshId).role == "instructor"
    requires !Any(instructors, ByAuthEmail(email))
    requires 0 <= k < |instructors| && instructors[k].email == Some(email)
    requires forall j :: 0 <= j < k ==> instructors[j].email != Some(email)
    ensures var o := Login(profiles, instructors, userId, email, freshId);
      o.result.Success? && o.result.value.instructorId == Some(instructors[k].id) &&
      |o.instructors| == |instructors| &&
      o.instructors[k].authEmail == Some(email) &&
      forall j :: 0 <= j < |instructors| && instructors[j].id != instructors[k].id ==> o.instructors[j] == instructors[j]
  {
    FindAt(instructors, ByEmail(email), k);
  }

  /** A stored user keeps their stored role, whatever address they sign in with. */
  lemma StoredRoleKept(profiles: seq<Profile>, instructors: seq<InstructorRow>, userId: string, email: string,
                       freshId: string, k: int)
    requires 0 <= k < |profiles| && profiles[k].userId == userId
    requires forall j :: 0 <= j < k ==> profiles[j].userId != userId
    ensures var o := Login(profiles, instructors, userId, email, freshId);
      o.profiles == profiles && (o.result.Success? ==> o.result.value.role == profiles[k].role && o.result.value.id == profiles[k].id)
  {
    FindAt(profiles, ByUser(userId), k);
  }

  /** After a backfill, the row the contact email found is the first row the auth email finds. */
  lemma BackfilledFoundByAuthEmail(instructors: seq<InstructorRow>, email: string, k: int)
    requires !Any(instructors, ByAuthEmail(email))
    requires 0 <= k < |instructors|
    ensures var rows := Map(instructors, Backfill(instructors[k].id, email));
      Find(rows, ByAuthEmail(email)).Some? && Find(rows, ByAuthEmail(email)).value.id == instructors[k].id
  {
    var id := instructors[k].id;
    var rows := Map(instructors, Backfill(id, email));
    var first := IndexWhere(instructors, (r: InstructorRow) => r.id == id);
    assert rows[first].authEmail == Some(email);
    forall j | 0 <= j < first
      ensures !ByAuthEmail(email)(rows[j])
    {
      assert rows[j] == instructors[j];
    }
    FindAt(rows, ByAuthEmail(email), first);
  }

  /**
   * Signing in twice gives the same answer the second time, and the second login changes nothing:
   * the created profile is found again, and a backfilled auth email now finds the same instructor.
   */
  lemma LoginIdempotent(profiles: seq<Profile>, instructors: seq<InstructorRow>, userId: string, email: string,
                        freshId: string, freshId2: string)
    ensures var o1 := Login(profiles, instructors, userId, email, freshId);
      var o2 := Login(o1.profiles, o1.instructors, userId, email, freshId2);
      o2 == o1
  {
    var o1 := Login(profiles, instructors, userId, email, freshId);
    var p := ProfileFor(profiles, userId, email, freshId);
    if Find(profiles, ByUser(userId)).None? {
      FindAt(o1.profiles, ByUser(userId), |profiles|);
    }
    assert ProfileFor(o1.profiles, userId, email, freshId2) == p;
    if p.role == "instructor" && !Any(instructors, ByAuthEmail(email)) {
      var k := IndexWhere(instructors, ByEmail(email));
      if k != -1 {
        BackfilledFoundByAuthEmail(instructors, email, k);
      }
    }
  }

  /** The profile store the service talks to, with the rows the login reads and writes. */
  class AuthStore {
    var profiles: seq<Profile>
    var instructors: seq<InstructorRow>

    constructor(profiles: seq<Profile>, instructors: seq<InstructorRow>)
      ensures this.profiles == profiles && this.instructors == instructors
    {
      this.profiles := profiles;
      this.instructors := instructors;
    }

    /**
     * `AuthService.get_or_create_profile`, step by step against the store: look the profile up,
     * create it if missing, and for an instructor look up by auth email, then by contact email
     * with the auth-email backfill.
     */
    method GetOrCreateProfile(userId: string, email: string, freshId: string)
      returns (r: Result<UserProfile, ServiceError>)
      modifies this
      ensures var o := Login(old(profiles), old(instructors), userId, email, freshId);
        r == o.result && profiles == o.profiles && instructors == o.instructors
    {
      var profile: Profile;
      match Find(profiles, ByUser(userId)) {
        case Some(p) =>
          profile := p;
        case None =>
          profile := NewProfile(userId, email, freshId);
          profiles := profiles + [profile];
      }
      var instructorId: Option<string> := None;
      if profile.role == "instructor" {
        var instructor := Find(instructors, ByAuthEmail(email));
        if instructor.None? {
          instructor := Find(instructors, ByEmail(email));
          if instructor.Some? {
            instructors := Map(instructors, Backfill(instructor.value.id, email));
          }
        }
        if instructor.None? {
          return Failure(Unauthorized(NotRegistered));
        }
        instructorId := Some(instructor.value.id);
      }
      r := Success(UserProfile(profile.id, profile.userId, email, profile.role, profile.displayName, instructorId));
    }
  }
}
