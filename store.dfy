/** The two tables and the association between them: `Campus.hasMany(Student)`
    and `Student.belongsTo(Campus)` give every student row one nullable
    `campusId`. The class `Database` holds both tables and offers the model
    operations the route handlers call (create, update, destroy). */
module Store {
  import opened Schema

  /** Why a write was refused: failed validators, or a `campusId` that names
      no campus row (the foreign-key constraint of the association). */
  datatype Fault = Invalid(violations: set<Violation>) | ForeignKey(campusId: nat)

  datatype Outcome<T> = Done(value: T) | Failed(fault: Fault)

  /** A campus with its students, as `findByPk(id, {include: [Student]})` gives it. */
  datatype CampusView = CampusView(id: nat, campus: Campus, students: map<nat, Student>)

  /** A student with its campus (null when it has none), as `include: [Campus]` gives it. */
  datatype StudentView = StudentView(id: nat, student: Student, campus: Option<Campus>)

  /** The students a campus has: exactly the rows whose campusId is `cid`. */
  ghost predicate IsRosterOf(m: map<nat, Student>, students: map<nat, Student>, cid: nat) {
    && (forall sid :: sid in m <==> sid in students && students[sid].campusId == Some(cid))
    && (forall sid :: sid in m ==> m[sid] == students[sid])
  }

  function Roster(students: map<nat, Student>, cid: nat): (m: map<nat, Student>)
    ensures IsRosterOf(m, students, cid)
  {
    map sid | sid in students && students[sid].campusId == Some(cid) :: students[sid]
  }

  /** The campus a student belongs to: the row its campusId names (a LEFT
      OUTER JOIN, so none when campusId is null or names no row). */
  function CampusOf(campuses: map<nat, Campus>, s: Student): (c: Option<Campus>)
    ensures c.Some? <==> s.campusId.Some? && s.campusId.value in campuses
    ensures c.Some? ==> c.value == campuses[s.campusId.value]
  {
    if s.campusId.Some? && s.campusId.value in campuses then Some(campuses[s.campusId.value]) else None
  }

  function ViewCampus(campuses: map<nat, Campus>, students: map<nat, Student>, id: nat): (v: CampusView)
    requires id in campuses
    ensures v.id == id && v.campus == campuses[id] && IsRosterOf(v.students, students, id)
  {
    CampusView(id, campuses[id], Roster(students, id))
  }

  function ViewStudent(campuses: map<nat, Campus>, students: map<nat, Student>, id: nat): (v: StudentView)
    requires id in students
    ensures v.id == id && v.student == students[id]
    ensures v.campus.Some? <==> students[id].campusId.Some? && students[id].campusId.value in campuses
    ensures v.campus.Some? ==> v.campus.value == campuses[students[id].campusId.value]
  {
    StudentView(id, students[id], CampusOf(campuses, students[id]))
  }

  /** Assumed on-delete policy of the foreign key: ON DELETE SET NULL. */
  function Vacate(s: Student, cid: nat): Student {
    if s.campusId == Some(cid) then s.(campusId := None) else s
  }

  function VacateAll(students: map<nat, Student>, cid: nat): (m: map<nat, Student>)
    ensures m.Keys == students.Keys
  {
    map sid | sid in students :: Vacate(students[sid], cid)
  }

  /** Every non-null campusId names an existing campus. */
  ghost predicate ReferencesHold(campuses: map<nat, Campus>, students: map<nat, Student>) {
    forall sid :: sid in students && students[sid].campusId.Some? ==> students[sid].campusId.value in campuses
  }

  /** The two sides of the association agree. A student has a campus under
      `belongsTo` exactly when it is on the `hasMany` roster of some campus,
      then it is on that campus's roster and on no other; and while the
      foreign key holds, no non-null campusId is dropped by the join. */
  lemma HasManyMirrorsBelongsTo(campuses: map<nat, Campus>, students: map<nat, Student>, sid: nat)
    requires sid in students
    ensures CampusOf(campuses, students[sid]).Some? <==> exists cid :: cid in campuses && sid in Roster(students, cid)
    ensures forall cid :: cid in campuses && sid in Roster(students, cid) ==>
      CampusOf(campuses, students[sid]) == Some(campuses[cid])
    ensures forall c1, c2 :: sid in Roster(students, c1) && sid in Roster(students, c2) ==> c1 == c2
    ensures ReferencesHold(campuses, students) ==>
      (CampusOf(campuses, students[sid]).Some? <==> students[sid].campusId.Some?)
  {
  }

  // ------------------------------------------------------ counting rosters

  /** The ids of the students enrolled at one of the campuses `cids`. */
  ghost function EnrolledAt(students: map<nat, Student>, cids: set<nat>): set<nat> {
    set sid | sid in students && students[sid].campusId.Some? && students[sid].campusId.value in cids
  }

  ghost function Pick(s: set<nat>): nat
    requires s != {}
  {
    var x :| x in s; x
  }

  /** The number of student entries a campus listing shows for the campuses `cids`. */
  ghost function ListedEntries(listing: map<nat, CampusView>, cids: set<nat>): nat
    requires cids <= listing.Keys
    decreases cids
  {
    if cids == {} then 0
    else
      var c := Pick(cids);
      |listing[c].students| + ListedEntries(listing, cids - {c})
  }

  /** When each campus lists its roster, the listing shows every enrolled
      student once: no student is listed under two campuses, none is missed. */
  lemma {:induction false} ListingShowsEachEnrolledOnce(listing: map<nat, CampusView>, students: map<nat, Student>, cids: set<nat>)
    requires cids <= listing.Keys
    requires forall c :: c in cids ==> IsRosterOf(listing[c].students, students, c)
    ensures ListedEntries(listing, cids) == |EnrolledAt(students, cids)|
  {
    if cids != {} {
      var c := Pick(cids);
      var rest := cids - {c};
      ListingShowsEachEnrolledOnce(listing, students, rest);
      var here := listing[c].students.Keys;
      assert here == EnrolledAt(students, {c});
      assert EnrolledAt(students, cids) == here + EnrolledAt(students, rest);
      assert here * EnrolledAt(students, rest) == {};
      assert |listing[c].students| == |here|;
    }
  }

  // -------------------------------------------------------------- database

  class Database {
    var campuses: map<nat, Campus>
    var students: map<nat, Student>
    /** The next values of the two SERIAL primary-key sequences. */
    var nextCampusId: nat
    var nextStudentId: nat
    /** Every id either sequence has handed out, deleted rows' ids included. */
    ghost var issuedCampusIds: set<nat>
    ghost var issuedStudentIds: set<nat>
    /** The validator library's isEmail. */
    const isEmail: string -> bool

    ghost predicate Valid()
      reads this
    {
      && 0 < nextCampusId && 0 < nextStudentId
      && campuses.Keys <= issuedCampusIds && students.Keys <= issuedStudentIds
      && (forall id :: id in issuedCampusIds ==> 0 < id < nextCampusId)
      && (forall id :: id in issuedStudentIds ==> 0 < id < nextStudentId)
      && (forall id :: id in campuses ==> ValidCampus(campuses[id]))
      && (forall id :: id in students ==> ValidStudent(isEmail, students[id]))
      && ReferencesHold(campuses, students)
    }

    /** Empty tables; both sequences start at 1. */
    constructor (isEmail: string -> bool)
      ensures Valid()
      ensures campuses == map[] && students == map[]
      ensures issuedCampusIds == {} && issuedStudentIds == {}
      ensures this.isEmail == isEmail
    {
      campuses, students := map[], map[];
      issuedCampusIds, issuedStudentIds := {}, {};
      nextCampusId, nextStudentId := 1, 1;
      this.isEmail := isEmail;
    }

    /** Campus.create(body): build, validate, INSERT under the next id, which
        no campus row has ever had. */
    method CreateCampus(body: CampusBody) returns (r: Outcome<nat>)
      requires Valid()
      modifies this
      ensures Valid()
      ensures r.Done? <==> CampusViolations(BuildCampus(body)) == {}
      ensures r.Failed? ==> r.fault == Invalid(CampusViolations(BuildCampus(body))) && unchanged(this)
      ensures r.Done? ==>
        && r.value !in old(issuedCampusIds)
        && issuedCampusIds == old(issuedCampusIds) + {r.value}
        && campuses == old(campuses)[r.value := CheckCampus(BuildCampus(body)).row]
        && unchanged(this`students, this`nextStudentId, this`issuedStudentIds)
    {
      match CheckCampus(BuildCampus(body))
      case Rejected(v) =>
        r := Failed(Invalid(v));
      case Accepted(c) =>
        r := Done(nextCampusId);
        campuses := campuses[nextCampusId := c];
        issuedCampusIds := issuedCampusIds + {nextCampusId};
        nextCampusId := nextCampusId + 1;
    }

    /** campus.update(body): set the given columns, validate, UPDATE. */
    method UpdateCampus(id: nat, body: CampusBody) returns (r: Outcome<Campus>)
      requires Valid() && id in campuses
      modifies this
      ensures Valid()
      ensures r.Done? <==> CampusViolations(PatchCampus(CampusDraftOf(old(campuses[id])), body)) == {}
      ensures r.Failed? ==>
        && r.fault == Invalid(CampusViolations(PatchCampus(CampusDraftOf(old(campuses[id])), body)))
        && unchanged(this)
      ensures r.Done? ==>
        && CampusDraftOf(r.value) == PatchCampus(CampusDraftOf(old(campuses[id])), body)
        && campuses == old(campuses)[id := r.value]
        && unchanged(this`students, this`nextCampusId, this`nextStudentId, this`issuedCampusIds, this`issuedStudentIds)
    {
      match CheckCampus(PatchCampus(CampusDraftOf(campuses[id]), body))
      case Rejected(v) =>
        r := Failed(Invalid(v));
      case Accepted(c) =>
        r := Done(c);
        campuses := campuses[id := c];
    }

    /** campus.destroy(): DELETE the row; its students' campusId becomes null. */
    method DestroyCampus(id: nat)
      requires Valid() && id in campuses
      modifies this
      ensures Valid()
      ensures campuses == old(campuses) - {id}
      ensures students == VacateAll(old(students), id)
      ensures unchanged(this`nextCampusId, this`nextStudentId, this`issuedCampusIds, this`issuedStudentIds)
    {
      campuses := campuses - {id};
      students := VacateAll(students, id);
    }

    /** Student.create(body): build, validate, INSERT, which the foreign key
        refuses when campusId names no campus. */
    method CreateStudent(body: StudentBody) returns (r: Outcome<nat>)
      requires Valid()
      modifies this
      ensures Valid()
      ensures r.Failed? ==> unchanged(this)
      ensures r.Failed? && r.fault.Invalid? <==> StudentViolations(isEmail, BuildStudent(body)) != {}
      ensures r.Failed? && r.fault.ForeignKey? <==>
        && StudentViolations(isEmail, BuildStudent(body)) == {}
        && body.campusId.Given? && body.campusId.value !in campuses
      ensures r.Failed? && r.fault.Invalid? ==> r.fault.violations == StudentViolations(isEmail, BuildStudent(body))
      ensures r.Failed? && r.fault.ForeignKey? ==> r.fault.campusId == body.campusId.value
      ensures r.Done? ==>
        && r.value !in old(issuedStudentIds) && r.value in students
        && issuedStudentIds == old(issuedStudentIds) + {r.value}
        && StudentDraftOf(students[r.value]) == BuildStudent(body)
        && students == old(students)[r.value := students[r.value]]
        && unchanged(this`campuses, this`nextCampusId, this`issuedCampusIds)
    {
      match CheckStudent(isEmail, BuildStudent(body))
      case Rejected(v) =>
        r := Failed(Invalid(v));
      case Accepted(s) =>
        if s.campusId.Some? && s.campusId.value !in campuses {
          r := Failed(ForeignKey(s.campusId.value));
        } else {
          r := Done(nextStudentId);
          students := students[nextStudentId := s];
          issuedStudentIds := issuedStudentIds + {nextStudentId};
          nextStudentId := nextStudentId + 1;
        }
    }

    /** student.update(body): set the given columns, validate, UPDATE, which
        the foreign key refuses when campusId names no campus. */
    method UpdateStudent(id: nat, body: StudentBody) returns (r: Outcome<Student>)
      requires Valid() && id in students
      modifies this
      ensures Valid()
      ensures r.Failed? ==> unchanged(this)
      ensures r.Failed? && r.fault.Invalid? <==>
        StudentViolations(isEmail, PatchStudent(StudentDraftOf(old(students[id])), body)) != {}
      ensures r.Failed? && r.fault.ForeignKey? <==>
        && StudentViolations(isEmail, PatchStudent(StudentDraftOf(old(students[id])), body)) == {}
        && body.campusId.Given? && body.campusId.value !in campuses
      ensures r.Failed? && r.fault.Invalid? ==>
        r.fault.violations == StudentViolations(isEmail, PatchStudent(StudentDraftOf(old(students[id])), body))
      ensures r.Failed? && r.fault.ForeignKey? ==> r.fault.campusId == body.campusId.value
      ensures r.Done? ==>
        && StudentDraftOf(r.value) == PatchStudent(StudentDraftOf(old(students[id])), body)
        && students == old(students)[id := r.value]
        && unchanged(this`campuses, this`nextCampusId, this`nextStudentId, this`issuedCampusIds, this`issuedStudentIds)
    {
      match CheckStudent(isEmail, PatchStudent(StudentDraftOf(students[id]), body))
      case Rejected(v) =>
        r := Failed(Invalid(v));
      case Accepted(s) =>
        if body.campusId.Given? && body.campusId.value !in campuses {
          r := Failed(ForeignKey(body.campusId.value));
        } else {
          r := Done(s);
          students := students[id := s];
        }
    }

    /** student.destroy(): DELETE the row; no campus changes. */
    method DestroyStudent(id: nat)
      requires Valid() && id in students
      modifies this
      ensures Valid()
      ensures students == old(students) - {id}
      ensures unchanged(this`campuses, this`nextCampusId, this`nextStudentId, this`issuedCampusIds, this`issuedStudentIds)
    {
      students := students - {id};
    }
  }
}
