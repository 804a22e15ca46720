/** The handlers of the /students routes. A student's campus is changed, set or
    cleared through PUT, whose body may carry campusId. */
module StudentRoutes {
  import opened Schema
  import opened Store
  import opened Http

  /** GET /students: every student, each with its campus or null. */
  method GetAllStudents(db: Database) returns (r: Response)
    ensures r.Reply? && r.status == 200 && r.body.StudentsJson?
    ensures r.body.studentViews.Keys == db.students.Keys
    ensures forall id :: id in r.body.studentViews ==>
      && r.body.studentViews[id].id == id
      && r.body.studentViews[id].student == db.students[id]
      && r.body.studentViews[id].campus == CampusOf(db.campuses, db.students[id])
    ensures forall id :: id in r.body.studentViews && db.students[id].campusId.None? ==>
      r.body.studentViews[id].campus.None?
  {
    var listing := map id | id in db.students :: ViewStudent(db.campuses, db.students, id);
    r := Reply(200, StudentsJson(listing));
  }

  /** GET /students/:id */
  method GetStudent(db: Database, id: nat) returns (r: Response)
    ensures r.Reply?
    ensures r == Reply(404, ErrorJson(StudentNotFound)) <==> id !in db.students
    ensures id in db.students ==>
      && r.status == 200 && r.body.StudentJson?
      && r.body.studentView.id == id
      && r.body.studentView.student == db.students[id]
      && (r.body.studentView.campus.Some? <==>
            db.students[id].campusId.Some? && db.students[id].campusId.value in db.campuses)
      && (r.body.studentView.campus.Some? ==>
            r.body.studentView.campus.value == db.campuses[db.students[id].campusId.value])
  {
    if id !in db.students {
      return Reply(404, ErrorJson(StudentNotFound));
    }
    r := Reply(200, StudentJson(ViewStudent(db.campuses, db.students, id)));
  }

  /** POST /students: 201 with the new row only when every validator passes
      and campusId, if given, names a campus. */
  method AddStudent(db: Database, body: StudentBody) returns (r: Response)
    requires db.Valid()
    modifies db
    ensures db.Valid()
    ensures r.Raised? ==> unchanged(db)
    ensures r.Raised? && r.fault.Invalid? <==> StudentViolations(db.isEmail, BuildStudent(body)) != {}
    ensures r.Raised? && r.fault.Invalid? ==> r.fault.violations == StudentViolations(db.isEmail, BuildStudent(body))
    ensures r.Raised? && r.fault.ForeignKey? ==>
      body.campusId.Given? && r.fault.campusId == body.campusId.value && r.fault.campusId !in db.campuses
    ensures r.Reply? <==>
      && StudentViolations(db.isEmail, BuildStudent(body)) == {}
      && (body.campusId.Given? ==> body.campusId.value in old(db.campuses))
    ensures r.Reply? ==>
      && Supplied(body.firstname) && Supplied(body.lastname) && Supplied(body.email)
      && db.isEmail(body.email.value)
      && (body.gpa.Given? ==> ValidGpa(body.gpa.value))
      && (body.campusId.Given? ==> body.campusId.value in db.campuses)
    ensures r.Reply? ==>
      && r.status == 201 && r.body.StudentRowJson?
      && r.body.id !in old(db.issuedStudentIds)
      && db.issuedStudentIds == old(db.issuedStudentIds) + {r.body.id}
      && unchanged(db`nextCampusId, db`issuedCampusIds)
      && db.students == old(db.students)[r.body.id := r.body.studentRow]
      && db.campuses == old(db.campuses)
      && StudentDraftOf(r.body.studentRow) == BuildStudent(body)
    ensures r.Reply? && body.imageUrl.Absent? ==> r.body.studentRow.imageUrl == Some(StudentImagePlaceholder)
  {
    var created := db.CreateStudent(body);
    match created
    case Failed(f) =>
      r := Raised(f);
    case Done(id) =>
      r := Reply(201, StudentRowJson(id, db.students[id]));
  }

  /** DELETE /students/:id: removes that row only; no campus changes. */
  method DeleteStudent(db: Database, id: nat) returns (r: Response)
    requires db.Valid()
    modifies db
    ensures db.Valid()
    ensures id !in old(db.students) ==> r == Reply(404, ErrorJson(StudentNotFound)) && unchanged(db)
    ensures id in old(db.students) ==>
      && r == Reply(204, NoContent)
      && db.students == old(db.students) - {id}
      && unchanged(db`campuses, db`nextCampusId, db`nextStudentId, db`issuedCampusIds, db`issuedStudentIds)
  {
    if id !in db.students {
      return Reply(404, ErrorJson(StudentNotFound));
    }
    db.DestroyStudent(id);
    r := Reply(204, NoContent);
  }

  /** PUT /students/:id: overwrite the columns the body gives (campusId to
      another campus or to null among them), keep the rest, and answer with
      the reloaded student and its campus. */
  method EditStudent(db: Database, id: nat, body: StudentBody) returns (r: Response)
    requires db.Valid()
    modifies db
    ensures db.Valid()
    ensures id !in old(db.students) ==> r == Reply(404, ErrorJson(StudentNotFound)) && unchanged(db)
    ensures r.Raised? ==> unchanged(db)
    ensures id in old(db.students) ==>
      (r.Raised? && r.fault.Invalid? <==>
        StudentViolations(db.isEmail, PatchStudent(StudentDraftOf(old(db.students)[id]), body)) != {})
    ensures id in old(db.students) && r.Raised? && r.fault.Invalid? ==>
      r.fault.violations == StudentViolations(db.isEmail, PatchStudent(StudentDraftOf(old(db.students)[id]), body))
    ensures r.Raised? && r.fault.ForeignKey? ==>
      body.campusId.Given? && r.fault.campusId == body.campusId.value && r.fault.campusId !in db.campuses
    ensures id in old(db.students) ==>
      (r.Reply? <==>
        && StudentViolations(db.isEmail, PatchStudent(StudentDraftOf(old(db.students)[id]), body)) == {}
        && (body.campusId.Given? ==> body.campusId.value in old(db.campuses)))
    ensures id in old(db.students) && r.Reply? ==>
      && id in db.students
      && StudentDraftOf(db.students[id]) == PatchStudent(StudentDraftOf(old(db.students)[id]), body)
      && db.students == old(db.students)[id := db.students[id]]
      && unchanged(db`campuses, db`nextCampusId, db`nextStudentId, db`issuedCampusIds, db`issuedStudentIds)
      && r.status == 200 && r.body.StudentJson?
      && r.body.studentView.id == id
      && r.body.studentView.student == db.students[id]
      && r.body.studentView.campus == CampusOf(db.campuses, db.students[id])
    ensures id in old(db.students) && r.Reply? && body.campusId.Null? ==>
      r.body.studentView.campus.None?
    ensures id in old(db.students) && r.Reply? && body.campusId.Given? ==>
      r.body.studentView.campus == Some(db.campuses[body.campusId.value])
  {
    if id !in db.students {
      return Reply(404, ErrorJson(StudentNotFound));
    }
    var updated := db.UpdateStudent(id, body);
    if updated.Failed? {
      return Raised(updated.fault);
    }
    r := Reply(200, StudentJson(ViewStudent(db.campuses, db.students, id)));
  }
}
