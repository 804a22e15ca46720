/** The handlers of the /campuses routes. Each looks its row up by primary key,
    answers 404 when it is missing, and otherwise reads or writes the tables. */
module CampusRoutes {
  import opened Schema
  import opened Store
  import opened Http

  /** GET /campuses: every campus with the students it has. */
  method GetAllCampuses(db: Database) returns (r: Response)
    ensures r.Reply? && r.status == 200 && r.body.CampusesJson?
    ensures r.body.campusViews.Keys == db.campuses.Keys
    ensures forall id :: id in r.body.campusViews ==>
      && r.body.campusViews[id].id == id
      && r.body.campusViews[id].campus == db.campuses[id]
      && IsRosterOf(r.body.campusViews[id].students, db.students, id)
    ensures ListedEntries(r.body.campusViews, r.body.campusViews.Keys) == |EnrolledAt(db.students, db.campuses.Keys)|
  {
    var listing := map id | id in db.campuses :: ViewCampus(db.campuses, db.students, id);
    ListingShowsEachEnrolledOnce(listing, db.students, listing.Keys);
    r := Reply(200, CampusesJson(listing));
  }

  /** GET /campuses/:id */
  method GetCampus(db: Database, id: nat) returns (r: Response)
    ensures r.Reply?
    ensures r == Reply(404, ErrorJson(CampusNotFound)) <==> id !in db.campuses
    ensures id in db.campuses ==>
      && r.status == 200 && r.body.CampusJson?
      && r.body.campusView.id == id
      && r.body.campusView.campus == db.campuses[id]
      && IsRosterOf(r.body.campusView.students, db.students, id)
  {
    if id !in db.campuses {
      return Reply(404, ErrorJson(CampusNotFound));
    }
    r := Reply(200, CampusJson(ViewCampus(db.campuses, db.students, id)));
  }

  /** DELETE /campuses/:id. The campus's students stay; their campusId
      becomes null (the assumed ON DELETE SET NULL). */
  method DeleteCampus(db: Database, id: nat) returns (r: Response)
    requires db.Valid()
    modifies db
    ensures db.Valid()
    ensures id !in old(db.campuses) ==> r == Reply(404, ErrorJson(CampusNotFound)) && unchanged(db)
    ensures id in old(db.campuses) ==>
      && r == Reply(204, NoContent)
      && db.campuses == old(db.campuses) - {id}
      && db.students.Keys == old(db.students).Keys
      && (forall sid :: sid in db.students ==> db.students[sid] == Vacate(old(db.students)[sid], id))
      && unchanged(db`nextCampusId, db`nextStudentId, db`issuedCampusIds, db`issuedStudentIds)
  {
    if id !in db.campuses {
      return Reply(404, ErrorJson(CampusNotFound));
    }
    db.DestroyCampus(id);
    r := Reply(204, NoContent);
  }

  /** POST /campuses: 201 with the new row, or the ValidationError raised. */
  method AddCampus(db: Database, body: CampusBody) returns (r: Response)
    requires db.Valid()
    modifies db
    ensures db.Valid()
    ensures r.Reply? <==> Supplied(body.name) && Supplied(body.address)
    ensures r.Raised? ==> r.fault == Invalid(CampusViolations(BuildCampus(body))) && unchanged(db)
    ensures r.Reply? ==>
      && r.status == 201 && r.body.CampusRowJson?
      && r.body.id !in old(db.issuedCampusIds)
      && db.issuedCampusIds == old(db.issuedCampusIds) + {r.body.id}
      && unchanged(db`nextStudentId, db`issuedStudentIds)
      && db.campuses == old(db.campuses)[r.body.id := r.body.campusRow]
      && db.students == old(db.students)
      && CampusDraftOf(r.body.campusRow) == BuildCampus(body)
    ensures r.Reply? && body.imageUrl.Absent? ==> r.body.campusRow.imageUrl == Some(CampusImagePlaceholder)
    ensures r.Reply? && body.description.Absent? ==> r.body.campusRow.description == None
  {
    var created := db.CreateCampus(body);
    match created
    case Failed(f) =>
      r := Raised(f);
    case Done(id) =>
      r := Reply(201, CampusRowJson(id, db.campuses[id]));
  }

  /** PUT /campuses/:id: overwrite the columns the body gives, keep the rest,
      and answer with the reloaded campus and its students. */
  method EditCampus(db: Database, id: nat, body: CampusBody) returns (r: Response)
    requires db.Valid()
    modifies db
    ensures db.Valid()
    ensures id !in old(db.campuses) ==> r == Reply(404, ErrorJson(CampusNotFound)) && unchanged(db)
    ensures id in old(db.campuses) ==>
      (r.Raised? <==> CampusViolations(PatchCampus(CampusDraftOf(old(db.campuses)[id]), body)) != {})
    ensures r.Raised? ==> unchanged(db)
    ensures id in old(db.campuses) && r.Raised? ==>
      r.fault == Invalid(CampusViolations(PatchCampus(CampusDraftOf(old(db.campuses)[id]), body)))
    ensures id in old(db.campuses) && r.Reply? ==>
      && id in db.campuses
      && CampusDraftOf(db.campuses[id]) == PatchCampus(CampusDraftOf(old(db.campuses)[id]), body)
      && db.campuses == old(db.campuses)[id := db.campuses[id]]
      && unchanged(db`students, db`nextCampusId, db`nextStudentId, db`issuedCampusIds, db`issuedStudentIds)
      && r.status == 200 && r.body.CampusJson?
      && r.body.campusView.id == id
      && r.body.campusView.campus == db.campuses[id]
      && IsRosterOf(r.body.campusView.students, db.students, id)
  {
    if id !in db.campuses {
      return Reply(404, ErrorJson(CampusNotFound));
    }
    var updated := db.UpdateCampus(id, body);
    if updated.Failed? {
      return Raised(updated.fault);
    }
    r := Reply(200, CampusJson(ViewCampus(db.campuses, db.students, id)));
  }

  /** DELETE /campuses/:campusId/students/:studentId: three checks in order
      (campus exists, student exists, student is enrolled there), then the
      single write `campusId := null`. The student row is never deleted. */
  method UnassignStudent(db: Database, campusId: nat, studentId: nat) returns (r: Response)
    requires db.Valid()
    modifies db
    ensures db.Valid()
    ensures campusId !in old(db.campuses) ==>
      r == Reply(404, ErrorJson(CampusNotFound)) && unchanged(db)
    ensures campusId in old(db.campuses) && studentId !in old(db.students) ==>
      r == Reply(404, ErrorJson(StudentNotFound)) && unchanged(db)
    ensures campusId in old(db.campuses) && studentId in old(db.students)
            && old(db.students)[studentId].campusId != Some(campusId) ==>
      r == Reply(400, ErrorJson(NotEnrolled)) && unchanged(db)
    ensures campusId in old(db.campuses) && studentId in old(db.students)
            && old(db.students)[studentId].campusId == Some(campusId) ==>
      var unassigned := old(db.students)[studentId].(campusId := None);
      && r == Reply(200, StudentRowJson(studentId, unassigned))
      && db.students == old(db.students)[studentId := unassigned]
      && unchanged(db`campuses, db`nextCampusId, db`nextStudentId, db`issuedCampusIds, db`issuedStudentIds)
  {
    if campusId !in db.campuses {
      return Reply(404, ErrorJson(CampusNotFound));
    }
    if studentId !in db.students {
      return Reply(404, ErrorJson(StudentNotFound));
    }
    var student := db.students[studentId];
    if student.campusId != Some(campusId) {
      return Reply(400, ErrorJson(NotEnrolled));
    }
    assert StudentDraftOf(student.(campusId := None)) == PatchStudent(StudentDraftOf(student), ClearCampus);
    var updated := db.UpdateStudent(studentId, ClearCampus);
    r := Reply(200, StudentRowJson(studentId, updated.value));
  }
}
