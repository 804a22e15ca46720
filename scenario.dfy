/** A client of the handlers, on the seed data: what callers can conclude
    from the handlers' contracts alone. */
module Scenario {
  import opened Schema
  import opened Store
  import opened Http
  import CampusRoutes
  import StudentRoutes

  const JoeEmail: string := "joe.smith@example.com"

  function JoeWithGpa(gpa: Tenths): StudentBody {
    StudentBody(Given("Joe"), Given("Smith"), Given(JoeEmail), Absent, Given(gpa), Absent)
  }

  function MoveTo(campusId: nat): StudentBody {
    StudentBody(Absent, Absent, Absent, Absent, Absent, Given(campusId))
  }

  /** A string that starts with a visible character passes notEmpty. */
  lemma Visible(s: string)
    requires |s| > 0 && !IsBlank(s[0])
    ensures NonEmpty(s)
  {
  }

  /** Create Hunter College and Joe; a gpa of 4.5 is refused and stores nothing. */
  method Seed(isEmail: string -> bool) returns (db: Database, h: nat, j: nat)
    requires isEmail(JoeEmail)
    ensures fresh(db) && db.Valid() && db.isEmail == isEmail
    ensures h in db.campuses && db.campuses[h].imageUrl == Some(CampusImagePlaceholder)
    ensures db.students.Keys == {j} && db.students[j].campusId == None
  {
    db := new Database(isEmail);
    h := AddHunter(db);
    j := AddJoe(db);
  }

  method AddHunter(db: Database) returns (h: nat)
    requires db.Valid() && db.students == map[]
    modifies db
    ensures db.Valid() && db.students == map[]
    ensures h in db.campuses && db.campuses[h].imageUrl == Some(CampusImagePlaceholder)
  {
    Visible("Hunter College");
    Visible("695 Park Ave, New York, NY 10065");
    var hunter := CampusRoutes.AddCampus(db, CampusBody(Given("Hunter College"), Given("695 Park Ave, New York, NY 10065"),
                                                        Given("This is a school in New York, New York."), Absent));
    h := hunter.body.id;
  }

  method AddJoe(db: Database) returns (j: nat)
    requires db.Valid() && db.students == map[] && db.isEmail(JoeEmail)
    modifies db
    ensures db.Valid() && db.campuses == old(db.campuses)
    ensures db.students.Keys == {j} && db.students[j].campusId == None
  {
    Visible("Joe");
    Visible("Smith");
    Visible(JoeEmail);
    assert StudentViolations(db.isEmail, BuildStudent(JoeWithGpa(45))) != {};
    var tooHigh := StudentRoutes.AddStudent(db, JoeWithGpa(45));
    assert tooHigh.Raised? && db.students == map[];

    assert StudentViolations(db.isEmail, BuildStudent(JoeWithGpa(35))) == {};
    var joe := StudentRoutes.AddStudent(db, JoeWithGpa(35));
    assert joe.Reply? && joe.status == 201;
    j := joe.body.id;
  }

  /** Enrol Joe at Hunter; unassigning him from another campus is refused,
      unassigning him from Hunter clears his campus and keeps him. */
  method EnrolThenUnassign(db: Database, h: nat, q: nat, j: nat)
    requires db.Valid() && h in db.campuses && q in db.campuses && h != q && j in db.students
    modifies db
  {
    assert StudentViolations(db.isEmail, PatchStudent(StudentDraftOf(db.students[j]), MoveTo(h))) == {};
    var enrol := StudentRoutes.EditStudent(db, j, MoveTo(h));
    assert enrol.Reply? && enrol.body.studentView.campus == Some(db.campuses[h]);

    var hunter := CampusRoutes.GetCampus(db, h);
    assert j in hunter.body.campusView.students;
    var joeNow := StudentRoutes.GetStudent(db, j);
    assert joeNow.status == 200 && joeNow.body.studentView.campus == Some(db.campuses[h]);

    var wrong := CampusRoutes.UnassignStudent(db, q, j);
    assert wrong == Reply(400, ErrorJson(NotEnrolled));

    var right := CampusRoutes.UnassignStudent(db, h, j);
    assert right.Reply? && right.status == 200;

    var again := StudentRoutes.GetStudent(db, j);
    assert again.status == 200 && again.body.studentView.campus == None;
  }

  /** Deleting a campus keeps the students that were enrolled there. */
  method DeleteKeepsStudents(db: Database, h: nat, j: nat)
    requires db.Valid() && h in db.campuses && j in db.students && db.students[j].campusId == Some(h)
    modifies db
  {
    var gone := CampusRoutes.DeleteCampus(db, h);
    assert gone == Reply(204, NoContent);
    var after := StudentRoutes.GetStudent(db, j);
    assert after.status == 200 && after.body.studentView.campus == None;
    var missing := CampusRoutes.GetCampus(db, h);
    assert missing == Reply(404, ErrorJson(CampusNotFound));
  }

  /** A campus created after a delete never reuses the deleted campus's id,
      even when a student is created in between. */
  method CampusIdsNotReused(db: Database, h: nat, body: StudentBody)
    requires db.Valid() && h in db.campuses
    modifies db
  {
    var gone := CampusRoutes.DeleteCampus(db, h);
    assert gone == Reply(204, NoContent);
    var between := StudentRoutes.AddStudent(db, body);
    Visible("Queens College");
    Visible("65-30 Kissena Blvd");
    var queens := CampusRoutes.AddCampus(db, CampusBody(Given("Queens College"), Given("65-30 Kissena Blvd"), Absent, Absent));
    assert queens.Reply? && queens.body.id != h;
  }

  /** A student created after a delete never reuses the deleted student's id,
      even when a campus is created in between. */
  method StudentIdsNotReused(db: Database, j: nat, body: StudentBody)
    requires db.Valid() && j in db.students
    modifies db
  {
    var gone := StudentRoutes.DeleteStudent(db, j);
    assert gone == Reply(204, NoContent);
    Visible("Queens College");
    Visible("65-30 Kissena Blvd");
    var queens := CampusRoutes.AddCampus(db, CampusBody(Given("Queens College"), Given("65-30 Kissena Blvd"), Absent, Absent));
    var next := StudentRoutes.AddStudent(db, body);
    assert next.Reply? ==> next.body.id != j;
  }
}
