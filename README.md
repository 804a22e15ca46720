# Campuses and students: a verified model of the REST API core

This project models the server of a small campus/student directory. The API
exposes two tables, `campuses` and `students`. A student's nullable foreign key
`campusId` links them: `Campus.hasMany(Student)` and `Student.belongsTo(Campus)`.
The model covers three things:

- **The column schemas** (`schema.dfy`, module `Schema`). These are the required,
  non-empty and nullable columns, the `isEmail` and `min`/`max` validators, and
  the placeholder `imageUrl` defaults. Validation works on a *draft*, which holds
  an instance's attribute values before it is saved. A request body is a record
  of `Field`s, each `Absent` (undefined), `Null` or `Given(v)`. Sequelize fills a
  default only for an undefined property, and an explicit null stays null.
  `gpa`, a DECIMAL(2,1), is counted in integer tenths (35 stands for 3.5).
- **The store** (`store.dfy`, module `Store`). Class `Database` holds the two
  tables as `map<nat, _>` fields plus the next value of each SERIAL sequence.
  Ids start at 1. Ghost sets record every id each sequence has issued. Its
  invariant `Valid()` says three things: every stored row passed its
  validators, every stored id was issued and every issued id is below its
  sequence, and every non-null `campusId` names a campus. Its methods are the model operations that the
  handlers call: `create`, `update` and `destroy`. The functions `Roster` and
  `CampusOf` give the two sides of the association, as `include: [Student]` and
  `include: [Campus]` return them.
- **The route handlers** (`campus_routes.dfy` and `student_routes.dfy`). Each
  handler is a method that returns a `Response`. That is either
  `Reply(status, body)` or `Raised(fault)`, an error thrown to the
  error-handling middleware. The handlers are the list, get, create, edit and
  delete routes of both resources. The campus routes also include the unassign
  route, which makes three ordered checks and then writes `campusId := null`.

`scenario.dfy` is a client of the handlers, set up with the seed data (Hunter
College and Joe Smith). Its assertions are what a caller can conclude from the
contracts alone: a gpa of 4.5 is refused; enrolling through PUT shows up in both
`GET /campuses/:id` and `GET /students/:id`; unassigning from the wrong campus
answers 400; unassigning from the right campus keeps the student; deleting a
campus keeps its former students; and a campus or student created after a
delete does not reuse the deleted id, even when the other resource is created
in between.

Notes on the source:

- The two copies of the models disagree on casing. `database/db.js` uses
  `firstName`/`lastName` and `database/models/Student.js` uses
  `firstname`/`lastname`. The routes import `database/models`, and the seed
  script writes `firstname`, so this model uses `firstname`/`lastname`. The
  validators and defaults are otherwise identical in the two copies. The table
  below cites one copy per member. The doc comments of the schema functions in
  `schema.dfy` cite the matching lines of both.
- `database/models/Campus.js:7` and `database/models/Student.js:7` bind `db` to
  the value that `require('../db')` returns. That value is the export object
  `{ db, Campus, Student }` of `database/db.js:122-126`, not the Sequelize
  instance, and it has no `define` method. As written, the `db.define` calls at
  `database/models/Campus.js:10` and `database/models/Student.js:9` would
  therefore throw a TypeError when the files are loaded.
  `database/models/index.js` would decide which definition takes effect, and it
  is not part of this model. The model takes the definitions to be the ones the
  files evidently intend.
- A validation failure on POST or PUT is *raised*; it is not answered with a
  status in the shown code. The model returns `Raised(Invalid(violations))` and
  does not pick a status for it.

Two assumptions stand in for database behaviour that no shown line states:

- **ON DELETE SET NULL.** When a campus is deleted, its students stay and their
  `campusId` becomes null (`Store.Vacate`, `Store.VacateAll`). This is
  Sequelize's default for a nullable `belongsTo` key. It is an assumption of the
  model, not something the source promises.
- **Foreign-key constraint.** Creating or updating a student whose `campusId`
  names no campus fails with `Raised(ForeignKey(id))` after its validators pass,
  and nothing is stored.

## Model

| member | source | states |
|---|---|---|
| `Schema.CampusViolations` | database/models/Campus.js:11-31 | For name and address: null or undefined fails notNull, and a string that is empty or all whitespace fails notEmpty. Description and imageUrl have no validator. No violation exactly when name and address are both non-empty. |
| `Schema.CheckCampus` | database/db.js:35-60 | Accepts a draft exactly when it is the draft of a valid campus row, and then returns that row. A rejection carries the violations, which are never empty. |
| `Schema.BuildCampus` | database/models/Campus.js:27-39 | Each column the body gives holds the given value, and an explicit null is null. An absent imageUrl becomes the campus placeholder URL. An absent description is null. Name and address are set only when the body gives them. |
| `Schema.StudentViolations` | database/models/Student.js:10-51 | firstname, lastname and email are each required (notNull) and must hold a non-whitespace character (notEmpty). A non-null email must satisfy `isEmail`. A non-null gpa below 0.0 fails min, and one above 4.0 fails max. No violation exactly when all of these hold. |
| `Schema.CheckStudent` | database/db.js:68-105 | Accepts a draft exactly when it is the draft of a valid student row, and then returns that row. An accepted gpa fits DECIMAL(2,1). A rejection carries non-empty violations. |
| `Schema.PatchCampus` | routes/campuses.js:75-76 | `campus.update(body)` sets each column the body gives to its value, sets an explicit null to null, and keeps every column the body leaves out. |
| `Schema.PatchStudent` | routes/students.js:85-87 | `student.update(body)` does the same for the six student columns, campusId included. |
| `Schema.BuildStudent` | database/models/Student.js:35-51 | Each column the body gives holds the given value, and an explicit null on imageUrl, gpa or campusId is null. An absent imageUrl becomes the student placeholder URL. An absent gpa and an absent campusId are null. The required columns are set only when given. |
| `Schema.PlaceholdersDiffer` | database/db.js:57-95 | The default student image URL differs from the default campus image URL. |
| `Store.Roster` | database/db.js:112 | `hasMany`: a campus's students are exactly the rows whose campusId is its id, unchanged. |
| `Store.CampusOf` | database/db.js:115 | `belongsTo`: a student has a campus exactly when its single campusId is non-null and names a campus row, and then it is that row. |
| `Store.ViewCampus` | routes/campuses.js:36 | `findByPk(id, {include: [Student]})`: the campus row under its id, together with its roster. |
| `Store.ViewStudent` | routes/students.js:38 | `findByPk(id, {include: [Campus]})`: the student row, together with the campus its campusId names, or null. |
| `Store.HasManyMirrorsBelongsTo` | database/db.js:112-115 | The two sides of the association agree. A student has a campus under `belongsTo` exactly when it is on some campus's `hasMany` roster. It is then on that campus's roster and on no other. While the foreign key holds, a non-null campusId always yields a campus. |
| `Store.ListingShowsEachEnrolledOnce` | database/db.js:112-115 | When every campus lists its roster, the total number of listed students equals the number of students enrolled at those campuses. No student appears under two campuses, and none is missing. |
| `Store.Database.CreateCampus` | routes/campuses.js:62 | Success exactly when validation passes. The row is then stored under an id the campus sequence has never issued, not even to a deleted row, and nothing else changes. On failure the violations are returned and nothing changes. |
| `Store.Database.UpdateCampus` | routes/campuses.js:75-76 | The given columns are overwritten and the rest kept. The merged row is revalidated. Only that row changes. On failure the merged draft's exact violations are returned and nothing changes. |
| `Store.Database.DestroyCampus` | routes/campuses.js:55 | Removes exactly that campus. Its students stay and their campusId becomes null, under the ON DELETE SET NULL assumption. The invariant is kept. |
| `Store.Database.CreateStudent` | routes/students.js:52-53 | Fails with exactly the draft's violations, or, once those are empty, with a foreign-key fault naming the given campusId when that campusId names no campus. In both cases nothing changes. Otherwise the row is stored under an id the student sequence has never issued, and nothing else changes. |
| `Store.Database.UpdateStudent` | routes/students.js:85-87 | The given columns are overwritten and the rest kept. This includes campusId, which may be set to null. The result is revalidated and checked against the foreign key. A failure carries exactly the violations, or the campusId the foreign key refused, and changes nothing. Only that row changes. |
| `Store.Database.DestroyStudent` | routes/students.js:70 | Removes exactly that student. No campus changes. |
| `CampusRoutes.GetAllCampuses` | routes/campuses.js:28-31 | 200 with one entry per campus, each holding its row and exactly its students. The listing shows each enrolled student once. |
| `CampusRoutes.GetCampus` | routes/campuses.js:34-44 | 404 `Campus not found` exactly when no campus has the id. Otherwise 200 with the campus and exactly the students whose campusId is its id. |
| `CampusRoutes.DeleteCampus` | routes/campuses.js:47-58 | A missing id gives 404 and changes nothing. Otherwise 204 with no body, and exactly that campus is removed. Every student remains, with campusId cleared where it named the deleted campus. |
| `CampusRoutes.AddCampus` | routes/campuses.js:61-64 | 201 exactly when name and address are given and non-empty. The new row gets an id never issued before, not even to a deleted campus, and takes the defaults for absent columns. Exactly that id joins the issued campus ids, and the student tables, sequence and issued ids are untouched, so freshness composes with the student routes. Otherwise the validation error is raised with exactly the built draft's violations, and nothing is stored. |
| `CampusRoutes.EditCampus` | routes/campuses.js:67-85 | A missing id gives 404 and changes nothing. An invalid merge raises the merged draft's exact violations and changes nothing. Otherwise only the given columns of that row change, and the reply is 200 with the reloaded campus and its students. |
| `CampusRoutes.UnassignStudent` | routes/campuses.js:90-120 | The campus is checked before the student: 404 `Campus not found`, then 404 `Student not found`. A campusId other than the path's, null included, gives 400 `Student is not enrolled at this campus`. None of these change anything. Otherwise only that student's campusId becomes null, the row stays, and the reply is 200 with it. |
| `StudentRoutes.GetAllStudents` | routes/students.js:30-33 | 200 with one entry per student, each paired with the campus its campusId names. The campus is null when campusId is null. |
| `StudentRoutes.GetStudent` | routes/students.js:36-46 | 404 `Student not found` exactly when absent. Otherwise 200 with the student and its campus. |
| `StudentRoutes.AddStudent` | routes/students.js:49-57 | 201 exactly when every validator passes and a given campusId names a campus. The new row gets an id never issued before and the default imageUrl when none is given. Exactly that id joins the issued student ids, and the campus table, sequence and issued ids are untouched. Otherwise a fault is raised and nothing is stored. The fault carries either exactly the built draft's violations, or the given campusId that names no campus. |
| `StudentRoutes.DeleteStudent` | routes/students.js:60-74 | A missing id gives 404 and changes nothing. Otherwise 204, exactly that student is removed, and no campus changes. |
| `StudentRoutes.EditStudent` | routes/students.js:77-96 | A missing id gives 404 and changes nothing. Otherwise the given columns are applied, campusId included, which may move the student to another campus or to null. The reply is 200 with the reloaded student and its new campus. Otherwise a fault is raised with nothing changed: exactly the merged draft's violations, or the given campusId that names no campus. |

## Left out

- Connection setup, the Postgres host and dialect, and the console logging in `database/db.js:10-21` are left out: they are I/O and configuration.
- Express routing, JSON serialisation and the async-handler error forwarding are left out. A `Raised` fault has no status in this model, because the middleware that picks one is not part of this model.
- `isEmail` is a parameter of the `Database` and is not interpreted: it is library code.
- `isEmail`'s own rules are not modelled (see above). `notEmpty` is modelled as Sequelize implements it: it refuses a string made only of JavaScript whitespace (`Schema.IsBlank`), and the empty string is one such string. The source comments say only "cannot be empty string".
- `gpa` inputs are integer tenths. A body value with more digits after the point, and the database's rounding of it to DECIMAL(2,1), are not modelled.
- `database/utils/seedDB.js` is left out as an operation. Its data appears only in `scenario.dfy`.
- `Number(campusId)` coercion and lookups by malformed ids are left out: path ids are `nat`.
- Races between concurrent requests are left out. In particular, the unassign route's check-then-write runs without a transaction, and each handler is modelled as one atomic step.
- Listings are maps keyed by id. The row order of `findAll` is not modelled.
- The `createdAt`/`updatedAt` timestamps that Sequelize adds are not modelled. Neither are body properties that are not columns: an `id` or unknown keys.
- A failed INSERT does not advance the id sequence in this model. A Postgres sequence may advance on a foreign-key failure. The contracts claim only that a new id was never issued before, not which id it is.
- Sequelize revalidates only the changed columns on `update`. The model revalidates the whole merged row. Since every stored row is valid (`Database.Valid`), the two agree.
