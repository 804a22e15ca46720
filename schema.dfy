/** The column schemas of the `campuses` and `students` tables: which columns
    exist, which validators each runs, and which defaults fill a column the
    request body leaves out. */
module Schema {

  datatype Option<T> = None | Some(value: T)

  /** One property of a JSON request body: left out (undefined), explicitly
      null, or given a value. Sequelize fills a default only when undefined. */
  datatype Field<T> = Absent | Null | Given(value: T)

  /** The columns that carry validators. */
  datatype Column = Name | Address | Firstname | Lastname | Email | Gpa

  /** One failed validator. Sequelize gathers every failure of an instance
      into a single ValidationError, here a set of these. */
  datatype Violation =
    | NotNull(column: Column)   // allowNull: false, and the value is null or undefined
    | NotEmpty(column: Column)  // validate.notEmpty
    | IsEmail                   // validate.isEmail on `email`
    | Min                       // validate.min 0.0 on `gpa`
    | Max                       // validate.max 4.0 on `gpa`

  /** The outcome of validating an instance before it is written. */
  datatype Checked<T> = Accepted(row: T) | Rejected(violations: set<Violation>)

  const CampusImagePlaceholder: string := "https://images.pexels.com/photos/207691/pexels-photo-207691.jpeg"
  const StudentImagePlaceholder: string := "https://images.pexels.com/photos/733872/pexels-photo-733872.jpeg"

  /** A DECIMAL(2,1) value counted in tenths: 35 stands for 3.5. */
  type Tenths = int

  const GpaMin: Tenths := 0   // 0.0
  const GpaMax: Tenths := 40  // 4.0

  /** DECIMAL(2,1): two digits in all, one of them after the decimal point. */
  predicate FitsDecimal21(g: Tenths) {
    -99 <= g <= 99
  }

  /** The characters of JavaScript's `\s` class: ASCII blanks, the no-break
      and Unicode space separators, the line and paragraph separators and the
      byte-order mark. */
  predicate IsBlank(c: char) {
    || c in {' ', '\t', '\n', '\U{B}', '\U{C}', '\r', '\U{A0}', '\U{1680}', '\U{2028}',
             '\U{2029}', '\U{202F}', '\U{205F}', '\U{3000}', '\U{FEFF}'}
    || '\U{2000}' <= c <= '\U{200A}'
  }

  /** validate.notEmpty: Sequelize refuses a string that matches
      /^[\s\t\r\n]*$/, so the string must hold a non-blank character. */
  predicate NonEmpty(s: string) {
    exists i :: 0 <= i < |s| && !IsBlank(s[i])
  }

  /** A body property that a required, non-empty column accepts. */
  predicate Supplied(f: Field<string>) {
    f.Given? && NonEmpty(f.value)
  }

  /** The value a column holds after a body is applied to it: unchanged when
      the body leaves the property out, null when it sets null. */
  function Assign<T>(current: Option<T>, f: Field<T>): Option<T> {
    match f
    case Absent => current
    case Null => None
    case Given(v) => Some(v)
  }

  /** allowNull: false together with notEmpty. A null value fails notNull and
      its other validators are skipped. */
  function Required(col: Column, v: Option<string>): set<Violation> {
    match v
    case None => {NotNull(col)}
    case Some(s) => if NonEmpty(s) then {} else {NotEmpty(col)}
  }

  // ---------------------------------------------------------------- campus

  /** A stored campus row (without its serial id). */
  datatype Campus = Campus(name: string, address: string, description: Option<string>, imageUrl: Option<string>)

  /** The attribute values of a campus instance before it is saved: every
      column may still be null. */
  datatype CampusDraft = CampusDraft(name: Option<string>, address: Option<string>,
                                     description: Option<string>, imageUrl: Option<string>)

  /** The request body of POST and PUT /campuses. */
  datatype CampusBody = CampusBody(name: Field<string>, address: Field<string>,
                                   description: Field<string>, imageUrl: Field<string>)

  /** What every stored campus satisfies: name and address are non-empty;
      description and imageUrl are nullable and unchecked. */
  predicate ValidCampus(c: Campus) {
    NonEmpty(c.name) && NonEmpty(c.address)
  }

  function CampusDraftOf(c: Campus): CampusDraft {
    CampusDraft(Some(c.name), Some(c.address), c.description, c.imageUrl)
  }

  /** The column defaults of a new instance. */
  const CampusDefaults: CampusDraft := CampusDraft(None, None, None, Some(CampusImagePlaceholder))

  /** instance.set(body): each property the body carries overwrites its
      column, and every column the body leaves out is kept. */
  function PatchCampus(d: CampusDraft, body: CampusBody): (r: CampusDraft)
    ensures body.name.Absent? ==> r.name == d.name
    ensures body.address.Absent? ==> r.address == d.address
    ensures body.description.Absent? ==> r.description == d.description
    ensures body.imageUrl.Absent? ==> r.imageUrl == d.imageUrl
    ensures body.name.Null? ==> r.name == None
    ensures body.address.Null? ==> r.address == None
    ensures body.description.Null? ==> r.description == None
    ensures body.imageUrl.Null? ==> r.imageUrl == None
    ensures body.name.Given? ==> r.name == Some(body.name.value)
    ensures body.address.Given? ==> r.address == Some(body.address.value)
    ensures body.description.Given? ==> r.description == Some(body.description.value)
    ensures body.imageUrl.Given? ==> r.imageUrl == Some(body.imageUrl.value)
  {
    CampusDraft(Assign(d.name, body.name), Assign(d.address, body.address),
                Assign(d.description, body.description), Assign(d.imageUrl, body.imageUrl))
  }

  /** Campus.build(body): the defaults, overwritten by what the body gives.
      The nullable columns and the default are those of
      database/models/Campus.js:27-39, repeated in database/db.js:50-59. */
  function BuildCampus(body: CampusBody): (d: CampusDraft)
    ensures body.imageUrl.Absent? ==> d.imageUrl == Some(CampusImagePlaceholder)
    ensures body.imageUrl.Null? ==> d.imageUrl == None
    ensures body.description.Absent? ==> d.description == None
    ensures d.name.Some? <==> body.name.Given?
    ensures d.address.Some? <==> body.address.Given?
    ensures body.name.Given? ==> d.name == Some(body.name.value)
    ensures body.address.Given? ==> d.address == Some(body.address.value)
    ensures body.description.Given? ==> d.description == Some(body.description.value)
    ensures body.description.Null? ==> d.description == None
    ensures body.imageUrl.Given? ==> d.imageUrl == Some(body.imageUrl.value)
  {
    PatchCampus(CampusDefaults, body)
  }

  /** The validators of the campus model, column by column, as both
      database/models/Campus.js:11-25 and database/db.js:36-49 declare them. */
  function CampusViolations(d: CampusDraft): (r: set<Violation>)
    ensures NotNull(Name) in r <==> d.name.None?
    ensures NotEmpty(Name) in r <==> d.name.Some? && !NonEmpty(d.name.value)
    ensures NotNull(Address) in r <==> d.address.None?
    ensures NotEmpty(Address) in r <==> d.address.Some? && !NonEmpty(d.address.value)
    ensures r <= {NotNull(Name), NotEmpty(Name), NotNull(Address), NotEmpty(Address)}
    ensures r == {} <==> d.name.Some? && NonEmpty(d.name.value) && d.address.Some? && NonEmpty(d.address.value)
  {
    Required(Name, d.name) + Required(Address, d.address)
  }

  /** instance.validate(): accepts a draft exactly when it is the draft of a
      valid campus row, and then yields that row. The campus model is defined
      twice, in database/models/Campus.js:10-40 and database/db.js:35-60. */
  function CheckCampus(d: CampusDraft): (r: Checked<Campus>)
    ensures r.Accepted? ==> ValidCampus(r.row) && CampusDraftOf(r.row) == d
    ensures forall c {:trigger CampusDraftOf(c)} :: CampusDraftOf(c) == d && ValidCampus(c) ==> r == Accepted(c)
    ensures r.Rejected? ==> r.violations == CampusViolations(d) && r.violations != {}
  {
    var v := CampusViolations(d);
    if v == {} then Accepted(Campus(d.name.value, d.address.value, d.description, d.imageUrl))
    else Rejected(v)
  }

  // --------------------------------------------------------------- student

  /** A stored student row (without its serial id). `campusId` is the nullable
      foreign key that the belongsTo association adds. */
  datatype Student = Student(firstname: string, lastname: string, email: string,
                             imageUrl: Option<string>, gpa: Option<Tenths>, campusId: Option<nat>)

  /** The attribute values of a student instance before it is saved. */
  datatype StudentDraft = StudentDraft(firstname: Option<string>, lastname: Option<string>, email: Option<string>,
                                       imageUrl: Option<string>, gpa: Option<Tenths>, campusId: Option<nat>)

  /** The request body of POST and PUT /students. */
  datatype StudentBody = StudentBody(firstname: Field<string>, lastname: Field<string>, email: Field<string>,
                                     imageUrl: Field<string>, gpa: Field<Tenths>, campusId: Field<nat>)

  /** `{ campusId: null }`: the body that unassigns a student. */
  const ClearCampus: StudentBody := StudentBody(Absent, Absent, Absent, Absent, Absent, Null)

  predicate ValidGpa(g: Tenths) {
    GpaMin <= g <= GpaMax
  }

  /** What every stored student satisfies. The email check is a parameter: it
      is the validator library's isEmail, whose rules are not modelled. */
  predicate ValidStudent(isEmail: string -> bool, s: Student) {
    && NonEmpty(s.firstname)
    && NonEmpty(s.lastname)
    && NonEmpty(s.email) && isEmail(s.email)
    && (s.gpa.Some? ==> ValidGpa(s.gpa.value))
  }

  function StudentDraftOf(s: Student): StudentDraft {
    StudentDraft(Some(s.firstname), Some(s.lastname), Some(s.email), s.imageUrl, s.gpa, s.campusId)
  }

  const StudentDefaults: StudentDraft := StudentDraft(None, None, None, Some(StudentImagePlaceholder), None, None)

  /** instance.set(body) for a student: given properties overwrite their
      columns, left-out ones are kept; campusId is one of them. */
  function PatchStudent(d: StudentDraft, body: StudentBody): (r: StudentDraft)
    ensures body.firstname.Absent? ==> r.firstname == d.firstname
    ensures body.lastname.Absent? ==> r.lastname == d.lastname
    ensures body.email.Absent? ==> r.email == d.email
    ensures body.imageUrl.Absent? ==> r.imageUrl == d.imageUrl
    ensures body.gpa.Absent? ==> r.gpa == d.gpa
    ensures body.campusId.Absent? ==> r.campusId == d.campusId
    ensures body.firstname.Null? ==> r.firstname == None
    ensures body.lastname.Null? ==> r.lastname == None
    ensures body.email.Null? ==> r.email == None
    ensures body.imageUrl.Null? ==> r.imageUrl == None
    ensures body.gpa.Null? ==> r.gpa == None
    ensures body.campusId.Null? ==> r.campusId == None
    ensures body.firstname.Given? ==> r.firstname == Some(body.firstname.value)
    ensures body.lastname.Given? ==> r.lastname == Some(body.lastname.value)
    ensures body.email.Given? ==> r.email == Some(body.email.value)
    ensures body.imageUrl.Given? ==> r.imageUrl == Some(body.imageUrl.value)
    ensures body.gpa.Given? ==> r.gpa == Some(body.gpa.value)
    ensures body.campusId.Given? ==> r.campusId == Some(body.campusId.value)
  {
    StudentDraft(Assign(d.firstname, body.firstname), Assign(d.lastname, body.lastname),
                 Assign(d.email, body.email), Assign(d.imageUrl, body.imageUrl),
                 Assign(d.gpa, body.gpa), Assign(d.campusId, body.campusId))
  }

  /** Student.build(body). The defaults are those of
      database/models/Student.js:35-51, repeated in database/db.js:91-104. */
  function BuildStudent(body: StudentBody): (d: StudentDraft)
    ensures body.imageUrl.Absent? ==> d.imageUrl == Some(StudentImagePlaceholder)
    ensures body.imageUrl.Null? ==> d.imageUrl == None
    ensures body.gpa.Absent? ==> d.gpa == None
    ensures body.campusId.Absent? ==> d.campusId == None
    ensures d.firstname.Some? <==> body.firstname.Given?
    ensures d.lastname.Some? <==> body.lastname.Given?
    ensures d.email.Some? <==> body.email.Given?
    ensures body.firstname.Given? ==> d.firstname == Some(body.firstname.value)
    ensures body.lastname.Given? ==> d.lastname == Some(body.lastname.value)
    ensures body.email.Given? ==> d.email == Some(body.email.value)
    ensures body.imageUrl.Given? ==> d.imageUrl == Some(body.imageUrl.value)
    ensures body.gpa.Given? ==> d.gpa == Some(body.gpa.value)
    ensures body.gpa.Null? ==> d.gpa == None
    ensures body.campusId.Given? ==> d.campusId == Some(body.campusId.value)
    ensures body.campusId.Null? ==> d.campusId == None
  {
    PatchStudent(StudentDefaults, body)
  }

  function GpaViolations(g: Option<Tenths>): set<Violation> {
    match g
    case None => {}
    case Some(x) => (if x < GpaMin then {Min} else {}) + (if x > GpaMax then {Max} else {})
  }

  /** The validators of the student model, column by column, as both
      database/models/Student.js:10-51 and database/db.js:69-104 declare them
      (the latter spells the name columns firstName and lastName). */
  function StudentViolations(isEmail: string -> bool, d: StudentDraft): (r: set<Violation>)
    ensures NotNull(Firstname) in r <==> d.firstname.None?
    ensures NotEmpty(Firstname) in r <==> d.firstname.Some? && !NonEmpty(d.firstname.value)
    ensures NotNull(Lastname) in r <==> d.lastname.None?
    ensures NotEmpty(Lastname) in r <==> d.lastname.Some? && !NonEmpty(d.lastname.value)
    ensures NotNull(Email) in r <==> d.email.None?
    ensures NotEmpty(Email) in r <==> d.email.Some? && !NonEmpty(d.email.value)
    ensures IsEmail in r <==> d.email.Some? && !isEmail(d.email.value)
    ensures Min in r <==> d.gpa.Some? && d.gpa.value < GpaMin
    ensures Max in r <==> d.gpa.Some? && d.gpa.value > GpaMax
    ensures r == {} <==>
      && d.firstname.Some? && NonEmpty(d.firstname.value)
      && d.lastname.Some? && NonEmpty(d.lastname.value)
      && d.email.Some? && NonEmpty(d.email.value) && isEmail(d.email.value)
      && (d.gpa.Some? ==> ValidGpa(d.gpa.value))
  {
    Required(Firstname, d.firstname) + Required(Lastname, d.lastname) + Required(Email, d.email)
    + (if d.email.Some? && !isEmail(d.email.value) then {IsEmail} else {})
    + GpaViolations(d.gpa)
  }

  /** instance.validate() for a student: accepts a draft exactly when it is the
      draft of a valid student row; an accepted gpa fits DECIMAL(2,1). The
      student model is defined twice, in database/models/Student.js:9-52 and
      database/db.js:68-105. */
  function CheckStudent(isEmail: string -> bool, d: StudentDraft): (r: Checked<Student>)
    ensures r.Accepted? ==> ValidStudent(isEmail, r.row) && StudentDraftOf(r.row) == d
    ensures r.Accepted? && r.row.gpa.Some? ==> FitsDecimal21(r.row.gpa.value)
    ensures forall s {:trigger StudentDraftOf(s)} :: StudentDraftOf(s) == d && ValidStudent(isEmail, s) ==> r == Accepted(s)
    ensures r.Rejected? ==> r.violations == StudentViolations(isEmail, d) && r.violations != {}
  {
    var v := StudentViolations(isEmail, d);
    if v == {} then Accepted(Student(d.firstname.value, d.lastname.value, d.email.value, d.imageUrl, d.gpa, d.campusId))
    else Rejected(v)
  }

  /** The two placeholder images are different pictures. */
  lemma PlaceholdersDiffer()
    ensures StudentImagePlaceholder != CampusImagePlaceholder
  {
  }
}
