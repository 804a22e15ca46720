/** What a route handler answers: a status with a JSON body, or an error it
    raises and hands to the error-handling middleware. */
module Http {
  import opened Schema
  import opened Store

  datatype Body =
    | NoContent                                      // res.status(204).end()
    | ErrorJson(error: string)                       // { error: '...' }
    | CampusJson(campusView: CampusView)             // a campus with its students
    | CampusesJson(campusViews: map<nat, CampusView>)
    | CampusRowJson(id: nat, campusRow: Campus)      // a campus instance, no include
    | StudentJson(studentView: StudentView)          // a student with its campus
    | StudentsJson(studentViews: map<nat, StudentView>)
    | StudentRowJson(id: nat, studentRow: Student)   // a student instance, no include

  /** `Raised` is an error thrown inside the handler; its HTTP status is decided
      by middleware that is not part of this model. */
  datatype Response = Reply(status: nat, body: Body) | Raised(fault: Fault)

  const CampusNotFound: string := "Campus not found"
  const StudentNotFound: string := "Student not found"
  const NotEnrolled: string := "Student is not enrolled at this campus"
}
