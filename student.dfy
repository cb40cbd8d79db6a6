/**
 * The server's `Student` record and what constructing it from a parsed JSON
 * object accepts: an integer `id`, a string `name` and a `gpa` bounded to
 * [0.0, 4.0]; members beyond these three are ignored.
 */
module StudentModel {
  import opened Wrappers
  import opened Json

  datatype Student = Student(id: int, name: string, gpa: real)

  /** The declared bound on `gpa` (greater or equal 0.0, less or equal 4.0). */
  predicate ValidGpa(gpa: real)
  {
    0.0 <= gpa <= 4.0
  }

  /** `Student(**members)`: None where validation raises. */
  function FromMembers(members: map<string, Value>): (s: Option<Student>)
    ensures s.Some? ==> ValidGpa(s.value.gpa)
    ensures s.Some? ==> "id" in members && members["id"] == JNumber(s.value.id as real)
    ensures s.Some? ==> "name" in members && members["name"] == JString(s.value.name)
    ensures s.Some? ==> "gpa" in members && members["gpa"] == JNumber(s.value.gpa)
  {
    if "id" in members && "name" in members && "gpa" in members then
      match (members["id"], members["name"], members["gpa"])
      case (JNumber(id), JString(name), JNumber(gpa)) =>
        if id == id.Floor as real && ValidGpa(gpa) then Some(Student(id.Floor, name, gpa)) else None
      case _ => None
    else None
  }

  /** Conversely, every well-typed object within the bound is accepted. */
  lemma FromMembersAccepts(members: map<string, Value>, id: int, name: string, gpa: real)
    requires "id" in members && members["id"] == JNumber(id as real)
    requires "name" in members && members["name"] == JString(name)
    requires "gpa" in members && members["gpa"] == JNumber(gpa)
    requires ValidGpa(gpa)
    ensures FromMembers(members) == Some(Student(id, name, gpa))
  {
  }
}
