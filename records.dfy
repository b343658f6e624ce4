/**
 * The records the portal keeps in memory (users and students, with the
 * grades and attendance entries embedded in a student) and the pure
 * lookups the handlers run over them: `find`, `some` and `filter`.
 */
module Records {

  import Sequences

  datatype Option<T> = None | Some(value: T)

  /** An account. `id` is the creation clock reading; `role` is the free text of the role selector. */
  datatype User = User(
    id: int,
    username: string,
    email: string,
    password: string,
    role: string,
    createdAt: string)

  /** One grade entry: `grade` is the letter as typed (any case, possibly unrecognised). */
  datatype Grade = Grade(subject: string, grade: string, semester: string, date: string)

  /** One attendance entry. */
  datatype Attendance = Attendance(date: string, status: string, notes: string, recordedAt: string)

  /** A student record; `id` is entered by hand, `profilePic` is an optional data URI. */
  datatype Student = Student(
    id: string,
    name: string,
    email: string,
    course: string,
    enrollmentDate: string,
    grades: seq<Grade>,
    attendance: seq<Attendance>,
    profilePic: Option<string>)

  /** The outcome a handler reports to the user. */
  datatype Failure = InvalidCredentials | PasswordMismatch | DuplicateUsername | DuplicateId | StudentNotFound

  datatype Outcome = Done | Rejected(reason: Failure)

  // ---------------------------------------------------------------- users

  /** `users.some(u => u.username === username)` */
  predicate HasUsername(users: seq<User>, username: string): (taken: bool)
    ensures taken <==> exists u :: u in users && u.username == username
    ensures !taken ==> forall password :: FindCredentials(users, username, password).None?
  {
    exists k :: 0 <= k < |users| && users[k].username == username
  }

  /** No two accounts share a username. */
  ghost predicate DistinctUsernames(users: seq<User>) {
    forall i, j :: 0 <= i < j < |users| ==> users[i].username != users[j].username
  }

  predicate MatchesCredentials(u: User, username: string, password: string) {
    u.username == username && u.password == password
  }

  /** `users.find(u => u.username === username && u.password === password)`, as a position. */
  function FindCredentials(users: seq<User>, username: string, password: string): (r: Option<nat>)
    ensures r.Some? ==> r.value < |users| && MatchesCredentials(users[r.value], username, password)
    ensures r.Some? ==> forall j :: 0 <= j < r.value ==> !MatchesCredentials(users[j], username, password)
    ensures r.None? <==> forall j :: 0 <= j < |users| ==> !MatchesCredentials(users[j], username, password)
  {
    if users == [] then None
    else if MatchesCredentials(users[0], username, password) then Some(0)
    else match FindCredentials(users[1..], username, password)
      case None => None
      case Some(k) => Some(k + 1)
  }

  /** Appending an account whose username is new keeps usernames distinct. */
  lemma AppendNewUsername(users: seq<User>, u: User)
    requires DistinctUsernames(users)
    requires !HasUsername(users, u.username)
    ensures DistinctUsernames(users + [u])
  {
  }

  /**
   * Once an account with a username no one else has is appended, a login
   * with its credentials finds that account and no other.
   */
  lemma FindsNewAccount(users: seq<User>, u: User)
    requires !HasUsername(users, u.username)
    ensures FindCredentials(users + [u], u.username, u.password) == Some(|users|)
  {
    var all := users + [u];
    assert MatchesCredentials(all[|users|], u.username, u.password);
    assert forall j :: 0 <= j < |users| ==> all[j] == users[j];
  }

  /** A login finds at most one account when usernames are distinct: the one with that username. */
  lemma FindCredentialsUnique(users: seq<User>, username: string, password: string, k: nat)
    requires DistinctUsernames(users)
    requires k < |users| && MatchesCredentials(users[k], username, password)
    ensures FindCredentials(users, username, password) == Some(k)
  {
  }

  // ------------------------------------------------------------- students

  /** `students.some(s => s.id === id)` */
  predicate HasStudentId(students: seq<Student>, id: string): (taken: bool)
    ensures taken <==> FindStudent(students, id).Some?
  {
    exists k :: 0 <= k < |students| && students[k].id == id
  }

  /** No two student records share an id. */
  ghost predicate DistinctStudentIds(students: seq<Student>) {
    forall i, j :: 0 <= i < j < |students| ==> students[i].id != students[j].id
  }

  /** `students.find(s => s.id === id)`, as a position. */
  function FindStudent(students: seq<Student>, id: string): (r: Option<nat>)
    ensures r.Some? ==> r.value < |students| && students[r.value].id == id
    ensures r.Some? ==> forall j :: 0 <= j < r.value ==> students[j].id != id
    ensures r.None? <==> forall s :: s in students ==> s.id != id
  {
    if students == [] then None
    else if students[0].id == id then Some(0)
    else match FindStudent(students[1..], id)
      case None =>
        assert forall j :: 1 <= j < |students| ==> students[j] == students[1..][j - 1];
        None
      case Some(k) => Some(k + 1)
  }

  /** Appending a record whose id is new keeps ids distinct. */
  lemma AppendNewStudentId(students: seq<Student>, s: Student)
    requires DistinctStudentIds(students)
    requires !HasStudentId(students, s.id)
    ensures DistinctStudentIds(students + [s])
  {
  }

  /** `students.filter(s => s.id !== id)` */
  function WithoutStudent(students: seq<Student>, id: string): (r: seq<Student>)
    ensures |r| <= |students|
    ensures forall s :: s in r <==> s in students && s.id != id
    ensures !HasStudentId(r, id)
    ensures !HasStudentId(students, id) ==> r == students
  {
    if students == [] then []
    else
      var rest := WithoutStudent(students[1..], id);
      assert students == [students[0]] + students[1..];
      if students[0].id == id then rest else [students[0]] + rest
  }

  /** Filtering distributes over concatenation, so the survivors keep their relative order. */
  lemma {:induction false} WithoutStudentAppend(a: seq<Student>, b: seq<Student>, id: string)
    ensures WithoutStudent(a + b, id) == WithoutStudent(a, id) + WithoutStudent(b, id)
  {
    if a == [] {
      assert a + b == b;
    } else {
      assert (a + b)[1..] == a[1..] + b;
      WithoutStudentAppend(a[1..], b, id);
    }
  }

  /** Deleting a student twice is the same as deleting once. */
  lemma WithoutStudentIdempotent(students: seq<Student>, id: string)
    ensures WithoutStudent(WithoutStudent(students, id), id) == WithoutStudent(students, id)
  {
  }

  /** With distinct ids, no record after the first shares the first one's id. */
  lemma HeadIdUnique(students: seq<Student>)
    requires DistinctStudentIds(students) && students != []
    ensures DistinctStudentIds(students[1..])
    ensures forall s :: s in students[1..] ==> s.id != students[0].id
  {
    var tail := students[1..];
    forall i | 0 <= i < |tail| ensures tail[i].id != students[0].id {
      assert tail[i] == students[i + 1];
    }
    forall i, j | 0 <= i < j < |tail| ensures tail[i].id != tail[j].id {
      assert tail[i] == students[i + 1] && tail[j] == students[j + 1];
    }
  }

  /** Filtering keeps student ids distinct. */
  lemma {:induction false} WithoutStudentKeepsDistinct(students: seq<Student>, id: string)
    requires DistinctStudentIds(students)
    ensures DistinctStudentIds(WithoutStudent(students, id))
  {
    if students != [] {
      var tail := students[1..];
      HeadIdUnique(students);
      WithoutStudentKeepsDistinct(tail, id);
      var rest := WithoutStudent(tail, id);
      if students[0].id != id {
        var r := [students[0]] + rest;
        forall i, j | 0 <= i < j < |r| ensures r[i].id != r[j].id {
          assert r[j] == rest[j - 1] && rest[j - 1] in tail;
          if i > 0 {
            assert r[i] == rest[i - 1];
          }
        }
      }
    }
  }

  /** Replacing one record by one with the same id keeps ids distinct. */
  lemma UpdateKeepsDistinct(students: seq<Student>, k: nat, s: Student)
    requires DistinctStudentIds(students)
    requires k < |students| && s.id == students[k].id
    ensures DistinctStudentIds(students[k := s])
  {
  }

  /** Removing one account keeps usernames distinct. */
  lemma SpliceKeepsDistinct(users: seq<User>, start: int)
    requires DistinctUsernames(users)
    ensures DistinctUsernames(Sequences.SpliceOne(users, start))
  {
  }
}
