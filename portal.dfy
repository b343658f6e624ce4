/**
 * The portal's in-memory state and the handlers that change it. Each
 * handler checks its precondition, changes one list in place (or the
 * session) and leaves everything else as it was; the `modifies` clause of
 * each method names exactly the fields it may touch. The store write that
 * follows every change is not part of this model.
 */
module Portal {

  import opened Records
  import Sequences

  class Portal {
    var users: seq<User>
    var students: seq<Student>
    var currentUser: Option<User>

    /** The uniqueness the handlers keep: they never add a second account or record with a key already present. */
    ghost predicate Valid()
      reads this
    {
      DistinctUsernames(users) && DistinctStudentIds(students)
    }

    /** The state before anything is loaded: no users, no students, nobody logged in. */
    constructor ()
      ensures users == [] && students == [] && currentUser == None
      ensures Valid()
    {
      users := [];
      students := [];
      currentUser := None;
    }

    /**
     * `handleLogin`: the first account whose username and password both
     * match becomes the session; otherwise the session is left alone.
     * With distinct usernames that account is the only one matching.
     */
    method Login(username: string, password: string) returns (outcome: Outcome)
      modifies this`currentUser
      ensures outcome == Done <==>
        exists k :: 0 <= k < |users| && MatchesCredentials(users[k], username, password)
      ensures outcome != Done ==> outcome == Rejected(InvalidCredentials)
      ensures match FindCredentials(users, username, password)
        case Some(k) => currentUser == Some(users[k])
        case None => currentUser == old(currentUser)
      ensures Valid() && outcome == Done ==>
        forall j :: 0 <= j < |users| && MatchesCredentials(users[j], username, password) ==>
          currentUser == Some(users[j])
    {
      match FindCredentials(users, username, password)
      case Some(k) =>
        currentUser := Some(users[k]);
        outcome := Done;
        assert MatchesCredentials(users[k], username, password);
        if Valid() {
          forall j | 0 <= j < |users| && MatchesCredentials(users[j], username, password)
            ensures currentUser == Some(users[j])
          {
            FindCredentialsUnique(users, username, password, j);
          }
        }
      case None =>
        outcome := Rejected(InvalidCredentials);
    }

    /** `logout`: the session ends, whatever it was. */
    method Logout()
      modifies this`currentUser
      ensures currentUser == None
    {
      currentUser := None;
    }

    /**
     * `handleSignup`: a password mismatch is reported first, then a taken
     * username; only when both checks pass is the new account appended.
     */
    method Signup(username: string, email: string, password: string, confirmPassword: string,
                  role: string, id: int, createdAt: string) returns (outcome: Outcome)
      modifies this`users
      ensures password != confirmPassword ==>
        outcome == Rejected(PasswordMismatch) && users == old(users)
      ensures password == confirmPassword && HasUsername(old(users), username) ==>
        outcome == Rejected(DuplicateUsername) && users == old(users)
      ensures password == confirmPassword && !HasUsername(old(users), username) ==>
        outcome == Done && users == old(users) + [User(id, username, email, password, role, createdAt)]
      ensures old(Valid()) ==> Valid()
    {
      if password != confirmPassword {
        return Rejected(PasswordMismatch);
      }
      if HasUsername(users, username) {
        return Rejected(DuplicateUsername);
      }
      var newUser := User(id, username, email, password, role, createdAt);
      if DistinctUsernames(users) {
        AppendNewUsername(users, newUser);
      }
      users := users + [newUser];
      outcome := Done;
    }

    /**
     * `handleEnrollment`: a taken student id is refused; otherwise the new
     * record, with no grades and no attendance yet, goes at the end.
     */
    method Enroll(id: string, name: string, email: string, course: string, enrollmentDate: string,
                  profilePic: Option<string>) returns (outcome: Outcome)
      modifies this`students
      ensures HasStudentId(old(students), id) ==>
        outcome == Rejected(DuplicateId) && students == old(students)
      ensures !HasStudentId(old(students), id) ==>
        outcome == Done &&
        students == old(students) + [Student(id, name, email, course, enrollmentDate, [], [], profilePic)]
      ensures old(Valid()) ==> Valid()
    {
      if HasStudentId(students, id) {
        return Rejected(DuplicateId);
      }
      var newStudent := Student(id, name, email, course, enrollmentDate, [], [], profilePic);
      if DistinctStudentIds(students) {
        AppendNewStudentId(students, newStudent);
      }
      students := students + [newStudent];
      outcome := Done;
    }

    /**
     * `handleGradeSubmit`: the grade is appended to the first record with
     * the id; every other record, and every other field of that one, stays.
     */
    method AddGrade(studentId: string, subject: string, grade: string, semester: string, date: string)
      returns (outcome: Outcome)
      modifies this`students
      ensures match FindStudent(old(students), studentId)
        case None =>
          outcome == Rejected(StudentNotFound) && students == old(students)
        case Some(k) =>
          outcome == Done &&
          students == old(students)[k := old(students)[k].(grades := old(students)[k].grades + [Grade(subject, grade, semester, date)])]
      ensures old(Valid()) ==> Valid()
    {
      match FindStudent(students, studentId)
      case None =>
        outcome := Rejected(StudentNotFound);
      case Some(k) =>
        var s := students[k];
        var updated := s.(grades := s.grades + [Grade(subject, grade, semester, date)]);
        if DistinctStudentIds(students) {
          UpdateKeepsDistinct(students, k, updated);
        }
        students := students[k := updated];
        outcome := Done;
    }

    /** `handleAttendanceSubmit`: as `AddGrade`, for the attendance list. */
    method AddAttendance(studentId: string, date: string, status: string, notes: string, recordedAt: string)
      returns (outcome: Outcome)
      modifies this`students
      ensures match FindStudent(old(students), studentId)
        case None =>
          outcome == Rejected(StudentNotFound) && students == old(students)
        case Some(k) =>
          outcome == Done &&
          students == old(students)[k := old(students)[k].(attendance := old(students)[k].attendance + [Attendance(date, status, notes, recordedAt)])]
      ensures old(Valid()) ==> Valid()
    {
      match FindStudent(students, studentId)
      case None =>
        outcome := Rejected(StudentNotFound);
      case Some(k) =>
        var s := students[k];
        var updated := s.(attendance := s.attendance + [Attendance(date, status, notes, recordedAt)]);
        if DistinctStudentIds(students) {
          UpdateKeepsDistinct(students, k, updated);
        }
        students := students[k := updated];
        outcome := Done;
    }

    /** `deleteStudent`: every record with the id goes, the rest keep their order. */
    method DeleteStudent(studentId: string)
      modifies this`students
      ensures students == WithoutStudent(old(students), studentId)
      ensures !HasStudentId(students, studentId)
      ensures forall s :: s in students <==> s in old(students) && s.id != studentId
      ensures old(Valid()) ==> Valid()
    {
      if DistinctStudentIds(students) {
        WithoutStudentKeepsDistinct(students, studentId);
      }
      students := WithoutStudent(students, studentId);
    }

    /**
     * `deleteGrade`: only when the record exists and the position is in
     * range is that one entry removed; otherwise nothing happens.
     */
    method DeleteGrade(studentId: string, gradeIndex: int) returns (deleted: bool)
      modifies this`students
      ensures deleted <==>
        FindStudent(old(students), studentId).Some? &&
        0 <= gradeIndex < |old(students)[FindStudent(old(students), studentId).value].grades|
      ensures !deleted ==> students == old(students)
      ensures deleted ==>
        var k := FindStudent(old(students), studentId).value;
        students == old(students)[k := old(students)[k].(grades := Sequences.RemoveAt(old(students)[k].grades, gradeIndex))]
      ensures old(Valid()) ==> Valid()
    {
      deleted := false;
      match FindStudent(students, studentId)
      case None =>
      case Some(k) =>
        var s := students[k];
        if 0 <= gradeIndex < |s.grades| {
          var updated := s.(grades := Sequences.RemoveAt(s.grades, gradeIndex));
          if DistinctStudentIds(students) {
            UpdateKeepsDistinct(students, k, updated);
          }
          students := students[k := updated];
          deleted := true;
        }
    }

    /** `deleteAttendance`: as `DeleteGrade`, for the attendance list. */
    method DeleteAttendance(studentId: string, attendanceIndex: int) returns (deleted: bool)
      modifies this`students
      ensures deleted <==>
        FindStudent(old(students), studentId).Some? &&
        0 <= attendanceIndex < |old(students)[FindStudent(old(students), studentId).value].attendance|
      ensures !deleted ==> students == old(students)
      ensures deleted ==>
        var k := FindStudent(old(students), studentId).value;
        students == old(students)[k := old(students)[k].(attendance := Sequences.RemoveAt(old(students)[k].attendance, attendanceIndex))]
      ensures old(Valid()) ==> Valid()
    {
      deleted := false;
      match FindStudent(students, studentId)
      case None =>
      case Some(k) =>
        var s := students[k];
        if 0 <= attendanceIndex < |s.attendance| {
          var updated := s.(attendance := Sequences.RemoveAt(s.attendance, attendanceIndex));
          if DistinctStudentIds(students) {
            UpdateKeepsDistinct(students, k, updated);
          }
          students := students[k := updated];
          deleted := true;
        }
    }

    /**
     * `deleteUser`: `users.splice(userIndex, 1)`, then the session ends if
     * its username is no longer among the accounts.
     */
    method DeleteUser(userIndex: int) returns (loggedOut: bool)
      modifies this`users, this`currentUser
      ensures users == Sequences.SpliceOne(old(users), userIndex)
      ensures loggedOut <==> old(currentUser).Some? && !HasUsername(users, old(currentUser).value.username)
      ensures currentUser == if loggedOut then None else old(currentUser)
      ensures old(Valid()) ==> Valid()
    {
      if DistinctUsernames(users) {
        SpliceKeepsDistinct(users, userIndex);
      }
      users := Sequences.SpliceOne(users, userIndex);
      loggedOut := currentUser.Some? && !HasUsername(users, currentUser.value.username);
      if loggedOut {
        Logout();
      }
    }
  }

  /**
   * Signing up and then logging in with the same credentials opens a
   * session for the account just created.
   */
  method SignupThenLogin(p: Portal, username: string, email: string, password: string,
                         role: string, id: int, createdAt: string)
    requires !HasUsername(p.users, username)
    modifies p
    ensures p.currentUser == Some(User(id, username, email, password, role, createdAt))
  {
    var signedUp := p.Signup(username, email, password, password, role, id, createdAt);
    FindsNewAccount(old(p.users), User(id, username, email, password, role, createdAt));
    var loggedIn := p.Login(username, password);
  }

  /** A second enrollment with the same id is refused and changes nothing. */
  method EnrollTwice(p: Portal, id: string, name: string, email: string, course: string, date: string)
    returns (second: Outcome)
    requires !HasStudentId(p.students, id)
    modifies p
    ensures second == Rejected(DuplicateId)
    ensures p.students == old(p.students) + [Student(id, name, email, course, date, [], [], None)]
    ensures p.users == old(p.users) && p.currentUser == old(p.currentUser)
  {
    var first := p.Enroll(id, name, email, course, date, None);
    assert p.students[|p.students| - 1].id == id;
    second := p.Enroll(id, name, email, course, date, None);
  }

  /**
   * Deletion by position: repeating `deleteGrade` with the same, now stale,
   * position removes the entry that used to follow the first one.
   */
  method DeleteGradeTwice(p: Portal, studentId: string, i: nat)
    requires FindStudent(p.students, studentId).Some?
    requires i + 1 < |p.students[FindStudent(p.students, studentId).value].grades|
    modifies p
    ensures |p.students| == |old(p.students)|
    ensures var k := FindStudent(old(p.students), studentId).value;
      var g := old(p.students)[k].grades;
      p.students[k].grades == g[..i] + g[i + 2..]
  {
    ghost var k := FindStudent(p.students, studentId).value;
    ghost var g := p.students[k].grades;
    var first := p.DeleteGrade(studentId, i);
    assert FindStudent(p.students, studentId) == Some(k) by {
      assert forall j :: 0 <= j < |p.students| ==> p.students[j].id == old(p.students)[j].id;
    }
    var second := p.DeleteGrade(studentId, i);
    assert p.students[k].grades == g[..i] + g[i + 2..];
  }
}
