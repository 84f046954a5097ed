/**
 * Students, course links and enrolment events, and the find-or-create core that
 * single enrolment and bulk import share.
 *
 * Tables are sequences in insertion order and a row's id is its rank: ids are only
 * ever compared for equality, and nothing in this component deletes a row.
 */
module Roster {
  import opened Options

  /** The characters that JavaScript's `String.prototype.trim` strips. */
  predicate IsSpace(c: char) {
    var n := c as int;
    || 0x09 <= n <= 0x0D || n == 0x20 || n == 0xA0 || n == 0x1680 || 0x2000 <= n <= 0x200A
    || n == 0x2028 || n == 0x2029 || n == 0x202F || n == 0x205F || n == 0x3000 || n == 0xFEFF
  }

  /** They are the white space and line terminators of ECMA-262, sections 12.2 and 12.3. */
  lemma SpacesAre(c: char)
    ensures IsSpace(c) <==> c as int in {
      0x09, 0x0A, 0x0B, 0x0C, 0x0D, 0x20, 0xA0, 0x1680, 0x2000, 0x2001, 0x2002, 0x2003, 0x2004, 0x2005, 0x2006,
      0x2007, 0x2008, 0x2009, 0x200A, 0x2028, 0x2029, 0x202F, 0x205F, 0x3000, 0xFEFF
    }
  {
  }

  function TrimStart(s: string): string {
    if s == "" || !IsSpace(s[0]) then s else TrimStart(s[1..])
  }

  function TrimEnd(s: string): string {
    if s == "" || !IsSpace(s[|s| - 1]) then s else TrimEnd(s[..|s| - 1])
  }

  function Trim(s: string): string {
    TrimEnd(TrimStart(s))
  }

  ghost predicate AllSpaces(s: string) { forall i | 0 <= i < |s| :: IsSpace(s[i]) }

  /** Trimming removes spaces at the two ends, all of them, and nothing else. */
  lemma TrimMeaning(s: string)
    ensures var t := Trim(s);
      && (t != "" ==> !IsSpace(t[0]) && !IsSpace(t[|t| - 1]))
      && exists i: nat :: i + |t| <= |s| && s[i..i + |t|] == t && AllSpaces(s[..i]) && AllSpaces(s[i + |t|..])
  {
    var i := TrimStartMeaning(s);
    var u := TrimStart(s);
    var j := TrimEndMeaning(u);
    assert s[i + j..] == u[j..];
    assert s[i..i + j] == u[..j];
    assert Trim(s) == u[..j];
  }

  lemma {:induction false} TrimStartMeaning(s: string) returns (i: nat)
    ensures i <= |s| && TrimStart(s) == s[i..] && AllSpaces(s[..i]) && (i < |s| ==> !IsSpace(s[i]))
  {
    i := 0;
    if s != "" && IsSpace(s[0]) {
      var j := TrimStartMeaning(s[1..]);
      i := j + 1;
      assert s[..i] == [s[0]] + s[1..][..j];
    }
  }

  lemma {:induction false} TrimEndMeaning(s: string) returns (j: nat)
    ensures j <= |s| && TrimEnd(s) == s[..j] && AllSpaces(s[j..]) && (j > 0 ==> !IsSpace(s[j - 1]))
  {
    j := |s|;
    if s != "" && IsSpace(s[|s| - 1]) {
      var init := s[..|s| - 1];
      j := TrimEndMeaning(init);
      assert s[j..] == init[j..] + [s[|s| - 1]];
    }
  }

  /** A trimmed value, absent when undefined or blank. */
  function NonBlank(o: Option<string>): Option<string> {
    match o
    case None => None
    case Some(s) => if Trim(s) == "" then None else Some(Trim(s))
  }

  datatype Student = Student(number: string, fullName: string, email: Option<string>)
  datatype Enrollment = Enrollment(course: nat, student: nat)
  datatype Event = StudentEnrolled(enrollment: nat, course: nat, student: nat)
  datatype Roster = Roster(students: seq<Student>, enrollments: seq<Enrollment>, events: seq<Event>)

  datatype Input =
    Input(studentId: Option<nat>, number: Option<string>, fullName: Option<string>, email: Option<string>)
  datatype Resolved = Resolved(enrollment: nat, created: bool, alreadyEnrolled: bool)
  datatype RowError = StudentNotFound | NumberRequired | NameRequired | EmailTaken | DatabaseError
  type Outcome = Result<Resolved, RowError>

  // ---- Lookups by unique key ------------------------------------------------

  /** The first of the students from `from` on that has this number. */
  function FindNumber(students: seq<Student>, number: string, from: nat := 0): (r: Option<nat>)
    requires from <= |students|
    ensures r.Some? ==> from <= r.value < |students| && students[r.value].number == number
    ensures forall i | from <= i < (if r.Some? then r.value else |students|) :: students[i].number != number
    decreases |students| - from
  {
    if from == |students| then None
    else if students[from].number == number then Some(from)
    else FindNumber(students, number, from + 1)
  }

  predicate EmailInUse(students: seq<Student>, email: Option<string>) {
    email.Some? && exists i | 0 <= i < |students| :: students[i].email == email
  }

  function FindLink(links: seq<Enrollment>, link: Enrollment, from: nat := 0): (r: Option<nat>)
    requires from <= |links|
    ensures r.Some? ==> from <= r.value < |links| && links[r.value] == link
    ensures forall i | from <= i < (if r.Some? then r.value else |links|) :: links[i] != link
    decreases |links| - from
  {
    if from == |links| then None
    else if links[from] == link then Some(from)
    else FindLink(links, link, from + 1)
  }

  // ---- resolveAndLinkStudent ------------------------------------------------

  function Link(db: Roster, course: nat, student: nat, created: bool): (Roster, Outcome) {
    match FindLink(db.enrollments, Enrollment(course, student))
    case Some(e) => (db, Ok(Resolved(e, created, true)))
    case None =>
      var e := |db.enrollments|;
      (db.(enrollments := db.enrollments + [Enrollment(course, student)],
           events := db.events + [StudentEnrolled(e, course, student)]),
       Ok(Resolved(e, created, false)))
  }

  /** One `resolveAndLinkStudent` transaction: the committed tables and what the caller sees. */
  function Resolve(db: Roster, course: nat, input: Input): (Roster, Outcome) {
    if input.studentId.Some? then
      if input.studentId.value < |db.students| then Link(db, course, input.studentId.value, false)
      else (db, Err(StudentNotFound))
    else if NonBlank(input.number).None? then (db, Err(NumberRequired))
    else
      var number := NonBlank(input.number).value;
      match FindNumber(db.students, number)
      case Some(s) => Link(db, course, s, false)
      case None =>
        if NonBlank(input.fullName).None? then (db, Err(NameRequired))
        else
          var email := NonBlank(input.email);
          if EmailInUse(db.students, email) then (db, Err(EmailTaken))
          else
            var student := Student(number, NonBlank(input.fullName).value, email);
            Link(db.(students := db.students + [student]), course, |db.students|, true)
  }

  /** The database tables this component writes, updated in place. */
  class Database {
    var students: seq<Student>
    var enrollments: seq<Enrollment>
    var events: seq<Event>

    function Contents(): Roster
      reads this
    {
      Roster(students, enrollments, events)
    }

    constructor (db: Roster)
      ensures Contents() == db
    {
      students, enrollments, events := db.students, db.enrollments, db.events;
    }

    /** `resolveAndLinkStudent` inside its transaction: an error leaves the tables as they were. */
    method ResolveAndLinkStudent(course: nat, input: Input) returns (r: Outcome)
      modifies this
      ensures (Contents(), r) == Resolve(old(Contents()), course, input)
    {
      var student: nat;
      var created := false;
      if input.studentId.Some? {
        student := input.studentId.value;
        if student >= |students| { return Err(StudentNotFound); }
      } else {
        var number := NonBlank(input.number);
        if number.None? { return Err(NumberRequired); }
        var found := FindNumber(students, number.value);
        if found.Some? {
          student := found.value;
        } else {
          var fullName := NonBlank(input.fullName);
          if fullName.None? { return Err(NameRequired); }
          var email := NonBlank(input.email);
          if EmailInUse(students, email) { return Err(EmailTaken); }
          student := |students|;
          students := students + [Student(number.value, fullName.value, email)];
          created := true;
        }
      }
      var existing := FindLink(enrollments, Enrollment(course, student));
      if existing.Some? { return Ok(Resolved(existing.value, created, true)); }
      r := Ok(Resolved(|enrollments|, created, false));
      events := events + [StudentEnrolled(|enrollments|, course, student)];
      enrollments := enrollments + [Enrollment(course, student)];
    }
  }

  // ---- Integrity -------------------------------------------------------------

  /** The unique and foreign-key constraints of the schema. */
  ghost predicate Integrity(db: Roster) {
    && (forall i, j | 0 <= i < j < |db.students| :: db.students[i].number != db.students[j].number)
    && (forall i, j | 0 <= i < j < |db.students| ::
          db.students[i].email.Some? ==> db.students[i].email != db.students[j].email)
    && (forall i, j | 0 <= i < j < |db.enrollments| :: db.enrollments[i] != db.enrollments[j])
    && (forall i | 0 <= i < |db.enrollments| :: db.enrollments[i].student < |db.students|)
  }

  /** No row is ever changed or removed. */
  ghost predicate Extends(db: Roster, db': Roster) {
    db.students <= db'.students && db.enrollments <= db'.enrollments && db.events <= db'.events
  }

  /** Every link added since `db` is in `course` and has exactly one event, in the same order. */
  ghost predicate NewLinksHaveEvents(db: Roster, db': Roster, course: nat) {
    && Extends(db, db')
    && |db'.events| - |db.events| == |db'.enrollments| - |db.enrollments|
    && forall e | |db.enrollments| <= e < |db'.enrollments| ::
         && db'.enrollments[e].course == course
         && db'.events[|db.events| - |db.enrollments| + e] == StudentEnrolled(e, course, db'.enrollments[e].student)
  }

  lemma LinkKeepsIntegrity(db: Roster, course: nat, student: nat, created: bool)
    requires Integrity(db) && student < |db.students|
    ensures var (db', r) := Link(db, course, student, created);
      Integrity(db') && NewLinksHaveEvents(db, db', course) && r.Ok?
  {
  }

  lemma StudentKeepsIntegrity(db: Roster, s: Student)
    requires Integrity(db) && FindNumber(db.students, s.number).None? && !EmailInUse(db.students, s.email)
    ensures Integrity(db.(students := db.students + [s]))
  {
  }

  lemma ResolveKeepsIntegrity(db: Roster, course: nat, input: Input)
    requires Integrity(db)
    ensures var (db', r) := Resolve(db, course, input);
      && Integrity(db')
      && NewLinksHaveEvents(db, db', course)
      && (r.Err? ==> db' == db)
  {
    hide Link, NonBlank;
    if input.studentId.Some? {
      if input.studentId.value < |db.students| {
        LinkKeepsIntegrity(db, course, input.studentId.value, false);
      }
    } else if NonBlank(input.number).Some? {
      var found := FindNumber(db.students, NonBlank(input.number).value);
      if found.Some? {
        LinkKeepsIntegrity(db, course, found.value, false);
      } else if NonBlank(input.fullName).Some? && !EmailInUse(db.students, NonBlank(input.email)) {
        var student := Student(NonBlank(input.number).value,
                               NonBlank(input.fullName).value, NonBlank(input.email));
        StudentKeepsIntegrity(db, student);
        LinkKeepsIntegrity(db.(students := db.students + [student]), course, |db.students|, true);
      }
    }
  }

  /** There is something but white space in it. */
  predicate HasText(o: Option<string>) { o.Some? && Trim(o.value) != "" }

  /** A student with this number exists. */
  ghost predicate NumberKnown(db: Roster, number: string) {
    exists i | 0 <= i < |db.students| :: db.students[i].number == number
  }

  ghost predicate EmailTakenBy(db: Roster, email: string) {
    exists i | 0 <= i < |db.students| :: db.students[i].email == Some(email)
  }

  /** The call has what it needs: a known id, or a number that is known or comes with a name and a free e-mail. */
  ghost predicate Resolvable(db: Roster, input: Input) {
    if input.studentId.Some? then input.studentId.value < |db.students|
    else
      && HasText(input.number)
      && (|| NumberKnown(db, Trim(input.number.value))
          || (HasText(input.fullName) && !(HasText(input.email) && EmailTakenBy(db, Trim(input.email.value)))))
  }

  /** Which calls succeed, exactly, and which error each refused one gets. */
  lemma ResolveOutcome(db: Roster, course: nat, input: Input)
    ensures var r := Resolve(db, course, input).1;
      && (r.Ok? <==> Resolvable(db, input))
      && (r.Err? ==>
            r.error ==
              if input.studentId.Some? then StudentNotFound
              else if !HasText(input.number) then NumberRequired
              else if !HasText(input.fullName) then NameRequired
              else EmailTaken)
  {
    hide Trim;
    if input.studentId.None? && HasText(input.number) {
      var number := Trim(input.number.value);
      assert FindNumber(db.students, number).Some? <==> NumberKnown(db, number);
      if HasText(input.email) {
        assert EmailInUse(db.students, Some(Trim(input.email.value))) <==> EmailTakenBy(db, Trim(input.email.value));
      }
    }
  }

  /**
   * What a client can rely on: success means the student asked for is on the course, and
   * the flags say exactly which rows this call added.
   */
  lemma ResolveMeaning(db: Roster, course: nat, input: Input)
    requires Integrity(db) && Resolve(db, course, input).1.Ok?
    ensures var (db', r) := Resolve(db, course, input);
      && r.value.enrollment < |db'.enrollments|
      && db'.enrollments[r.value.enrollment].course == course
      && var s := db'.enrollments[r.value.enrollment].student;
         && s < |db'.students|
         && (if input.studentId.Some? then s == input.studentId.value
             else input.number.Some? && db'.students[s].number == Trim(input.number.value))
         && (r.value.created <==> s >= |db.students|)
         && (r.value.created ==>
               && input.studentId.None? && input.fullName.Some?
               && db'.students[s].fullName == Trim(input.fullName.value)
               && db'.students[s].email == if HasText(input.email) then Some(Trim(input.email.value)) else None)
         && |db'.students| == |db.students| + (if r.value.created then 1 else 0)
         && (r.value.alreadyEnrolled <==> Enrollment(course, s) in db.enrollments)
         && |db'.enrollments| == |db.enrollments| + (if r.value.alreadyEnrolled then 0 else 1)
         && !(r.value.created && r.value.alreadyEnrolled)
  {
    hide Trim;
    var (db', r) := Resolve(db, course, input);
    var s := db'.enrollments[r.value.enrollment].student;
    assert forall l | l in db.enrollments :: l.student < |db.students|;
    if r.value.alreadyEnrolled {
      assert db.enrollments[r.value.enrollment] == Enrollment(course, s);
    }
  }

  // ---- Rows of an import, one transaction each -------------------------------

  datatype ImportRow = ImportRow(number: string, fullName: Option<string>, email: Option<string>)

  function RowInput(row: ImportRow): Input {
    Input(None, Some(row.number), row.fullName, row.email)
  }

  /** One row's transaction; a transient database error rolls it back. */
  function RowStep(db: Roster, course: nat, row: ImportRow, fault: bool): (Roster, Outcome) {
    if fault then (db, Err(DatabaseError)) else Resolve(db, course, RowInput(row))
  }

  /** The tables after the first `k` rows; the transactions of the rows in `faults` fail. */
  function RunTo(db: Roster, course: nat, rows: seq<ImportRow>, faults: set<nat>, k: nat): Roster
    requires k <= |rows|
  {
    if k == 0 then db
    else RowStep(RunTo(db, course, rows, faults, k - 1), course, rows[k - 1], k - 1 in faults).0
  }

  /** How row `i` ends in that run. */
  function RowOutcome(db: Roster, course: nat, rows: seq<ImportRow>, faults: set<nat>, i: nat): Outcome
    requires i < |rows|
  {
    RowStep(RunTo(db, course, rows, faults, i), course, rows[i], i in faults).1
  }

  // ---- Crash convergence -----------------------------------------------------

  /** Students added since `db` are all on `course`: creating and linking commit together. */
  ghost predicate NewStudentsLinked(db: Roster, db': Roster, course: nat) {
    && Extends(db, db')
    && forall s | |db.students| <= s < |db'.students| :: Enrollment(course, s) in db'.enrollments
  }

  lemma StepGrows(db: Roster, course: nat, row: ImportRow, fault: bool)
    ensures NewStudentsLinked(db, RowStep(db, course, row, fault).0, course)
  {
    hide NonBlank;
    var (db', r) := RowStep(db, course, row, fault);
    if r.Ok? && r.value.created {
      assert db'.enrollments[r.value.enrollment] == Enrollment(course, |db.students|);
    }
  }

  lemma GrowsTransitively(a: Roster, b: Roster, c: Roster, course: nat)
    requires NewStudentsLinked(a, b, course) && NewStudentsLinked(b, c, course)
    ensures NewStudentsLinked(a, c, course)
  {
    forall s | |a.students| <= s < |c.students| ensures Enrollment(course, s) in c.enrollments {
      if s < |b.students| {
        assert Enrollment(course, s) in b.enrollments;
      }
    }
  }

  lemma {:induction false} RunGrows(db: Roster, course: nat, rows: seq<ImportRow>, faults: set<nat>, i: nat, k: nat)
    requires i <= k <= |rows|
    ensures NewStudentsLinked(RunTo(db, course, rows, faults, i), RunTo(db, course, rows, faults, k), course)
  {
    hide RowStep;
    if i < k {
      var d := RunTo(db, course, rows, faults, k - 1);
      RunGrows(db, course, rows, faults, i, k - 1);
      StepGrows(d, course, rows[k - 1], k - 1 in faults);
      GrowsTransitively(RunTo(db, course, rows, faults, i), d, RunTo(db, course, rows, faults, k), course);
    }
  }

  lemma FindNumberStable(students: seq<Student>, later: seq<Student>, number: string)
    requires students <= later && FindNumber(students, number).Some?
    ensures FindNumber(later, number) == FindNumber(students, number)
  {
  }

  lemma FindLinkStable(links: seq<Enrollment>, later: seq<Enrollment>, link: Enrollment)
    requires links <= later && FindLink(links, link).Some?
    ensures FindLink(later, link) == FindLink(links, link)
  {
  }

  /** How a row that once ended in `first` ends when it is run again on the tables `now`. */
  ghost predicate SettledOutcome(first: Outcome, again: Outcome, row: ImportRow, now: Roster) {
    match first
    case Ok(r) => again == Ok(Resolved(r.enrollment, false, true))
    case Err(_) =>
      var number := NonBlank(Some(row.number));
      if number.Some? && FindNumber(now.students, number.value).Some?
      then again.Ok? && !again.value.created && again.value.alreadyEnrolled
      else again == first
  }

  /**
   * Rerunning a committed row changes nothing, whatever rows committed after it. In
   * particular a row that failed for want of a name, or on a taken e-mail, either fails
   * the same way again or finds the student that a later row created and linked.
   */
  lemma CommittedRowIsSettled(before: Roster, now: Roster, course: nat, row: ImportRow)
    requires NewStudentsLinked(before, now, course)
    requires Extends(RowStep(before, course, row, false).0, now)
    ensures RowStep(now, course, row, false).0 == now
    ensures SettledOutcome(RowStep(before, course, row, false).1, RowStep(now, course, row, false).1, row, now)
  {
    if RowStep(before, course, row, false).1.Ok? {
      CommittedSuccessIsSettled(before, now, course, row);
    } else {
      CommittedErrorIsSettled(before, now, course, row);
    }
  }

  lemma CommittedSuccessIsSettled(before: Roster, now: Roster, course: nat, row: ImportRow)
    requires RowStep(before, course, row, false).1.Ok?
    requires Extends(RowStep(before, course, row, false).0, now)
    ensures var r := RowStep(before, course, row, false).1.value;
      RowStep(now, course, row, false) == (now, Ok(Resolved(r.enrollment, false, true)))
  {
    hide NonBlank;
    var (done, first) := RowStep(before, course, row, false);
    var number := NonBlank(Some(row.number)).value;
    var s := if first.value.created then |before.students| else FindNumber(before.students, number).value;
    assert done.students[s].number == number;
    FindNumberStable(done.students, now.students, number);
    var link := Enrollment(course, s);
    assert done.enrollments[first.value.enrollment] == link;
    FindLinkStable(done.enrollments, now.enrollments, link);
  }

  lemma CommittedErrorIsSettled(before: Roster, now: Roster, course: nat, row: ImportRow)
    requires NewStudentsLinked(before, now, course)
    requires RowStep(before, course, row, false).1.Err?
    ensures RowStep(now, course, row, false).0 == now
    ensures SettledOutcome(RowStep(before, course, row, false).1, RowStep(now, course, row, false).1, row, now)
  {
    hide NonBlank;
    if NonBlank(Some(row.number)).Some? {
      var found := FindNumber(now.students, NonBlank(Some(row.number)).value);
      if found.Some? {
        assert found.value >= |before.students|;
      } else if NonBlank(row.fullName).Some? {
        var email := NonBlank(row.email);
        var taken :| 0 <= taken < |before.students| && before.students[taken].email == email;
        assert now.students[taken].email == email;
      }
    }
  }

  lemma {:induction false} RerunPrefix(db: Roster, course: nat, rows: seq<ImportRow>, k: nat, j: nat)
    requires j <= k <= |rows|
    ensures RunTo(RunTo(db, course, rows, {}, k), course, rows, {}, j) == RunTo(db, course, rows, {}, k)
  {
    hide RowStep;
    if j > 0 {
      RerunPrefix(db, course, rows, k, j - 1);
      RunGrows(db, course, rows, {}, j - 1, k);
      RunGrows(db, course, rows, {}, j, k);
      CommittedRowIsSettled(RunTo(db, course, rows, {}, j - 1), RunTo(db, course, rows, {}, k), course, rows[j - 1]);
    }
  }

  /**
   * Restarting from row 1 after a crash that had committed `k` rows is the same as never
   * having crashed: the tables are those of the longest prefix reached so far.
   */
  lemma {:induction false} RestartConverges(db: Roster, course: nat, rows: seq<ImportRow>, k: nat, j: nat)
    requires k <= |rows| && j <= |rows|
    ensures RunTo(RunTo(db, course, rows, {}, k), course, rows, {}, j)
         == RunTo(db, course, rows, {}, if k <= j then j else k)
  {
    hide RowStep;
    if j <= k {
      RerunPrefix(db, course, rows, k, j);
    } else {
      RestartConverges(db, course, rows, k, j - 1);
    }
  }

  /**
   * What the report of a restarted delivery says: rows of the committed prefix that had
   * succeeded, and rows whose student a later row created, read "already"; the other
   * failures and all rows after the prefix end as in the uninterrupted run.
   */
  lemma RestartOutcome(db: Roster, course: nat, rows: seq<ImportRow>, k: nat, i: nat)
    requires k <= |rows| && i < |rows|
    ensures var now := RunTo(db, course, rows, {}, k);
      var first, again := RowOutcome(db, course, rows, {}, i), RowOutcome(now, course, rows, {}, i);
      if i < k then SettledOutcome(first, again, rows[i], now) else again == first
  {
    RestartConverges(db, course, rows, k, i);
    if i < k {
      RunGrows(db, course, rows, {}, i, k);
      RunGrows(db, course, rows, {}, i + 1, k);
      CommittedRowIsSettled(RunTo(db, course, rows, {}, i), RunTo(db, course, rows, {}, k), course, rows[i]);
    }
  }

  // ---- Rows that fail transiently ------------------------------------------------

  /** A row that says enough to create a student. */
  predicate Named(row: ImportRow) { NonBlank(Some(row.number)).Some? && NonBlank(row.fullName).Some? }

  /** The student such a row creates. */
  function DataOf(row: ImportRow): Student
    requires Named(row)
  {
    Student(NonBlank(Some(row.number)).value, NonBlank(row.fullName).value, NonBlank(row.email))
  }

  predicate Free(db: Roster, s: Student) {
    FindNumber(db.students, s.number).None? && !EmailInUse(db.students, s.email)
  }

  /** A row for a new student with a name and a free e-mail. */
  predicate Creatable(db: Roster, row: ImportRow) { Named(row) && Free(db, DataOf(row)) }

  /** Two students that cannot both be in the table: one number, or one e-mail. */
  predicate Conflict(a: Student, b: Student) {
    a != b && (a.number == b.number || (a.email.Some? && a.email == b.email))
  }

  ghost predicate NoConflicts(db: Roster, rows: seq<ImportRow>) {
    forall i, j | 0 <= i < j < |rows| && Creatable(db, rows[i]) && Creatable(db, rows[j]) ::
      !Conflict(DataOf(rows[i]), DataOf(rows[j]))
  }

  /** The tables up to row order, which ids do not reveal: students, and links as (course, number). */
  ghost function StudentSet(db: Roster): set<Student> { set s | s in db.students }

  ghost function LinkSet(db: Roster): set<(nat, string)> {
    set e | e in db.enrollments && e.student < |db.students| :: (e.course, db.students[e.student].number)
  }

  /** The (course, number) pairs that an event since `db` announces. */
  ghost function EventSet(db: Roster, now: Roster): set<(nat, string)> {
    set k | |db.events| <= k < |now.events| && now.events[k].student < |now.students| ::
      (now.events[k].course, now.students[now.events[k].student].number)
  }

  /** The same data, and the same events since `db`. */
  ghost predicate SameData(db: Roster, a: Roster, b: Roster) {
    StudentSet(a) == StudentSet(b) && LinkSet(a) == LinkSet(b) && EventSet(db, a) == EventSet(db, b)
  }

  ghost predicate HasNumber(row: ImportRow, number: string) { NonBlank(Some(row.number)) == Some(number) }

  ghost predicate CreatedBy(db: Roster, rows: seq<ImportRow>, s: Student) {
    exists i | 0 <= i < |rows| :: Creatable(db, rows[i]) && DataOf(rows[i]) == s
  }

  ghost predicate AskedFor(rows: seq<ImportRow>, number: string) {
    exists i | 0 <= i < |rows| :: HasNumber(rows[i], number)
  }

  /** All that any runs of these rows, with any faults, can have made of `db`. */
  ghost predicate Reached(db: Roster, now: Roster, course: nat, rows: seq<ImportRow>) {
    && Integrity(now) && NewStudentsLinked(db, now, course) && NewLinksHaveEvents(db, now, course)
    && (forall s | |db.students| <= s < |now.students| :: CreatedBy(db, rows, now.students[s]))
    && (forall e | |db.enrollments| <= e < |now.enrollments| ::
          && now.enrollments[e].course == course
          && AskedFor(rows, now.students[now.enrollments[e].student].number))
  }

  /** All that a run of these rows is for: every creatable student, every number on the course. */
  ghost predicate Complete(db: Roster, now: Roster, course: nat, rows: seq<ImportRow>) {
    && Reached(db, now, course, rows)
    && (forall i | 0 <= i < |rows| && Creatable(db, rows[i]) :: DataOf(rows[i]) in now.students)
    && (forall i, s | 0 <= i < |rows| && 0 <= s < |now.students| && HasNumber(rows[i], now.students[s].number) ::
          Enrollment(course, s) in now.enrollments)
  }

  /** What one committed row adds: at most a creatable student, at most a link of the row's number. */
  lemma StepAdds(now: Roster, course: nat, row: ImportRow)
    requires Integrity(now)
    ensures var now' := RowStep(now, course, row, false).0;
      && (|now'.students| > |now.students| ==>
            && |now'.students| == |now.students| + 1
            && Creatable(now, row) && now'.students[|now.students|] == DataOf(row))
      && (forall e | |now.enrollments| <= e < |now'.enrollments| ::
            && now'.enrollments[e].course == course && now'.enrollments[e].student < |now'.students|
            && HasNumber(row, now'.students[now'.enrollments[e].student].number))
  {
    hide NonBlank;
  }

  lemma EventsTransitively(a: Roster, b: Roster, c: Roster, course: nat)
    requires NewLinksHaveEvents(a, b, course) && NewLinksHaveEvents(b, c, course)
    ensures NewLinksHaveEvents(a, c, course)
  {
  }

  /** Exactly the links that were not there before are announced. */
  lemma EventsAnnounceNewLinks(db: Roster, now: Roster, course: nat)
    requires Integrity(db) && Integrity(now) && NewLinksHaveEvents(db, now, course)
    ensures EventSet(db, now) == LinkSet(now) - LinkSet(db)
  {
    var shift := |db.enrollments| - |db.events|;
    forall pair | pair in EventSet(db, now) ensures pair in LinkSet(now) && pair !in LinkSet(db) {
      var k :| |db.events| <= k < |now.events| && now.events[k].student < |now.students|
        && pair == (now.events[k].course, now.students[now.events[k].student].number);
      var e := k + shift;
      assert now.events[|db.events| - |db.enrollments| + e] == now.events[k];
      assert now.enrollments[e] in now.enrollments;
      if pair in LinkSet(db) { LinkIsNew(db, now, e, pair); }
    }
    forall pair | pair in LinkSet(now) && pair !in LinkSet(db) ensures pair in EventSet(db, now) {
      var e :| 0 <= e < |now.enrollments|
        && pair == (now.enrollments[e].course, now.students[now.enrollments[e].student].number);
      if e < |db.enrollments| {
        assert db.enrollments[e] == now.enrollments[e] && db.enrollments[e] in db.enrollments;
      } else {
        assert now.events[|db.events| - |db.enrollments| + e].student == now.enrollments[e].student;
      }
    }
  }

  /** A new link is none of the old ones. */
  lemma LinkIsNew(db: Roster, now: Roster, e: nat, pair: (nat, string))
    requires Integrity(db) && Integrity(now) && Extends(db, now) && |db.enrollments| <= e < |now.enrollments|
    requires pair == (now.enrollments[e].course, now.students[now.enrollments[e].student].number)
    ensures pair !in LinkSet(db)
  {
    assert forall f | 0 <= f < |db.enrollments| ::
        && now.enrollments[f] == db.enrollments[f]
        && now.students[db.enrollments[f].student] == db.students[db.enrollments[f].student];
  }

  lemma StepReaches(db: Roster, now: Roster, course: nat, rows: seq<ImportRow>, i: nat, fault: bool)
    requires i < |rows| && Reached(db, now, course, rows)
    ensures Reached(db, RowStep(now, course, rows[i], fault).0, course, rows)
  {
    if !fault {
      var now' := RowStep(now, course, rows[i], false).0;
      ResolveKeepsIntegrity(now, course, RowInput(rows[i]));
      StepGrows(now, course, rows[i], false);
      GrowsTransitively(db, now, now', course);
      EventsTransitively(db, now, now', course);
      StepAdds(now, course, rows[i]);
      LinksValid(now);
      hide RowStep, Free, Named, DataOf, Integrity, HasNumber, NewLinksHaveEvents;
      if |now'.students| > |now.students| {
        CreatableBefore(db, now, rows[i]);
        assert CreatedBy(db, rows, now'.students[|now.students|]);
      }
      forall e | |now.enrollments| <= e < |now'.enrollments|
        ensures AskedFor(rows, now'.students[now'.enrollments[e].student].number)
      {
        assert HasNumber(rows[i], now'.students[now'.enrollments[e].student].number);
      }
    }
  }

  lemma LinksValid(db: Roster)
    requires Integrity(db)
    ensures forall e | 0 <= e < |db.enrollments| :: db.enrollments[e].student < |db.students|
  {
  }

  lemma CreatableBefore(db: Roster, now: Roster, row: ImportRow)
    requires Extends(db, now) && Creatable(now, row)
    ensures Creatable(db, row)
  {
    hide NonBlank;
    var number := NonBlank(Some(row.number)).value;
    if FindNumber(db.students, number).Some? { FindNumberStable(db.students, now.students, number); }
    assert forall s | 0 <= s < |db.students| :: db.students[s] == now.students[s];
  }

  lemma {:induction false} RunReaches(db: Roster, now: Roster, course: nat, rows: seq<ImportRow>, faults: set<nat>,
                                      k: nat)
    requires k <= |rows| && Reached(db, now, course, rows)
    ensures Reached(db, RunTo(now, course, rows, faults, k), course, rows)
  {
    hide RowStep, Reached;
    if k > 0 {
      RunReaches(db, now, course, rows, faults, k - 1);
      StepReaches(db, RunTo(now, course, rows, faults, k - 1), course, rows, k - 1, k - 1 in faults);
    }
  }

  /** A row's own transaction leaves its student there, if nothing conflicts, and linked, if it was there. */
  lemma RowDone(db: Roster, now: Roster, course: nat, rows: seq<ImportRow>, i: nat)
    requires i < |rows| && Reached(db, now, course, rows) && NoConflicts(db, rows)
    ensures var now' := RowStep(now, course, rows[i], false).0;
      && (Creatable(db, rows[i]) ==> DataOf(rows[i]) in now'.students)
      && (forall s | 0 <= s < |db.students| && HasNumber(rows[i], db.students[s].number) ::
            Enrollment(course, s) in now'.enrollments)
  {
    var now' := RowStep(now, course, rows[i], false).0;
    if Creatable(db, rows[i]) {
      RowCreates(db, now, course, rows, i);
    }
    forall s | 0 <= s < |db.students| && HasNumber(rows[i], db.students[s].number)
      ensures Enrollment(course, s) in now'.enrollments
    {
      RowLinks(now, course, rows[i], s);
    }
  }

  lemma RowLinks(now: Roster, course: nat, row: ImportRow, s: nat)
    requires Integrity(now) && s < |now.students| && HasNumber(row, now.students[s].number)
    ensures Enrollment(course, s) in RowStep(now, course, row, false).0.enrollments
  {
    hide NonBlank;
    var now' := RowStep(now, course, row, false).0;
    var found := FindNumber(now.students, now.students[s].number);
    assert found == Some(s);
    var link := FindLink(now.enrollments, Enrollment(course, s));
    if link.Some? {
      assert now'.enrollments[link.value] == Enrollment(course, s);
    } else {
      assert now'.enrollments[|now.enrollments|] == Enrollment(course, s);
    }
  }

  lemma RowCreates(db: Roster, now: Roster, course: nat, rows: seq<ImportRow>, i: nat)
    requires i < |rows| && Reached(db, now, course, rows) && NoConflicts(db, rows) && Creatable(db, rows[i])
    ensures DataOf(rows[i]) in RowStep(now, course, rows[i], false).0.students
  {
    hide NonBlank, Link;
    var number := NonBlank(Some(rows[i].number)).value;
    var now' := RowStep(now, course, rows[i], false).0;
    StepGrows(now, course, rows[i], false);
    var found := FindNumber(now.students, number);
    if found.Some? {
      assert found.value >= |db.students|;
      NoRival(db, rows, i, now.students[found.value]);
      assert now'.students[found.value] == DataOf(rows[i]);
    } else {
      forall s | 0 <= s < |now.students| && NonBlank(rows[i].email).Some?
        ensures now.students[s].email != NonBlank(rows[i].email)
      {
        if s >= |db.students| { NoRival(db, rows, i, now.students[s]); }
      }
      CreatesStudent(now, course, rows[i]);
    }
  }

  lemma NoRival(db: Roster, rows: seq<ImportRow>, i: nat, s: Student)
    requires i < |rows| && Creatable(db, rows[i]) && NoConflicts(db, rows) && CreatedBy(db, rows, s)
    ensures !Conflict(DataOf(rows[i]), s)
  {
    hide Free, Named, DataOf;
    var j :| 0 <= j < |rows| && Creatable(db, rows[j]) && DataOf(rows[j]) == s;
  }

  lemma CreatesStudent(db: Roster, course: nat, row: ImportRow)
    requires Creatable(db, row)
    ensures var db' := RowStep(db, course, row, false).0;
      |db'.students| == |db.students| + 1 && db'.students[|db.students|] == DataOf(row)
  {
    hide NonBlank;
  }

  lemma RowDoneInRun(db: Roster, now: Roster, course: nat, rows: seq<ImportRow>, i: nat)
    requires i < |rows| && Reached(db, now, course, rows) && NoConflicts(db, rows)
    ensures var end := RunTo(now, course, rows, {}, |rows|);
      && (Creatable(db, rows[i]) ==> DataOf(rows[i]) in end.students)
      && (forall s | 0 <= s < |db.students| && HasNumber(rows[i], db.students[s].number) ::
            Enrollment(course, s) in end.enrollments)
  {
    hide RowStep, Reached, NoConflicts, Creatable, DataOf, HasNumber;
    RunReaches(db, now, course, rows, {}, i);
    RowDone(db, RunTo(now, course, rows, {}, i), course, rows, i);
    RunGrows(now, course, rows, {}, i + 1, |rows|);
  }

  lemma CleanRunCompletes(db: Roster, now: Roster, course: nat, rows: seq<ImportRow>)
    requires Reached(db, now, course, rows) && NoConflicts(db, rows)
    ensures Complete(db, RunTo(now, course, rows, {}, |rows|), course, rows)
  {
    var end := RunTo(now, course, rows, {}, |rows|);
    RunReaches(db, now, course, rows, {}, |rows|);
    hide RunTo, Integrity, NoConflicts, Free, Named, DataOf, HasNumber, CreatedBy, AskedFor;
    forall i | 0 <= i < |rows|
      ensures Creatable(db, rows[i]) ==> DataOf(rows[i]) in end.students
      ensures forall s | 0 <= s < |db.students| && HasNumber(rows[i], db.students[s].number) ::
        Enrollment(course, s) in end.enrollments
    {
      RowDoneInRun(db, now, course, rows, i);
    }
    assert forall s | 0 <= s < |db.students| :: end.students[s] == db.students[s];
  }

  lemma CompleteContains(db: Roster, x: Roster, y: Roster, course: nat, rows: seq<ImportRow>)
    requires Integrity(db) && Complete(db, x, course, rows) && Complete(db, y, course, rows)
    ensures StudentSet(x) <= StudentSet(y) && LinkSet(x) <= LinkSet(y)
  {
    hide Free, Named, DataOf, HasNumber;
    forall s | 0 <= s < |x.students| ensures x.students[s] in y.students {
      if s < |db.students| { assert y.students[s] == x.students[s]; }
    }
    forall e | 0 <= e < |x.enrollments|
      ensures (x.enrollments[e].course, x.students[x.enrollments[e].student].number) in LinkSet(y)
    {
      var link := x.enrollments[e];
      if e < |db.enrollments| {
        assert y.enrollments[e] == link;
        assert x.students[link.student] == db.students[link.student] == y.students[link.student];
      } else {
        var s :| 0 <= s < |y.students| && y.students[s] == x.students[link.student];
        assert Enrollment(course, s) in y.enrollments;
      }
    }
  }

  lemma StartReached(db: Roster, course: nat, rows: seq<ImportRow>)
    requires Integrity(db)
    ensures Reached(db, db, course, rows)
  {
  }

  /** Every row but one fails transiently. */
  function AllBut(n: nat, i: nat): (r: set<nat>)
    ensures forall k: nat :: k in r <==> k < n && k != i
  {
    if n == 0 then {} else AllBut(n - 1, i) + if n - 1 == i then {} else {n - 1}
  }

  lemma {:induction false} OnlyOneCommits(db: Roster, course: nat, rows: seq<ImportRow>, i: nat, k: nat)
    requires i < |rows| && k <= |rows|
    ensures RunTo(db, course, rows, AllBut(|rows|, i), k)
         == if k <= i then db else RowStep(db, course, rows[i], false).0
  {
    if k > 0 {
      OnlyOneCommits(db, course, rows, i, k - 1);
      hide Resolve;
    }
  }

  /** The student of the only row that commits is there, and stays through every rerun. */
  lemma OnlyOneCreates(db: Roster, course: nat, rows: seq<ImportRow>, i: nat)
    requires i < |rows| && Creatable(db, rows[i])
    ensures DataOf(rows[i]) in RunTo(db, course, rows, AllBut(|rows|, i), |rows|).students
  {
    OnlyOneCommits(db, course, rows, i, |rows|);
    CreatesStudent(db, course, rows[i]);
    hide RowStep, RunTo;
    assert RowStep(db, course, rows[i], false).0.students[|db.students|] == DataOf(rows[i]);
  }

  lemma NeverBoth(db: Roster, a: Student, b: Student)
    requires Integrity(db) && a in db.students && b in db.students
    ensures !Conflict(a, b)
  {
  }

  /** Runs of the rows one after the other, the `k`-th with the faults `history[k]`. */
  function Reruns(db: Roster, course: nat, rows: seq<ImportRow>, history: seq<set<nat>>, k: nat): Roster
    requires k <= |history|
  {
    if k == 0 then db else RunTo(Reruns(db, course, rows, history, k - 1), course, rows, history[k - 1], |rows|)
  }

  lemma {:induction false} RerunsReach(db: Roster, now: Roster, course: nat, rows: seq<ImportRow>,
                                       history: seq<set<nat>>, k: nat)
    requires k <= |history| && Reached(db, now, course, rows)
    ensures Reached(db, Reruns(now, course, rows, history, k), course, rows)
    ensures now.students <= Reruns(now, course, rows, history, k).students
  {
    hide Reached, RunTo;
    if k > 0 {
      var before := Reruns(now, course, rows, history, k - 1);
      RerunsReach(db, now, course, rows, history, k - 1);
      RunReaches(db, before, course, rows, history[k - 1], |rows|);
      RunGrows(before, course, rows, history[k - 1], 0, |rows|);
      RunStart(before, course, rows, history[k - 1]);
    }
  }

  lemma RunStart(db: Roster, course: nat, rows: seq<ImportRow>, faults: set<nat>)
    ensures RunTo(db, course, rows, faults, 0) == db
  {
  }

  lemma SameFromContained(db: Roster, x: Roster, y: Roster)
    requires StudentSet(x) <= StudentSet(y) && StudentSet(y) <= StudentSet(x)
    requires LinkSet(x) <= LinkSet(y) && LinkSet(y) <= LinkSet(x)
    requires EventSet(db, x) == LinkSet(x) - LinkSet(db) && EventSet(db, y) == LinkSet(y) - LinkSet(db)
    ensures SameData(db, x, y)
  {
    hide StudentSet, LinkSet, EventSet;
  }

  /** Without conflicts, a clean run after any faulted ones leaves the data of a clean run alone. */
  lemma CleanRunHeals(db: Roster, course: nat, rows: seq<ImportRow>, history: seq<set<nat>>)
    requires Integrity(db) && NoConflicts(db, rows)
    ensures var faulted := Reruns(db, course, rows, history, |history|);
      SameData(db, RunTo(faulted, course, rows, {}, |rows|), RunTo(db, course, rows, {}, |rows|))
  {
    var faulted := Reruns(db, course, rows, history, |history|);
    StartReached(db, course, rows);
    RerunsReach(db, db, course, rows, history, |history|);
    CleanRunCompletes(db, faulted, course, rows);
    CleanRunCompletes(db, db, course, rows);
    var x, y := RunTo(faulted, course, rows, {}, |rows|), RunTo(db, course, rows, {}, |rows|);
    EventsAnnounceNewLinks(db, x, course);
    EventsAnnounceNewLinks(db, y, course);
    hide *;
    CompleteContains(db, x, y, course, rows);
    CompleteContains(db, y, x, course, rows);
    SameFromContained(db, x, y);
  }

  /** A clean rerun repairs a run with these faults. */
  ghost predicate Heals(db: Roster, course: nat, rows: seq<ImportRow>, faults: set<nat>) {
    SameData(db, RunTo(RunTo(db, course, rows, faults, |rows|), course, rows, {}, |rows|),
             RunTo(db, course, rows, {}, |rows|))
  }

  /**
   * Exactly when transient faults do no lasting harm: a clean rerun repairs every faulted
   * run if and only if no two rows that could create a student on the starting tables ask
   * for one e-mail under two numbers, or for one number with different data.
   */
  lemma FaultsHealIff(db: Roster, course: nat, rows: seq<ImportRow>)
    requires Integrity(db)
    ensures NoConflicts(db, rows) <==> forall faults: set<nat> :: Heals(db, course, rows, faults)
  {
    hide Integrity, RunTo, Free, Named, DataOf, Conflict, SameData;
    if NoConflicts(db, rows) {
      forall faults: set<nat> ensures Heals(db, course, rows, faults) {
        CleanRunHeals(db, course, rows, [faults]);
        assert Reruns(db, course, rows, [faults], 0) == db;
        assert Reruns(db, course, rows, [faults], 1) == RunTo(db, course, rows, faults, |rows|);
      }
    } else if forall faults: set<nat> :: Heals(db, course, rows, faults) {
      var i, j :| 0 <= i < j < |rows| && Creatable(db, rows[i]) && Creatable(db, rows[j])
        && Conflict(DataOf(rows[i]), DataOf(rows[j]));
      HealedRunHas(db, course, rows, i);
      HealedRunHas(db, course, rows, j);
      StartReached(db, course, rows);
      RunReaches(db, db, course, rows, {}, |rows|);
      NeverBoth(RunTo(db, course, rows, {}, |rows|), DataOf(rows[i]), DataOf(rows[j]));
      assert false;
    }
  }

  lemma HealedRunHas(db: Roster, course: nat, rows: seq<ImportRow>, i: nat)
    requires i < |rows| && Creatable(db, rows[i])
    requires Heals(db, course, rows, AllBut(|rows|, i))
    ensures DataOf(rows[i]) in RunTo(db, course, rows, {}, |rows|).students
  {
    OnlyOneCreates(db, course, rows, i);
    var faulted := RunTo(db, course, rows, AllBut(|rows|, i), |rows|);
    RunGrows(faulted, course, rows, {}, 0, |rows|);
    RunStart(faulted, course, rows, {});
    hide RunTo, Free, Named, DataOf;
    assert DataOf(rows[i]) in StudentSet(RunTo(faulted, course, rows, {}, |rows|));
  }

  /**
   * What is lost: when of two conflicting rows only the second commits at first, the
   * student of the other never appears, however often and with whatever faults the import
   * is rerun.
   */
  lemma TransientFaultDiverges(db: Roster, course: nat, rows: seq<ImportRow>, i: nat, j: nat,
                               history: seq<set<nat>>)
    requires Integrity(db) && i < |rows| && j < |rows|
    requires Creatable(db, rows[i]) && Creatable(db, rows[j]) && Conflict(DataOf(rows[i]), DataOf(rows[j]))
    ensures var first := RunTo(db, course, rows, AllBut(|rows|, j), |rows|);
      DataOf(rows[i]) !in Reruns(first, course, rows, history, |history|).students
  {
    var first := RunTo(db, course, rows, AllBut(|rows|, j), |rows|);
    OnlyOneCreates(db, course, rows, j);
    StartReached(db, course, rows);
    RunReaches(db, db, course, rows, AllBut(|rows|, j), |rows|);
    RerunsReach(db, first, course, rows, history, |history|);
    hide RunTo, Free, Named, DataOf;
    var end := Reruns(first, course, rows, history, |history|);
    if DataOf(rows[i]) in end.students {
      NeverBoth(end, DataOf(rows[i]), DataOf(rows[j]));
    }
  }

  /**
   * Two new students with one e-mail: uninterrupted, the first is created; when the first
   * row fails transiently, no later run ever brings in that number.
   */
  lemma SharedEmailLocksOut(db: Roster, course: nat, a: ImportRow, b: ImportRow, history: seq<set<nat>>)
    requires Integrity(db) && Creatable(db, a) && Creatable(db, b)
    requires DataOf(a).number != DataOf(b).number && DataOf(a).email.Some? && DataOf(a).email == DataOf(b).email
    ensures DataOf(a) in RunTo(db, course, [a, b], {}, 2).students
    ensures var first := RunTo(db, course, [a, b], AllBut(2, 1), 2);
      forall s | s in Reruns(first, course, [a, b], history, |history|).students :: s.number != DataOf(a).number
  {
    var rows := [a, b];
    CreatesStudent(db, course, a);
    RunStart(db, course, rows, {});
    var one := RunTo(db, course, rows, {}, 1);
    assert one == RowStep(db, course, a, false).0;
    assert one.students[|db.students|] == DataOf(a);
    RunGrows(db, course, rows, {}, 1, 2);
    var first := RunTo(db, course, rows, AllBut(2, 1), 2);
    TransientFaultDiverges(db, course, rows, 0, 1, history);
    StartReached(db, course, rows);
    RunReaches(db, db, course, rows, AllBut(2, 1), 2);
    RerunsReach(db, first, course, rows, history, |history|);
    var end := Reruns(first, course, rows, history, |history|);
    hide RunTo, RowStep, Reruns, Integrity;
    forall s | 0 <= s < |end.students| ensures end.students[s].number != DataOf(a).number {
      if s < |db.students| {
        assert end.students[s] == db.students[s];
      } else {
        var k :| 0 <= k < |rows| && Creatable(db, rows[k]) && DataOf(rows[k]) == end.students[s];
        assert k == 0 || k == 1;
      }
    }
  }
}
