/**
 * The bulk-import job and its queue consumer: bookkeeping of one delivery, and what any
 * sequence of crashed, failed and completed deliveries of the same message leaves behind.
 */
module BulkImport {
  import opened Options
  import opened Roster

  /** Rows handled between two progress writes. */
  const CHUNK_SIZE := 25

  datatype RowStatus = Created | Enrolled | Already | Failed
  datatype RowResult = RowResult(row: nat, number: string, status: RowStatus, error: Option<RowError>)
  datatype Counts = Counts(created: nat, enrolled: nat, already: nat, failed: nat)

  datatype JobStatus = PENDING | PROCESSING | COMPLETED | FAILED
  datatype Report = NoReport | RowReport(results: seq<RowResult>) | ErrorReport
  datatype Job = Job(status: JobStatus, totalRows: nat, processedRows: nat, report: Report)

  datatype Frame =
    | Progress(job: nat, total: nat, processed: nat, counts: Counts)
    | Completed(job: nat, total: nat, counts: Counts, report: seq<RowResult>)
    | FailedFrame(job: nat, total: nat, processed: nat)

  datatype Payload = Payload(jobId: nat, course: nat, rows: seq<ImportRow>)

  // ---- Report and counts -----------------------------------------------------

  function StatusOf(outcome: Outcome): RowStatus {
    match outcome
    case Err(_) => Failed
    case Ok(r) => if r.created then Created else if r.alreadyEnrolled then Already else Enrolled
  }

  function ResultOf(i: nat, row: ImportRow, outcome: Outcome): RowResult {
    RowResult(i + 1, row.number, StatusOf(outcome), if outcome.Err? then Some(outcome.error) else None)
  }

  function Bump(c: Counts, status: RowStatus): Counts {
    match status
    case Created => c.(created := c.created + 1)
    case Enrolled => c.(enrolled := c.enrolled + 1)
    case Already => c.(already := c.already + 1)
    case Failed => c.(failed := c.failed + 1)
  }

  /** How many results have this status. */
  function Tally(results: seq<RowResult>, status: RowStatus): nat {
    if results == [] then 0
    else Tally(results[..|results| - 1], status) + (if results[|results| - 1].status == status then 1 else 0)
  }

  function TallyAll(results: seq<RowResult>): Counts {
    Counts(Tally(results, Created), Tally(results, Enrolled), Tally(results, Already), Tally(results, Failed))
  }

  /** The report of the first `k` rows of a run started on `db`. */
  function ReportTo(db: Roster, course: nat, rows: seq<ImportRow>, faults: set<nat>, k: nat): seq<RowResult>
    requires k <= |rows|
  {
    seq(k, i requires 0 <= i < |rows| => ResultOf(i, rows[i], RowOutcome(db, course, rows, faults, i)))
  }

  // ---- Progress points -------------------------------------------------------

  function Min(a: nat, b: nat): nat { if a <= b then a else b }

  /** ⌈n/25⌉ */
  function Chunks(n: nat): nat { (n + CHUNK_SIZE - 1) / CHUNK_SIZE }

  /** Rows handled when the `j`-th progress write (from 0) is made. */
  function Point(n: nat, j: nat): nat { Min(CHUNK_SIZE * (j + 1), n) }

  predicate IsPoint(n: nat, processed: nat) { processed % CHUNK_SIZE == 0 || processed == n }

  /** How many progress writes the first `i` rows of `n` have made. */
  function PointsUpTo(n: nat, i: nat): nat { if i == n then Chunks(n) else i / CHUNK_SIZE }

  lemma PointsStep(n: nat, i: nat)
    requires i < n
    ensures PointsUpTo(n, i + 1) == PointsUpTo(n, i) + (if IsPoint(n, i + 1) then 1 else 0)
    ensures IsPoint(n, i + 1) ==> Point(n, PointsUpTo(n, i)) == i + 1
  {
  }

  /** Progress points strictly increase, and for a non-empty import they end at the last row. */
  lemma PointsMeaning(n: nat, j: nat)
    requires j < Chunks(n)
    ensures 25 * (Chunks(n) - 1) < n <= 25 * Chunks(n)
    ensures Point(n, j) == if 25 * (j + 1) < n then 25 * (j + 1) else n
    ensures 0 < Point(n, j) <= n && IsPoint(n, Point(n, j))
    ensures j + 1 < Chunks(n) ==> Point(n, j) < Point(n, j + 1)
    ensures j + 1 == Chunks(n) <==> Point(n, j) == n
  {
  }

  // ---- One delivery ----------------------------------------------------------

  datatype State = State(db: Roster, jobs: map<nat, Job>, frames: seq<Frame>)

  /**
   * `process` touches the job table and the broadcaster in a fixed order: the first job
   * update, then an update and a broadcast per progress point, then the final update and
   * the final broadcast. `budget` is how many of these succeed before one throws.
   */
  function Operations(n: nat): nat { 2 * Chunks(n) + 3 }

  /** Rows whose transactions have committed when the operation after `budget` others throws. */
  function CommittedRows(n: nat, budget: nat): nat {
    if budget == 0 then 0 else Point(n, (budget - 1) / 2)
  }

  function JobAfter(job: Job, n: nat, budget: nat, report: seq<RowResult>): Job {
    if budget == 0 then job
    else if budget < Operations(n) - 1 then
      job.(status := PROCESSING, processedRows := Min(CHUNK_SIZE * (budget / 2), n))
    else job.(status := COMPLETED, processedRows := n, report := RowReport(report))
  }

  function ProgressFrames(db: Roster, p: Payload, faults: set<nat>, count: nat): seq<Frame> {
    seq(count, (j: nat) =>
      var at := Point(|p.rows|, j);
      Progress(p.jobId, |p.rows|, at, TallyAll(ReportTo(db, p.course, p.rows, faults, at))))
  }

  function FramesAfter(db: Roster, p: Payload, faults: set<nat>, budget: nat): seq<Frame> {
    var n := |p.rows|;
    var report := ReportTo(db, p.course, p.rows, faults, n);
    ProgressFrames(db, p, faults, if budget == 0 then 0 else Min(Chunks(n), (budget - 1) / 2))
    + if budget < Operations(n) then [] else [Completed(p.jobId, n, TallyAll(report), report)]
  }

  function Processed(s: State, p: Payload, faults: set<nat>, budget: nat): State
    requires p.jobId in s.jobs
  {
    var n := |p.rows|;
    State(RunTo(s.db, p.course, p.rows, faults, CommittedRows(n, budget)),
          s.jobs[p.jobId := JobAfter(s.jobs[p.jobId], n, budget, ReportTo(s.db, p.course, p.rows, faults, n))],
          s.frames + FramesAfter(s.db, p, faults, budget))
  }

  lemma ReportStart(db: Roster, course: nat, rows: seq<ImportRow>, faults: set<nat>)
    ensures ReportTo(db, course, rows, faults, 0) == []
  {
  }

  lemma ReportStep(db: Roster, course: nat, rows: seq<ImportRow>, faults: set<nat>, i: nat)
    requires i < |rows|
    ensures var report := ReportTo(db, course, rows, faults, i);
      var result := ResultOf(i, rows[i], RowOutcome(db, course, rows, faults, i));
      && ReportTo(db, course, rows, faults, i + 1) == report + [result]
      && TallyAll(report + [result]) == Bump(TallyAll(report), result.status)
  {
    hide Tally, RunTo, RowStep, Resolve, RowOutcome, TallyAll, Bump, ResultOf;
    TallyStep(ReportTo(db, course, rows, faults, i), ResultOf(i, rows[i], RowOutcome(db, course, rows, faults, i)));
  }

  lemma TallyStep(report: seq<RowResult>, result: RowResult)
    ensures TallyAll(report + [result]) == Bump(TallyAll(report), result.status)
  {
    assert (report + [result])[..|report|] == report;
  }

  lemma FramesStep(db: Roster, p: Payload, faults: set<nat>, j: nat)
    ensures var n, at := |p.rows|, Point(|p.rows|, j);
      ProgressFrames(db, p, faults, j + 1) == ProgressFrames(db, p, faults, j)
        + [Progress(p.jobId, n, at, TallyAll(ReportTo(db, p.course, p.rows, faults, at)))]
  {
    hide TallyAll, ReportTo, Point;
  }

  /** The state of `process` after `i` rows, with `points` progress updates and `sent` progress frames made. */
  ghost predicate Midway(start: State, now: State, p: Payload, faults: set<nat>, i: nat, points: nat, sent: nat) {
    && i <= |p.rows| && p.jobId in start.jobs
    && now.db == RunTo(start.db, p.course, p.rows, faults, i)
    && now.jobs == start.jobs[p.jobId :=
         start.jobs[p.jobId].(status := PROCESSING, processedRows := Min(CHUNK_SIZE * points, |p.rows|))]
    && now.frames == start.frames + ProgressFrames(start.db, p, faults, sent)
  }

  /** The effect of a progress write of which the first `budget` operations succeed. */
  function Saved(s: State, p: Payload, processed: nat, counts: Counts, budget: nat): State
    requires p.jobId in s.jobs
  {
    State(s.db,
          if budget == 0 then s.jobs else s.jobs[p.jobId := s.jobs[p.jobId].(processedRows := processed)],
          if budget < 2 then s.frames else s.frames + [Progress(p.jobId, |p.rows|, processed, counts)])
  }

  lemma SavedMidway(start: State, now: State, p: Payload, faults: set<nat>, j: nat, budget: nat)
    requires j < Chunks(|p.rows|) && Midway(start, now, p, faults, Point(|p.rows|, j), j, j)
    ensures var at := Point(|p.rows|, j);
      var saved := Saved(now, p, at, TallyAll(ReportTo(start.db, p.course, p.rows, faults, at)), budget);
      Midway(start, saved, p, faults, at,
             if budget == 0 then j else j + 1, if budget < 2 then j else j + 1)
  {
    FramesStep(start.db, p, faults, j);
  }

  lemma RowMidway(start: State, now: State, p: Payload, faults: set<nat>, i: nat, j: nat)
    requires i < |p.rows| && Midway(start, now, p, faults, i, j, j)
    ensures Midway(start, now.(db := RowStep(now.db, p.course, p.rows[i], i in faults).0), p, faults, i + 1, j, j)
    ensures RowStep(now.db, p.course, p.rows[i], i in faults).1 == RowOutcome(start.db, p.course, p.rows, faults, i)
  {
  }

  /** Stopping at the update or at the broadcast of a progress point gives the closed form. */
  lemma StoppedAtPoint(start: State, now: State, p: Payload, faults: set<nat>, j: nat, left: nat)
    requires j < Chunks(|p.rows|) && left < 2 && Midway(start, now, p, faults, Point(|p.rows|, j), j, j)
    ensures var at := Point(|p.rows|, j);
      Saved(now, p, at, TallyAll(ReportTo(start.db, p.course, p.rows, faults, at)), left)
      == Processed(start, p, faults, 1 + 2 * j + left)
    ensures 1 + 2 * j + left < Operations(|p.rows|)
  {
    hide RunTo;
    BudgetAtPoint(|p.rows|, j, left);
    NoFinalFrame(start.db, p, faults, j, left);
    JobAtPoint(start.jobs[p.jobId], |p.rows|, j, left, ReportTo(start.db, p.course, p.rows, faults, |p.rows|));
  }

  lemma BudgetAtPoint(n: nat, j: nat, left: nat)
    requires j < Chunks(n) && left < 2
    ensures var budget := 1 + 2 * j + left;
      && budget < Operations(n) - 1 && (budget - 1) / 2 == j && budget / 2 == j + left
      && CommittedRows(n, budget) == Point(n, j)
  {
  }

  lemma NoFinalFrame(db: Roster, p: Payload, faults: set<nat>, j: nat, left: nat)
    requires j < Chunks(|p.rows|) && left < 2
    ensures FramesAfter(db, p, faults, 1 + 2 * j + left) == ProgressFrames(db, p, faults, j)
  {
    BudgetAtPoint(|p.rows|, j, left);
  }

  lemma JobAtPoint(job: Job, n: nat, j: nat, left: nat, report: seq<RowResult>)
    requires j < Chunks(n) && left < 2
    ensures JobAfter(job, n, 1 + 2 * j + left, report)
         == job.(status := PROCESSING, processedRows := Min(CHUNK_SIZE * (j + left), n))
  {
    BudgetAtPoint(n, j, left);
  }

  /** So does stopping at the final update, and so does making all of them. */
  lemma StoppedAfterRows(start: State, now: State, p: Payload, faults: set<nat>, budget: nat)
    requires budget >= 2 * Chunks(|p.rows|) + 1
    requires Midway(start, now, p, faults, |p.rows|, Chunks(|p.rows|), Chunks(|p.rows|))
    ensures var n := |p.rows|;
      var report := ReportTo(start.db, p.course, p.rows, faults, n);
      var job := now.jobs[p.jobId].(status := COMPLETED, processedRows := n, report := RowReport(report));
      var saved := now.(jobs := now.jobs[p.jobId := job]);
      Processed(start, p, faults, budget) ==
        if budget == Operations(n) - 2 then now
        else if budget == Operations(n) - 1 then saved
        else saved.(frames := now.frames + [Completed(p.jobId, n, TallyAll(report), report)])
  {
    var n := |p.rows|;
    assert Min(CHUNK_SIZE * Chunks(n), n) == n && CommittedRows(n, budget) == n;
    assert Min(Chunks(n), (budget - 1) / 2) == Chunks(n);
    if budget == Operations(n) - 2 {
      assert budget / 2 == Chunks(n);
    }
    var done := Processed(start, p, faults, budget);
    assert done.jobs == start.jobs[p.jobId := done.jobs[p.jobId]];
  }

  /** How far `markFailed` gets. */
  datatype Mark = UpdateThrows | BroadcastThrows | Marked

  function MarkedFailed(s: State, p: Payload, mark: Mark): State {
    if mark.UpdateThrows? || p.jobId !in s.jobs then s
    else
      var job := s.jobs[p.jobId].(status := FAILED, report := ErrorReport);
      State(s.db, s.jobs[p.jobId := job],
            s.frames + if mark.Marked? then [FailedFrame(p.jobId, |p.rows|, job.processedRows)] else [])
  }

  predicate Finished(job: Job) { job.status == COMPLETED || job.status == FAILED }

  /** What fails during one delivery: row transactions, the job lookup, `process`, `markFailed`. */
  datatype Env = Env(faults: set<nat>, lookupThrows: bool, budget: nat, mark: Mark)

  /** A message body: not JSON, the JSON text `null`, an object without `rows`, or a request. */
  datatype Body = Unparsable | Null | NoRows(jobId: nat) | Request(payload: Payload)

  /** The state after a delivery. Without `rows`, even marking the job as failed throws. */
  function Handled(s: State, msg: Body, env: Env): State {
    match msg
    case Request(p) =>
      if env.lookupThrows then MarkedFailed(s, p, env.mark)
      else if p.jobId !in s.jobs || Finished(s.jobs[p.jobId]) then s
      else
        var s' := Processed(s, p, env.faults, env.budget);
        if env.budget < Operations(|p.rows|) then MarkedFailed(s', p, env.mark) else s'
    case _ => s
  }

  /** Whether the delivery is acknowledged; one that is not comes back when the channel closes. */
  predicate Acknowledged(s: State, msg: Body, env: Env) {
    match msg
    case Null => false
    case NoRows(jobId) => !env.lookupThrows && (jobId !in s.jobs || Finished(s.jobs[jobId]))
    case _ => true
  }

  class BulkImportConsumer {
    const db: Database
    var jobs: map<nat, Job>
    var frames: seq<Frame>
    var acked: nat

    function Contents(): State
      reads this, db
    {
      State(db.Contents(), jobs, frames)
    }

    constructor (db: Database, jobs: map<nat, Job>)
      ensures this.db == db && this.jobs == jobs && frames == [] && acked == 0
    {
      this.db, this.jobs, this.frames, this.acked := db, jobs, [], 0;
    }

    method Handle(msg: Body, env: Env)
      modifies this, db
      ensures acked == old(acked) + if Acknowledged(old(Contents()), msg, env) then 1 else 0
      ensures Contents() == Handled(old(Contents()), msg, env)
    {
      if msg.Null? { return; }
      if msg.Unparsable? { acked := acked + 1; return; }
      var jobId := if msg.NoRows? then msg.jobId else msg.payload.jobId;
      if !env.lookupThrows {
        if jobId !in jobs || jobs[jobId].status == COMPLETED || jobs[jobId].status == FAILED {
          acked := acked + 1;
          return;
        }
      }
      if msg.NoRows? { return; }
      if !env.lookupThrows {
        var ok := Process(msg.payload, env.faults, env.budget);
        if ok { acked := acked + 1; return; }
      }
      MarkFailed(msg.payload, env.mark);
      acked := acked + 1;
    }

    method Process(p: Payload, faults: set<nat>, budget: nat) returns (ok: bool)
      requires p.jobId in jobs
      modifies this`jobs, this`frames, db
      ensures Contents() == Processed(old(Contents()), p, faults, budget)
      ensures ok <==> budget >= Operations(|p.rows|)
    {
      ghost var start := Contents();
      if budget == 0 { return false; }
      jobs := jobs[p.jobId := jobs[p.jobId].(status := PROCESSING, processedRows := 0)];
      var left, counts, report;
      ok, left, counts, report := ProcessRows(p, faults, budget, start);
      if !ok { return; }

      StoppedAfterRows(start, Contents(), p, faults, budget);
      if left == 0 { return false; }
      jobs := jobs[p.jobId :=
        jobs[p.jobId].(status := COMPLETED, processedRows := |p.rows|, report := RowReport(report))];
      if left == 1 { return false; }
      frames := frames + [Completed(p.jobId, |p.rows|, counts, report)];
    }

    /** The row loop; `left` counts the operations that may still succeed. */
    method ProcessRows(p: Payload, faults: set<nat>, budget: nat, ghost start: State)
      returns (ok: bool, left: nat, counts: Counts, report: seq<RowResult>)
      requires budget > 0 && Midway(start, Contents(), p, faults, 0, 0, 0)
      modifies this`jobs, this`frames, db
      ensures ok <==> budget >= 2 * Chunks(|p.rows|) + 1
      ensures ok ==>
        && Midway(start, Contents(), p, faults, |p.rows|, Chunks(|p.rows|), Chunks(|p.rows|))
        && left == budget - 2 * Chunks(|p.rows|) - 1
        && report == ReportTo(start.db, p.course, p.rows, faults, |p.rows|)
        && counts == TallyAll(report)
      ensures !ok ==> Contents() == Processed(start, p, faults, budget)
    {
      hide RunTo, RowStep, ReportTo, ProgressFrames, Processed;
      ReportStart(start.db, p.course, p.rows, faults);
      ok, left, counts, report := true, budget - 1, Counts(0, 0, 0, 0), [];
      var total := |p.rows|;
      for i := 0 to total
        invariant ok && left + 1 + 2 * PointsUpTo(total, i) == budget
        invariant Midway(start, Contents(), p, faults, i, PointsUpTo(total, i), PointsUpTo(total, i))
        invariant report == ReportTo(start.db, p.course, p.rows, faults, i)
        invariant counts == TallyAll(report)
      {
        ghost var before := Contents();
        RowMidway(start, before, p, faults, i, PointsUpTo(total, i));
        ReportStep(start.db, p.course, p.rows, faults, i);
        PointsStep(total, i);
        var outcome := ProcessRow(p.course, p.rows[i], i in faults);
        counts := Bump(counts, StatusOf(outcome));
        report := report + [ResultOf(i, p.rows[i], outcome)];
        var processed := i + 1;
        if processed % CHUNK_SIZE == 0 || processed == total {
          if left < 2 {
            StoppedAtPoint(start, Contents(), p, faults, PointsUpTo(total, i), left);
          } else {
            SavedMidway(start, Contents(), p, faults, PointsUpTo(total, i), left);
          }
          ok := SaveProgress(p, processed, counts, left);
          if !ok { return; }
          left := left - 2;
        }
      }
    }

    /** Persist, then broadcast, the progress made so far. */
    method SaveProgress(p: Payload, processed: nat, counts: Counts, budget: nat) returns (ok: bool)
      requires p.jobId in jobs
      modifies this`jobs, this`frames
      ensures ok <==> budget >= 2
      ensures Contents() == Saved(old(Contents()), p, processed, counts, budget)
    {
      if budget == 0 { return false; }
      jobs := jobs[p.jobId := jobs[p.jobId].(processedRows := processed)];
      if budget == 1 { return false; }
      frames := frames + [Progress(p.jobId, |p.rows|, processed, counts)];
      return true;
    }

    method ProcessRow(course: nat, row: ImportRow, fault: bool) returns (outcome: Outcome)
      modifies db
      ensures (db.Contents(), outcome) == RowStep(old(db.Contents()), course, row, fault)
    {
      if fault { return Err(DatabaseError); }
      outcome := db.ResolveAndLinkStudent(course, RowInput(row));
    }

    method MarkFailed(p: Payload, mark: Mark)
      modifies this`jobs, this`frames
      ensures Contents() == MarkedFailed(old(Contents()), p, mark)
      ensures jobs - {p.jobId} == old(jobs) - {p.jobId} && old(frames) <= frames
      ensures !mark.UpdateThrows? ==>
        forall env: Env | !env.lookupThrows :: Handled(Contents(), Request(p), env) == Contents()
    {
      if mark.UpdateThrows? || p.jobId !in jobs { return; }
      jobs := jobs[p.jobId := jobs[p.jobId].(status := FAILED, report := ErrorReport)];
      if mark.BroadcastThrows? { return; }
      frames := frames + [FailedFrame(p.jobId, |p.rows|, jobs[p.jobId].processedRows)];
    }
  }

  // ---- Bookkeeping of one delivery --------------------------------------------

  /** Every table change is accounted for by the report. */
  ghost predicate Accounted(db: Roster, db': Roster, course: nat, report: seq<RowResult>) {
    var c := TallyAll(report);
    && Integrity(db')
    && NewLinksHaveEvents(db, db', course)
    && |db'.students| == |db.students| + c.created
    && |db'.enrollments| == |db.enrollments| + c.created + c.enrolled
    && |report| == c.created + c.enrolled + c.already + c.failed
  }

  lemma {:induction false} ReportAccounts(db: Roster, course: nat, rows: seq<ImportRow>, faults: set<nat>, k: nat)
    requires Integrity(db) && k <= |rows|
    ensures Accounted(db, RunTo(db, course, rows, faults, k), course, ReportTo(db, course, rows, faults, k))
  {
    if k > 0 {
      ReportAccounts(db, course, rows, faults, k - 1);
      RowAccounts(db, RunTo(db, course, rows, faults, k - 1), course, rows[k - 1], k - 1 in faults,
                  ReportTo(db, course, rows, faults, k - 1), k - 1);
      ReportStep(db, course, rows, faults, k - 1);
    }
  }

  lemma RowAccounts(db: Roster, now: Roster, course: nat, row: ImportRow, fault: bool, report: seq<RowResult>, i: nat)
    requires Accounted(db, now, course, report)
    ensures var (after, outcome) := RowStep(now, course, row, fault);
      Accounted(db, after, course, report + [ResultOf(i, row, outcome)])
  {
    var (after, outcome) := RowStep(now, course, row, fault);
    hide Resolve, Tally;
    TallyStep(report, ResultOf(i, row, outcome));
    ResolveKeepsIntegrity(now, course, RowInput(row));
    if outcome.Ok? {
      ResolveMeaning(now, course, RowInput(row));
    }
  }

  // ---- What the report says --------------------------------------------------------

  /** The row's transaction succeeds on these tables. */
  ghost predicate Succeeds(db: Roster, row: ImportRow, fault: bool) {
    && !fault && HasText(Some(row.number))
    && (|| NumberKnown(db, Trim(row.number))
        || (HasText(row.fullName) && !(HasText(row.email) && EmailTakenBy(db, Trim(row.email.value)))))
  }

  /** A student with the row's number is on the course. */
  ghost predicate OnCourse(db: Roster, course: nat, row: ImportRow) {
    exists e | 0 <= e < |db.enrollments| ::
      && db.enrollments[e].course == course && db.enrollments[e].student < |db.students|
      && db.students[db.enrollments[e].student].number == Trim(row.number)
  }

  ghost predicate StudentAdded(db: Roster, db': Roster) { |db'.students| > |db.students| }

  ghost predicate LinkAdded(db: Roster, db': Roster) { |db'.enrollments| > |db.enrollments| }

  /** The line says what the row's transaction did to the tables, and why it failed if it did. */
  ghost predicate TellsTruth(db: Roster, db': Roster, course: nat, row: ImportRow, fault: bool, i: nat,
                             line: RowResult) {
    && line.row == i + 1 && line.number == row.number
    && (line.status == Created <==> StudentAdded(db, db'))
    && (line.status == Enrolled <==> LinkAdded(db, db') && !StudentAdded(db, db'))
    && (line.status == Already <==> Succeeds(db, row, fault) && OnCourse(db, course, row))
    && (line.status == Failed <==> !Succeeds(db, row, fault))
    && (line.error ==
          if Succeeds(db, row, fault) then None
          else if fault then Some(DatabaseError)
          else if !HasText(Some(row.number)) then Some(NumberRequired)
          else if !HasText(row.fullName) then Some(NameRequired)
          else Some(EmailTaken))
  }

  lemma LineTellsTruth(db: Roster, course: nat, row: ImportRow, fault: bool, i: nat)
    requires Integrity(db)
    ensures var (db', outcome) := RowStep(db, course, row, fault);
      TellsTruth(db, db', course, row, fault, i, ResultOf(i, row, outcome))
  {
    var (db', outcome) := RowStep(db, course, row, fault);
    if !fault {
      ResolveOutcome(db, course, RowInput(row));
      hide Resolve;
      if outcome.Ok? {
        ResolveMeaning(db, course, RowInput(row));
        ResolveKeepsIntegrity(db, course, RowInput(row));
        AlreadyMeansOnCourse(db, db', course, row, outcome.value);
      }
    }
  }

  lemma AlreadyMeansOnCourse(db: Roster, db': Roster, course: nat, row: ImportRow, r: Resolved)
    requires Integrity(db) && Integrity(db') && Extends(db, db')
    requires r.enrollment < |db'.enrollments|
    requires var s := db'.enrollments[r.enrollment].student;
      && s < |db'.students| && db'.students[s].number == Trim(row.number)
      && (r.alreadyEnrolled <==> Enrollment(course, s) in db.enrollments)
    ensures r.alreadyEnrolled <==> OnCourse(db, course, row)
  {
    hide Trim;
    var s := db'.enrollments[r.enrollment].student;
    if OnCourse(db, course, row) {
      var e :| && 0 <= e < |db.enrollments| && db.enrollments[e].course == course
               && db.enrollments[e].student < |db.students|
               && db.students[db.enrollments[e].student].number == Trim(row.number);
      assert db'.students[db.enrollments[e].student].number == db'.students[s].number;
      assert db.enrollments[e] == Enrollment(course, s);
    }
    if r.alreadyEnrolled {
      var e :| 0 <= e < |db.enrollments| && db.enrollments[e] == Enrollment(course, s);
      assert db.enrollments[e].student < |db.students|;
    }
  }

  /** How many of the first `k` rows ended that way. */
  ghost function LinesWith(report: seq<RowResult>, status: RowStatus, k: nat): set<nat>
    requires k <= |report|
  {
    set i | 0 <= i < k && report[i].status == status
  }

  lemma {:induction false} TallyCounts(report: seq<RowResult>, status: RowStatus, k: nat)
    requires k <= |report|
    ensures Tally(report[..k], status) == |LinesWith(report, status, k)|
  {
    if k > 0 {
      TallyCounts(report, status, k - 1);
      assert report[..k][..k - 1] == report[..k - 1];
      LinesGrow(report, status, k - 1);
      hide LinesWith;
    }
  }

  lemma LinesGrow(report: seq<RowResult>, status: RowStatus, k: nat)
    requires k < |report|
    ensures |LinesWith(report, status, k + 1)|
         == |LinesWith(report, status, k)| + if report[k].status == status then 1 else 0
  {
    var before := LinesWith(report, status, k);
    assert LinesWith(report, status, k + 1) == if report[k].status == status then before + {k} else before;
  }

  /** Each count is the number of lines among the first `k` that say so. */
  ghost predicate CountsLines(counts: Counts, report: seq<RowResult>, k: nat)
    requires k <= |report|
  {
    && counts.created == |LinesWith(report, Created, k)| && counts.enrolled == |LinesWith(report, Enrolled, k)|
    && counts.already == |LinesWith(report, Already, k)| && counts.failed == |LinesWith(report, Failed, k)|
  }

  lemma TallyAllCounts(report: seq<RowResult>, k: nat)
    requires k <= |report|
    ensures CountsLines(TallyAll(report[..k]), report, k)
  {
    hide Tally, LinesWith;
    TallyCounts(report, Created, k);
    TallyCounts(report, Enrolled, k);
    TallyCounts(report, Already, k);
    TallyCounts(report, Failed, k);
  }

  /** A report of the whole import, line by line. */
  ghost predicate ReportsTruly(db: Roster, p: Payload, faults: set<nat>, report: seq<RowResult>) {
    && |report| == |p.rows|
    && forall i | 0 <= i < |p.rows| ::
         TellsTruth(RunTo(db, p.course, p.rows, faults, i), RunTo(db, p.course, p.rows, faults, i + 1), p.course,
                    p.rows[i], i in faults, i, report[i])
  }

  lemma ReportTellsTruth(db: Roster, p: Payload, faults: set<nat>)
    requires Integrity(db)
    ensures ReportsTruly(db, p, faults, ReportTo(db, p.course, p.rows, faults, |p.rows|))
  {
    forall i | 0 <= i < |p.rows|
      ensures TellsTruth(RunTo(db, p.course, p.rows, faults, i), RunTo(db, p.course, p.rows, faults, i + 1), p.course,
                         p.rows[i], i in faults, i, ReportTo(db, p.course, p.rows, faults, |p.rows|)[i])
    {
      ReportAccounts(db, p.course, p.rows, faults, i);
      LineTellsTruth(RunTo(db, p.course, p.rows, faults, i), p.course, p.rows[i], i in faults, i);
      hide TellsTruth, RowStep, ResultOf;
    }
  }

  // ---- How a delivery ends ------------------------------------------------------------

  /** What one delivery may change: the job's status, progress and report, and the tables and frames. */
  ghost predicate OnlyThisJob(s: State, s': State, jobId: nat)
    requires jobId in s.jobs
  {
    && jobId in s'.jobs && s'.jobs - {jobId} == s.jobs - {jobId}
    && s'.jobs[jobId].totalRows == s.jobs[jobId].totalRows
    && s.frames <= s'.frames
  }

  /**
   * A delivery in which no job update and no broadcast fails completes the job. Its report
   * has one line per row, in order, that tells the truth about that row; the counts are the
   * numbers of such lines and account for every new student, link and event; one progress
   * frame per chunk counts the rows up to there.
   */
  lemma CompletedDelivery(s: State, p: Payload, env: Env)
    requires Integrity(s.db) && p.jobId in s.jobs && !Finished(s.jobs[p.jobId])
    requires !env.lookupThrows && env.budget >= Operations(|p.rows|)
    ensures var n, s' := |p.rows|, Handled(s, Request(p), env);
      && OnlyThisJob(s, s', p.jobId)
      && s'.jobs[p.jobId].status == COMPLETED && s'.jobs[p.jobId].processedRows == n
      && s'.jobs[p.jobId].report.RowReport?
      && var report := s'.jobs[p.jobId].report.results;
         && Accounted(s.db, s'.db, p.course, report)
         && |report| == n && ReportsTruly(s.db, p, env.faults, report)
         && |s'.frames| == |s.frames| + Chunks(n) + 1
         && IsFinalFrame(s'.frames[|s.frames| + Chunks(n)], p.jobId, n, report)
         && (forall j | 0 <= j < Chunks(n) ::
               IsProgressFrame(s'.frames[|s.frames| + j], p.jobId, n, Point(n, j), report))
  {
    var n := |p.rows|;
    hide *;
    CompletedState(s, p, env);
    ReportTellsTruth(s.db, p, env.faults);
    ReportAccounts(s.db, p.course, p.rows, env.faults, n);
    FinalFrame(s.db, p, env.faults);
    forall j | 0 <= j < Chunks(n)
      ensures IsProgressFrame(ProgressFrames(s.db, p, env.faults, Chunks(n))[j], p.jobId, n, Point(n, j),
                              ReportTo(s.db, p.course, p.rows, env.faults, n))
    {
      ProgressFrameAt(s.db, p, env.faults, j);
    }
  }

  /** A completed delivery in closed form. */
  lemma CompletedState(s: State, p: Payload, env: Env)
    requires p.jobId in s.jobs && !Finished(s.jobs[p.jobId])
    requires !env.lookupThrows && env.budget >= Operations(|p.rows|)
    ensures var n, s' := |p.rows|, Handled(s, Request(p), env);
      var report := ReportTo(s.db, p.course, p.rows, env.faults, n);
      && OnlyThisJob(s, s', p.jobId) && s'.db == RunTo(s.db, p.course, p.rows, env.faults, n)
      && s'.jobs[p.jobId].status == COMPLETED && s'.jobs[p.jobId].processedRows == n
      && s'.jobs[p.jobId].report == RowReport(report)
      && |ProgressFrames(s.db, p, env.faults, Chunks(n))| == Chunks(n)
      && s'.frames == s.frames + ProgressFrames(s.db, p, env.faults, Chunks(n))
                      + [Completed(p.jobId, n, TallyAll(report), report)]
  {
    hide RunTo, ReportTo, TallyAll;
    var n := |p.rows|;
    assert CommittedRows(n, env.budget) == n && Min(Chunks(n), (env.budget - 1) / 2) == Chunks(n);
    assert Handled(s, Request(p), env).jobs - {p.jobId} == s.jobs - {p.jobId};
  }

  ghost predicate IsFinalFrame(f: Frame, jobId: nat, n: nat, report: seq<RowResult>)
    requires n <= |report|
  {
    f.Completed? && f.job == jobId && f.total == n && f.report == report && CountsLines(f.counts, report, n)
  }

  ghost predicate IsProgressFrame(f: Frame, jobId: nat, n: nat, at: nat, report: seq<RowResult>) {
    && at <= |report| && f.Progress? && f.job == jobId && f.total == n && f.processed == at
    && CountsLines(f.counts, report, at)
  }

  lemma FinalFrame(db: Roster, p: Payload, faults: set<nat>)
    ensures var n, report := |p.rows|, ReportTo(db, p.course, p.rows, faults, |p.rows|);
      |report| == n && IsFinalFrame(Completed(p.jobId, n, TallyAll(report), report), p.jobId, n, report)
  {
    hide TallyAll, CountsLines;
    var report := ReportTo(db, p.course, p.rows, faults, |p.rows|);
    TallyAllCounts(report, |p.rows|);
    assert report[..|p.rows|] == report;
  }

  lemma ProgressFrameAt(db: Roster, p: Payload, faults: set<nat>, j: nat)
    requires j < Chunks(|p.rows|)
    ensures var n, frames := |p.rows|, ProgressFrames(db, p, faults, Chunks(|p.rows|));
      j < |frames| &&
      IsProgressFrame(frames[j], p.jobId, n, Point(n, j), ReportTo(db, p.course, p.rows, faults, n))
  {
    hide TallyAll, CountsLines, RunTo, RowOutcome, ResultOf;
    var report, at := ReportTo(db, p.course, p.rows, faults, |p.rows|), Point(|p.rows|, j);
    PointsMeaning(|p.rows|, j);
    assert ReportTo(db, p.course, p.rows, faults, at) == report[..at];
    TallyAllCounts(report, at);
  }

  /** Progress written before the operation after `budget` others throws. */
  function ProgressReached(job: Job, n: nat, budget: nat): nat {
    if budget == 0 then job.processedRows
    else if budget >= 2 * Chunks(n) + 2 || 25 * (budget / 2) > n then n
    else 25 * (budget / 2)
  }

  /** How far `markFailed` gets, from the state in which something threw. */
  ghost predicate Recorded(s: State, s': State, p: Payload, mark: Mark)
    requires p.jobId in s.jobs
  {
    && OnlyThisJob(s, s', p.jobId) && s'.db == s.db
    && s'.jobs[p.jobId].processedRows == s.jobs[p.jobId].processedRows
    && (if mark.UpdateThrows? then s'.jobs[p.jobId] == s.jobs[p.jobId]
        else s'.jobs[p.jobId].status == FAILED && s'.jobs[p.jobId].report == ErrorReport)
    && s'.frames
       == s.frames + if mark.Marked? then [FailedFrame(p.jobId, |p.rows|, s.jobs[p.jobId].processedRows)] else []
  }

  lemma MarkRecords(s: State, p: Payload, mark: Mark)
    requires p.jobId in s.jobs
    ensures Recorded(s, MarkedFailed(s, p, mark), p, mark)
  {
    assert MarkedFailed(s, p, mark).jobs - {p.jobId} == s.jobs - {p.jobId};
  }

  /**
   * A delivery that fails, in the lookup, in `process` or in the last broadcast: the job
   * reads FAILED with an error report if and only if that could be recorded, with the
   * progress made; and one frame says so, with the same number, if and only if it could be
   * broadcast too. Otherwise the job reads what `process` had last made of it.
   */
  lemma FailedDelivery(s: State, p: Payload, env: Env)
    requires p.jobId in s.jobs && (s.jobs[p.jobId].status == PENDING || s.jobs[p.jobId].status == PROCESSING)
    requires env.lookupThrows || env.budget < 2 * Chunks(|p.rows|) + 3
    ensures var n, job, s' := |p.rows|, s.jobs[p.jobId], Handled(s, Request(p), env);
      var progress := if env.lookupThrows then job.processedRows else ProgressReached(job, n, env.budget);
      var job' := s'.jobs[p.jobId];
      var point := if env.budget == 0 then 0 else Point(n, (env.budget - 1) / 2);
      var sent := if env.lookupThrows || env.budget == 0 then 0 else Min(Chunks(n), (env.budget - 1) / 2);
      && OnlyThisJob(s, s', p.jobId)
      && job'.processedRows == progress
      && (job'.status == FAILED <==> !env.mark.UpdateThrows?)
      && (job'.status == FAILED ==> job'.report == ErrorReport)
      && (job'.status != FAILED ==>
            job'.status ==
              if env.lookupThrows || env.budget == 0 then job.status
              else if env.budget == 2 * Chunks(n) + 2 then COMPLETED
              else PROCESSING)
      && s'.db == (if env.lookupThrows then s.db else RunTo(s.db, p.course, p.rows, env.faults, point))
      && |s'.frames| == |s.frames| + sent + (if env.mark.Marked? then 1 else 0)
      && (forall j | 0 <= j < sent ::
            IsProgressFrame(s'.frames[|s.frames| + j], p.jobId, n, Point(n, j),
                            ReportTo(s.db, p.course, p.rows, env.faults, n)))
      && (env.mark.Marked? ==> s'.frames[|s.frames| + sent] == FailedFrame(p.jobId, n, progress))
  {
    hide Handled, Processed, MarkedFailed, RunTo, ReportTo, ProgressFrames, IsProgressFrame, Finished, ProgressReached;
    hide Chunks, Point;
    FailureIsMarked(s, p, env);
    if env.lookupThrows {
      MarkRecords(s, p, env.mark);
    } else {
      var sent := ProcessCutOff(s, p, env.faults, env.budget);
      MarkRecords(Processed(s, p, env.faults, env.budget), p, env.mark);
      SentFrames(s.db, p, env.faults, sent);
    }
  }

  lemma FailureIsMarked(s: State, p: Payload, env: Env)
    requires p.jobId in s.jobs && (s.jobs[p.jobId].status == PENDING || s.jobs[p.jobId].status == PROCESSING)
    requires env.lookupThrows || env.budget < 2 * Chunks(|p.rows|) + 3
    ensures Handled(s, Request(p), env)
         == MarkedFailed(if env.lookupThrows then s else Processed(s, p, env.faults, env.budget), p, env.mark)
  {
    hide Processed, MarkedFailed, Chunks;
  }

  /** What `process` leaves when the operation after `budget` others throws. */
  lemma ProcessCutOff(s: State, p: Payload, faults: set<nat>, budget: nat) returns (sent: nat)
    requires p.jobId in s.jobs && budget < 2 * Chunks(|p.rows|) + 3
    ensures var n, job, s' := |p.rows|, s.jobs[p.jobId], Processed(s, p, faults, budget);
      && sent == (if budget == 0 then 0 else Min(Chunks(n), (budget - 1) / 2))
      && OnlyThisJob(s, s', p.jobId)
      && s'.jobs[p.jobId].processedRows == ProgressReached(job, n, budget)
      && s'.jobs[p.jobId].status == (if budget == 0 then job.status
                                     else if budget == 2 * Chunks(n) + 2 then COMPLETED
                                     else PROCESSING)
      && s'.db == RunTo(s.db, p.course, p.rows, faults, if budget == 0 then 0 else Point(n, (budget - 1) / 2))
      && s'.frames == s.frames + ProgressFrames(s.db, p, faults, sent)
  {
    hide RunTo, ReportTo, ProgressFrames, TallyAll;
    sent := if budget == 0 then 0 else Min(Chunks(|p.rows|), (budget - 1) / 2);
    var s' := Processed(s, p, faults, budget);
    assert s'.jobs - {p.jobId} == s.jobs - {p.jobId};
  }

  lemma SentFrames(db: Roster, p: Payload, faults: set<nat>, sent: nat)
    requires sent <= Chunks(|p.rows|)
    ensures var n, frames := |p.rows|, ProgressFrames(db, p, faults, sent);
      && |frames| == sent
      && forall j | 0 <= j < sent ::
           IsProgressFrame(frames[j], p.jobId, n, Point(n, j), ReportTo(db, p.course, p.rows, faults, n))
  {
    hide TallyAll, ReportTo, IsProgressFrame, Point, Chunks;
    forall j | 0 <= j < sent
      ensures IsProgressFrame(ProgressFrames(db, p, faults, sent)[j], p.jobId, |p.rows|, Point(|p.rows|, j),
                              ReportTo(db, p.course, p.rows, faults, |p.rows|))
    {
      ProgressFrameAt(db, p, faults, j);
      assert ProgressFrames(db, p, faults, sent)[j] == ProgressFrames(db, p, faults, Chunks(|p.rows|))[j];
    }
  }

  /**
   * An acknowledged delivery of a request never leaves its job unfinished while failures
   * can be recorded: it is COMPLETED exactly when lookup and processing all went through.
   */
  lemma NeverLeftUnfinished(s: State, p: Payload, env: Env)
    requires p.jobId in s.jobs && (s.jobs[p.jobId].status == PENDING || s.jobs[p.jobId].status == PROCESSING)
    requires !env.mark.UpdateThrows?
    ensures Acknowledged(s, Request(p), env)
    ensures Handled(s, Request(p), env).jobs[p.jobId].status ==
      if !env.lookupThrows && env.budget >= 2 * Chunks(|p.rows|) + 3 then COMPLETED else FAILED
  {
    hide RunTo, ReportTo, TallyAll, ProgressFrames;
  }

  /**
   * What a delivery ignores, and which ones come back: a body that is no request, an
   * unknown job and, with a working lookup, a finished one change nothing at all; and only
   * `null`, and a body without rows that would be processed or whose lookup throws, go
   * unacknowledged.
   */
  lemma IgnoredDeliveries(s: State, msg: Body, env: Env)
    ensures !msg.Request? ==> Handled(s, msg, env) == s
    ensures msg.Request? && msg.payload.jobId !in s.jobs ==> Handled(s, msg, env) == s
    ensures msg.Request? && msg.payload.jobId in s.jobs && !env.lookupThrows
      && (s.jobs[msg.payload.jobId].status == COMPLETED || s.jobs[msg.payload.jobId].status == FAILED)
      ==> Handled(s, msg, env) == s
    ensures !Acknowledged(s, msg, env) <==>
      || msg.Null?
      || (msg.NoRows?
          && (env.lookupThrows
              || (msg.jobId in s.jobs && s.jobs[msg.jobId].status != COMPLETED && s.jobs[msg.jobId].status != FAILED)))
  {
  }

  // ---- Any sequence of deliveries -----------------------------------------------

  /**
   * A delivery is either acknowledged, or cut off by a crash before its acknowledgement,
   * with `budget` operations done and `committed` row transactions committed.
   */
  datatype Delivery = Acked(env: Env) | Crash(budget: nat, committed: nat)

  /** A crash is somewhere in the order of rows and operations. */
  ghost predicate Possible(n: nat, d: Delivery) {
    match d
    case Acked(_) => true
    case Crash(budget, committed) => Min(CHUNK_SIZE * (budget / 2), n) <= committed <= CommittedRows(n, budget)
  }

  /** No row fails transiently. */
  predicate Faultless(d: Delivery) { d.Acked? ==> d.env.faults == {} }

  function Delivered(s: State, p: Payload, d: Delivery): State
    requires Possible(|p.rows|, d)
  {
    match d
    case Acked(env) => Handled(s, Request(p), env)
    case Crash(budget, committed) =>
      if p.jobId !in s.jobs || Finished(s.jobs[p.jobId]) then s
      else Processed(s, p, {}, budget).(db := RunTo(s.db, p.course, p.rows, {}, committed))
  }

  function After(s: State, p: Payload, ds: seq<Delivery>): State
    requires forall d | d in ds :: Possible(|p.rows|, d)
  {
    if ds == [] then s else Delivered(After(s, p, ds[..|ds| - 1]), p, ds[|ds| - 1])
  }

  /** The tables are those of an uninterrupted import cut after some row, and a completed job was not cut. */
  ghost predicate IsRunPrefix(db: Roster, s: State, p: Payload, m: nat) {
    && m <= |p.rows| && p.jobId in s.jobs
    && s.db == RunTo(db, p.course, p.rows, {}, m)
    && (s.jobs[p.jobId].status == COMPLETED ==> m == |p.rows|)
  }

  /**
   * Convergence: however often a message is redelivered after crashes or failures, the
   * roster is always that of a prefix of one uninterrupted import, and when the job reads
   * COMPLETED it is exactly the roster, links and events of the whole uninterrupted import.
   */
  lemma {:induction false} ImportConverges(s: State, p: Payload, ds: seq<Delivery>)
    requires p.jobId in s.jobs && !Finished(s.jobs[p.jobId])
    requires forall d | d in ds :: Possible(|p.rows|, d) && Faultless(d)
    ensures exists m :: IsRunPrefix(s.db, After(s, p, ds), p, m)
  {
    if ds == [] {
      assert IsRunPrefix(s.db, After(s, p, ds), p, 0);
    } else {
      hide RunTo, Delivered;
      var before := After(s, p, ds[..|ds| - 1]);
      ImportConverges(s, p, ds[..|ds| - 1]);
      var m :| IsRunPrefix(s.db, before, p, m);
      DeliveryExtendsPrefix(s.db, before, p, ds[|ds| - 1], m);
      var m' :| m <= m' && IsRunPrefix(s.db, Delivered(before, p, ds[|ds| - 1]), p, m');
      assert After(s, p, ds) == Delivered(before, p, ds[|ds| - 1]);
      assert IsRunPrefix(s.db, After(s, p, ds), p, m');
    }
  }

  /** The job reads COMPLETED only after every row's transaction. */
  lemma JobAfterMeaning(s: State, p: Payload, d: Delivery)
    requires p.jobId in s.jobs && Possible(|p.rows|, d) && Faultless(d)
    ensures var s' := Delivered(s, p, d);
      && p.jobId in s'.jobs
      && (s'.jobs[p.jobId].status == COMPLETED && s.jobs[p.jobId].status != COMPLETED ==>
            (if d.Crash? then d.committed else CommittedRows(|p.rows|, d.env.budget)) == |p.rows|
            && (d.Acked? ==> !d.env.lookupThrows))
      && (Finished(s.jobs[p.jobId]) || (d.Acked? && d.env.lookupThrows) ==> s'.db == s.db)
      && (!Finished(s.jobs[p.jobId]) && !(d.Acked? && d.env.lookupThrows) ==>
            var committed := if d.Crash? then d.committed else CommittedRows(|p.rows|, d.env.budget);
            s'.db == RunTo(s.db, p.course, p.rows, {}, committed))
  {
    hide RunTo, FramesAfter;
  }

  lemma DeliveryExtendsPrefix(db: Roster, s: State, p: Payload, d: Delivery, m: nat)
    requires IsRunPrefix(db, s, p, m) && Possible(|p.rows|, d) && Faultless(d)
    ensures exists m' :: m <= m' && IsRunPrefix(db, Delivered(s, p, d), p, m')
  {
    hide RunTo, JobAfter, FramesAfter, MarkedFailed;
    JobAfterMeaning(s, p, d);
    var n := |p.rows|;
    var k := if d.Crash? then d.committed else CommittedRows(n, d.env.budget);
    assert k <= n;
    var m' := if Finished(s.jobs[p.jobId]) || (d.Acked? && d.env.lookupThrows) || k <= m then m else k;
    RestartConverges(db, p.course, p.rows, m, k);
    assert IsRunPrefix(db, Delivered(s, p, d), p, m');
  }

  /** Once a job has finished, any number of further deliveries whose job lookup works change nothing at all. */
  lemma {:induction false} FinishedStaysFinished(s: State, p: Payload, ds: seq<Delivery>)
    requires p.jobId in s.jobs && Finished(s.jobs[p.jobId])
    requires forall d | d in ds :: Possible(|p.rows|, d) && (d.Acked? ==> !d.env.lookupThrows)
    ensures After(s, p, ds) == s
  {
    if ds != [] {
      FinishedStaysFinished(s, p, ds[..|ds| - 1]);
    }
  }

  /**
   * The lookup must work: when it throws, the consumer marks the job FAILED without
   * knowing its status. A completed job survives a delivery exactly when the lookup works
   * or the failure cannot be recorded either; its roster always survives.
   */
  lemma CompletedSurvivesIff(s: State, p: Payload, env: Env)
    requires p.jobId in s.jobs && s.jobs[p.jobId].status == COMPLETED
    ensures var s' := Handled(s, Request(p), env);
      && s'.db == s.db
      && (s'.jobs[p.jobId].status == COMPLETED <==> !env.lookupThrows || env.mark.UpdateThrows?)
  {
  }
}
