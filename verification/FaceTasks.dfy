/**
 * The face-task queues: a main queue, a delayed-retry queue that expires back into it, and
 * a dead-letter queue. A failed delivery is copied to the retry or dead queue and then
 * acknowledged; a crash in between redelivers the original.
 */
module FaceTasks {
  /** Whether a settled delivery finished its task or passed it on as a new message. */
  datatype Outcome = Finished | Moved

  /**
   * Where a message is. A delivery that has looked found its image not stored and is about
   * to insert it; a settled one still waits for its acknowledgement.
   */
  datatype Place = Main | Retry | InFlight | Looked | Settled(outcome: Outcome) | Dead | Gone(outcome: Outcome)

  datatype Message = Message(task: nat, attempts: nat, place: Place)

  /** The image's hash stands for the image. */
  datatype Task = Task(student: nat, hash: nat)

  /** Embeddings are rows of `face_embeddings`, reduced to what de-duplication looks at. */
  datatype State = State(tasks: seq<Task>, messages: seq<Message>, embeddings: seq<Task>)

  /** What the AI call and the look-up come to: one of them fails, no usable face, or an embedding. */
  datatype Extraction = Failure | NoUsableFace | Embedded

  /** How the insert goes; it may be stored and its reply lost. */
  datatype Insertion = Stored | ReplyLost | NotStored

  datatype Step =
    | Enqueue(task: Task)
    | Deliver(m: nat)
    | Handle(m: nat, result: Extraction)
    | Insert(m: nat, insertion: Insertion)
    | Ack(m: nat)
    | Crash(m: nat)
    | Expire(m: nat)

  predicate ExistsByHash(s: State, task: Task) { task in s.embeddings }

  /** Delivered and not yet acknowledged. */
  predicate AtConsumer(p: Place) { p.InFlight? || p.Looked? || p.Settled? }

  predicate Enabled(s: State, step: Step) {
    match step
    case Enqueue(_) => true
    case Deliver(m) => m < |s.messages| && s.messages[m].place == Main
    case Handle(m, _) => m < |s.messages| && s.messages[m].place == InFlight && s.messages[m].task < |s.tasks|
    case Insert(m, _) => m < |s.messages| && s.messages[m].place == Looked && s.messages[m].task < |s.tasks|
    case Ack(m) => m < |s.messages| && s.messages[m].place.Settled?
    case Crash(m) => m < |s.messages| && AtConsumer(s.messages[m].place)
    case Expire(m) => m < |s.messages| && s.messages[m].place == Retry
  }

  function Placed(s: State, m: nat, place: Place): State
    requires m < |s.messages|
  {
    s.(messages := s.messages[m := s.messages[m].(place := place)])
  }

  /** The copy a failed delivery leaves, in the retry queue or, at the cap, the dead one. */
  function Requeued(msg: Message, max: nat): Message {
    Message(msg.task, msg.attempts + 1, if msg.attempts + 1 >= max then Dead else Retry)
  }

  /** The delivery has failed: its copy is queued, its own acknowledgement is to come. */
  function PassedOn(s: State, m: nat, max: nat): State
    requires m < |s.messages|
  {
    var moved := Placed(s, m, Settled(Moved));
    moved.(messages := moved.messages + [Requeued(s.messages[m], max)])
  }

  function TaskOf(s: State, m: nat): Task
    requires m < |s.messages| && s.messages[m].task < |s.tasks|
  {
    s.tasks[s.messages[m].task]
  }

  function Next(s: State, step: Step, max: nat): State
    requires Enabled(s, step)
  {
    match step
    case Enqueue(task) => s.(tasks := s.tasks + [task], messages := s.messages + [Message(|s.tasks|, 0, Main)])
    case Deliver(m) => Placed(s, m, InFlight)
    case Handle(m, result) =>
      if result.Failure? then PassedOn(s, m, max)
      else if result.NoUsableFace? || ExistsByHash(s, TaskOf(s, m)) then Placed(s, m, Settled(Finished))
      else Placed(s, m, Looked)
    case Insert(m, insertion) =>
      var s' := if insertion.NotStored? then s else s.(embeddings := s.embeddings + [TaskOf(s, m)]);
      if insertion.Stored? then Placed(s', m, Settled(Finished)) else PassedOn(s', m, max)
    case Ack(m) => Placed(s, m, Gone(s.messages[m].place.outcome))
    case Crash(m) => Placed(s, m, Main)
    case Expire(m) => Placed(s, m, Main)
  }

  const EMPTY := State([], [], [])

  /** The state after the first `n` steps; a step that is not enabled does nothing. */
  ghost function Run(steps: seq<Step>, n: nat, max: nat): State
    requires n <= |steps|
  {
    if n == 0 then EMPTY
    else
      var s := Run(steps, n - 1, max);
      if Enabled(s, steps[n - 1]) then Next(s, steps[n - 1], max) else s
  }

  // ---- The consumer ---------------------------------------------------------------------

  /** The state once a delivery has been handled, all but its acknowledgement. */
  function Handled(s: State, m: nat, result: Extraction, insertion: Insertion, max: nat): State
    requires Enabled(s, Handle(m, result))
  {
    var handled := Next(s, Handle(m, result), max);
    if handled.messages[m].place.Looked? then Next(handled, Insert(m, insertion), max) else handled
  }

  class FaceTaskConsumer {
    const maxAttempts: nat
    var state: State

    constructor (maxAttempts: nat)
      ensures this.maxAttempts == maxAttempts && state == EMPTY
    {
      this.maxAttempts, state := maxAttempts, EMPTY;
    }

    /** `handle` for a delivered message, up to its acknowledgement or a crash just before it. */
    method HandleMessage(m: nat, result: Extraction, insertion: Insertion, crash: bool)
      requires Enabled(state, Handle(m, result))
      modifies this`state
      ensures var handled := Handled(old(state), m, result, insertion, maxAttempts);
        && Enabled(handled, if crash then Crash(m) else Ack(m))
        && state == Next(handled, if crash then Crash(m) else Ack(m), maxAttempts)
    {
      hide Handled, Requeued;
      Settle(m, result, insertion);
      var msg := state.messages[m];
      state := state.(messages := state.messages[m := msg.(place := if crash then Main else Gone(msg.place.outcome))]);
    }

    /** All of `handle` but the acknowledgement. */
    method Settle(m: nat, result: Extraction, insertion: Insertion)
      requires Enabled(state, Handle(m, result))
      modifies this`state
      ensures state == Handled(old(state), m, result, insertion, maxAttempts)
      ensures m < |state.messages| && state.messages[m].place.Settled?
    {
      var msg := state.messages[m];
      var ok := Process(state.tasks[msg.task], result, insertion);
      if ok {
        state := state.(messages := state.messages[m := msg.(place := Settled(Finished))]);
      } else {
        var next := msg.attempts + 1;
        var copy := Message(msg.task, next, if next >= maxAttempts then Dead else Retry);
        state := state.(messages := state.messages[m := msg.(place := Settled(Moved))] + [copy]);
      }
    }

    /** `process`: store the embedding unless there is none or it is already stored; false if a call throws. */
    method Process(task: Task, result: Extraction, insertion: Insertion) returns (ok: bool)
      modifies this`state
      ensures var inserts := result.Embedded? && !ExistsByHash(old(state), task);
        && (ok <==> !result.Failure? && (inserts ==> insertion.Stored?))
        && state == if inserts && !insertion.NotStored?
             then old(state).(embeddings := old(state).embeddings + [task]) else old(state)
    {
      if result.Failure? { return false; }
      if result.NoUsableFace? { return true; }
      if ExistsByHash(state, task) { return true; }
      if !insertion.NotStored? { state := state.(embeddings := state.embeddings + [task]); }
      return insertion.Stored?;
    }
  }

  /**
   * What handling a delivery comes to. The image is stored exactly when there is an
   * embedding, no stored one is of this student and image, and the insert arrives. A failed
   * call anywhere leaves a copy of the message with one more attempt, in the retry queue or,
   * at the cap, in the dead one; otherwise the task is finished.
   */
  lemma DeliveryMeaning(s: State, m: nat, result: Extraction, insertion: Insertion, max: nat)
    requires m < |s.messages| && s.messages[m].place == InFlight && s.messages[m].task < |s.tasks|
    ensures var msg, task := s.messages[m], s.tasks[s.messages[m].task];
      var found := exists k | 0 <= k < |s.embeddings| ::
        s.embeddings[k].student == task.student && s.embeddings[k].hash == task.hash;
      var failed := result == Failure || (result == Embedded && !found && insertion != Stored);
      var s' := Handled(s, m, result, insertion, max);
      && s'.tasks == s.tasks
      && s'.embeddings
         == s.embeddings + (if result == Embedded && !found && insertion != NotStored then [task] else [])
      && |s'.messages| == |s.messages| + (if failed then 1 else 0)
      && (forall k | 0 <= k < |s.messages| && k != m :: s'.messages[k] == s.messages[k])
      && s'.messages[m] == Message(msg.task, msg.attempts, Settled(if failed then Moved else Finished))
      && (failed ==> s'.messages[|s.messages|]
                       == Message(msg.task, msg.attempts + 1, if msg.attempts + 1 >= max then Dead else Retry))
  {
    var task := s.tasks[s.messages[m].task];
    if k: nat :| k < |s.embeddings| && s.embeddings[k].student == task.student && s.embeddings[k].hash == task.hash {
      assert s.embeddings[k] == task;
    }
  }

  // ---- The life of a message ---------------------------------------------------------------

  /** How a message may move in one step: from the retry queue only by expiring, and from the dead one never. */
  predicate Moves(from: Place, to: Place, step: Step, m: nat) {
    match from
    case Main => to == InFlight && step == Deliver(m)
    case Retry => to == Main && step == Expire(m)
    case InFlight =>
      if to == Main then step == Crash(m) else step.Handle? && step.m == m && (to.Looked? || to.Settled?)
    case Looked => if to == Main then step == Crash(m) else step.Insert? && step.m == m && to.Settled?
    case Settled(outcome) => if to == Main then step == Crash(m) else step == Ack(m) && to == Gone(outcome)
    case Dead => false
    case Gone(_) => false
  }

  /** Messages never change task or attempts; a new one is a new task's, or a copy that waits. */
  lemma MessageMoves(s: State, step: Step, max: nat)
    requires Enabled(s, step)
    ensures var s' := Next(s, step, max);
      && |s.messages| <= |s'.messages| <= |s.messages| + 1
      && (forall m | 0 <= m < |s.messages| ::
            && s'.messages[m].task == s.messages[m].task && s'.messages[m].attempts == s.messages[m].attempts
            && (s'.messages[m].place == s.messages[m].place
                || Moves(s.messages[m].place, s'.messages[m].place, step, m)))
      && (|s'.messages| > |s.messages| ==>
            var added := s'.messages[|s.messages|];
            if step.Enqueue? then added == Message(|s.tasks|, 0, Main) && s'.tasks == s.tasks + [step.task]
            else added.attempts >= 1 && (added.place == Retry || added.place == Dead))
  {
  }

  /** The message's delay was over at one of the first `n` steps. */
  ghost predicate Delayed(steps: seq<Step>, n: nat, m: nat, max: nat)
    requires n <= |steps|
  {
    exists j | 0 <= j < n :: steps[j] == Expire(m) && Enabled(Run(steps, j, max), steps[j])
  }

  lemma DelayedLater(steps: seq<Step>, n: nat, m: nat, max: nat)
    requires n < |steps| && Delayed(steps, n, m, max)
    ensures Delayed(steps, n + 1, m, max)
  {
    hide Run, Enabled;
  }

  /**
   * No retry comes at once: in every run a message that is not a task's first has either
   * waited out its delay, or is still in the retry queue, or is dead.
   */
  lemma {:induction false} RetriesWait(steps: seq<Step>, n: nat, m: nat, max: nat)
    requires n <= |steps| && m < |Run(steps, n, max).messages|
    ensures var msg := Run(steps, n, max).messages[m];
      msg.attempts == 0 || msg.place == Retry || msg.place == Dead || Delayed(steps, n, m, max)
  {
    hide Next, Enabled;
    var s, step := Run(steps, n - 1, max), steps[n - 1];
    if Enabled(s, step) { MessageMoves(s, step, max); }
    if m < |s.messages| {
      RetriesWait(steps, n - 1, m, max);
      if Delayed(steps, n - 1, m, max) { DelayedLater(steps, n - 1, m, max); }
    }
  }

  // ---- Sums over messages ------------------------------------------------------------------

  function Total(ms: seq<Message>, w: Message -> int): int {
    if ms == [] then 0 else Total(ms[..|ms| - 1], w) + w(ms[|ms| - 1])
  }

  lemma {:induction false} TotalUpdate(ms: seq<Message>, m: nat, msg: Message, w: Message -> int)
    requires m < |ms|
    ensures Total(ms[m := msg], w) == Total(ms, w) - w(ms[m]) + w(msg)
  {
    var n := |ms| - 1;
    if m == n {
      assert ms[m := msg][..n] == ms[..n];
    } else {
      assert ms[m := msg][..n] == ms[..n][m := msg];
      TotalUpdate(ms[..n], m, msg, w);
    }
  }

  lemma TotalAppend(ms: seq<Message>, msg: Message, w: Message -> int)
    ensures Total(ms + [msg], w) == Total(ms, w) + w(msg)
  {
    assert (ms + [msg])[..|ms|] == ms;
  }

  function PassingOn(msg: Message, max: nat, w: Message -> int): int {
    w(msg.(place := Settled(Moved))) + w(Requeued(msg, max)) - w(msg)
  }

  lemma PassedOnChange(s: State, m: nat, max: nat, w: Message -> int)
    requires m < |s.messages|
    ensures Total(PassedOn(s, m, max).messages, w) == Total(s.messages, w) + PassingOn(s.messages[m], max, w)
  {
    TotalUpdate(s.messages, m, s.messages[m].(place := Settled(Moved)), w);
    TotalAppend(s.messages[m := s.messages[m].(place := Settled(Moved))], Requeued(s.messages[m], max), w);
    hide Total;
  }

  /** How one enabled step changes any sum over the messages. */
  function Change(s: State, step: Step, max: nat, w: Message -> int): int
    requires Enabled(s, step)
  {
    match step
    case Enqueue(_) => w(Message(|s.tasks|, 0, Main))
    case Deliver(m) => w(s.messages[m].(place := InFlight)) - w(s.messages[m])
    case Handle(m, result) =>
      if result.Failure? then PassingOn(s.messages[m], max, w)
      else if result.NoUsableFace? || ExistsByHash(s, TaskOf(s, m)) then
        w(s.messages[m].(place := Settled(Finished))) - w(s.messages[m])
      else w(s.messages[m].(place := Looked)) - w(s.messages[m])
    case Insert(m, insertion) =>
      if insertion.Stored? then w(s.messages[m].(place := Settled(Finished))) - w(s.messages[m])
      else PassingOn(s.messages[m], max, w)
    case Ack(m) => w(s.messages[m].(place := Gone(s.messages[m].place.outcome))) - w(s.messages[m])
    case Crash(m) => w(s.messages[m].(place := Main)) - w(s.messages[m])
    case Expire(m) => w(s.messages[m].(place := Main)) - w(s.messages[m])
  }

  lemma StepChange(s: State, step: Step, max: nat, w: Message -> int)
    requires Enabled(s, step)
    ensures Total(Next(s, step, max).messages, w) == Total(s.messages, w) + Change(s, step, max, w)
  {
    hide Total;
    match step
    case Enqueue(_) => TotalAppend(s.messages, Message(|s.tasks|, 0, Main), w);
    case Deliver(m) => TotalUpdate(s.messages, m, s.messages[m].(place := InFlight), w);
    case Handle(m, result) =>
      if result.Failure? {
        PassedOnChange(s, m, max, w);
      } else {
        TotalUpdate(s.messages, m, s.messages[m].(place := Settled(Finished)), w);
        TotalUpdate(s.messages, m, s.messages[m].(place := Looked), w);
      }
    case Insert(m, insertion) =>
      PassedOnChange(if insertion.NotStored? then s else s.(embeddings := s.embeddings + [TaskOf(s, m)]), m, max, w);
      TotalUpdate(s.messages, m, s.messages[m].(place := Settled(Finished)), w);
    case Ack(m) => TotalUpdate(s.messages, m, s.messages[m].(place := Gone(s.messages[m].place.outcome)), w);
    case Crash(m) => TotalUpdate(s.messages, m, s.messages[m].(place := Main), w);
    case Expire(m) => TotalUpdate(s.messages, m, s.messages[m].(place := Main), w);
  }

  // ---- Attempts --------------------------------------------------------------------------------

  ghost predicate Inv(s: State, max: nat) {
    forall m | 0 <= m < |s.messages| ::
      && s.messages[m].task < |s.tasks|
      && if s.messages[m].place == Dead then s.messages[m].attempts == max else s.messages[m].attempts < max
  }

  /**
   * In every run, every message outside the dead queue has attempts left, and every dead
   * one has used exactly the maximum.
   */
  lemma {:induction false} AttemptsBounded(steps: seq<Step>, n: nat, max: nat)
    requires n <= |steps| && max >= 1
    ensures Inv(Run(steps, n, max), max)
  {
    if n > 0 {
      AttemptsBounded(steps, n - 1, max);
      var s := Run(steps, n - 1, max);
      if Enabled(s, steps[n - 1]) { StepKeepsInv(s, steps[n - 1], max); }
      hide Inv, Next, Enabled;
    }
  }

  lemma StepKeepsInv(s: State, step: Step, max: nat)
    requires max >= 1 && Inv(s, max) && Enabled(s, step)
    ensures Inv(Next(s, step, max), max)
  {
  }

  // ---- Conservation ---------------------------------------------------------------------------

  /** The message still stands for its task: it was not passed on as another message. */
  predicate Counts(msg: Message, task: nat) {
    msg.task == task && msg.place != Settled(Moved) && msg.place != Gone(Moved)
  }

  function CopyOf(task: nat): Message -> int { msg => if Counts(msg, task) then 1 else 0 }

  /** Crashes that hit a delivery of this task between re-queue and acknowledgement. */
  ghost function Duplications(steps: seq<Step>, n: nat, max: nat, task: nat): nat
    requires n <= |steps|
  {
    if n == 0 then 0
    else
      var s, step := Run(steps, n - 1, max), steps[n - 1];
      var duplicates := && Enabled(s, step) && step.Crash?
                        && s.messages[step.m].place == Settled(Moved) && s.messages[step.m].task == task;
      Duplications(steps, n - 1, max, task) + if duplicates then 1 else 0
  }

  lemma CopyStep(s: State, step: Step, task: nat, max: nat)
    requires Inv(s, max) && Enabled(s, step)
    ensures Change(s, step, max, CopyOf(task)) ==
      if step.Enqueue? then (if task == |s.tasks| then 1 else 0)
      else if step.Crash? && s.messages[step.m].place == Settled(Moved) && s.messages[step.m].task == task then 1 else 0
    ensures |Next(s, step, max).tasks| == |s.tasks| + if step.Enqueue? then 1 else 0
  {
    if !step.Enqueue? {
      var p := s.messages[step.m].place;
      assert p.Settled? ==> p.outcome.Finished? || p.outcome.Moved?;
    }
  }

  /**
   * Conservation: in every run each task has exactly one copy (queued, in flight, dead or
   * finished) plus one for each crash between its re-queue and its acknowledgement. So none
   * is ever lost, and without such crashes none is duplicated.
   */
  lemma {:induction false} CopiesConserved(steps: seq<Step>, n: nat, max: nat, task: nat)
    requires n <= |steps| && max >= 1
    ensures var s := Run(steps, n, max);
      Total(s.messages, CopyOf(task)) == if task < |s.tasks| then 1 + Duplications(steps, n, max, task) else 0
    ensures task >= |Run(steps, n, max).tasks| ==> Duplications(steps, n, max, task) == 0
  {
    TotalOfNone(CopyOf(task));
    hide Total, Change, Next, Counts;
    if n > 0 {
      CopiesConserved(steps, n - 1, max, task);
      AttemptsBounded(steps, n - 1, max);
      var s, step := Run(steps, n - 1, max), steps[n - 1];
      if Enabled(s, step) {
        StepChange(s, step, max, CopyOf(task));
        CopyStep(s, step, task, max);
        CrashedTaskExists(s, step, max);
      }
      hide Enabled, Inv;
    }
  }

  lemma TotalOfNone(w: Message -> int)
    ensures Total([], w) == 0
  {
  }

  lemma CrashedTaskExists(s: State, step: Step, max: nat)
    requires Inv(s, max) && Enabled(s, step)
    ensures !step.Enqueue? ==> s.messages[step.m].task < |s.tasks|
  {
  }

  /** Nothing is left to deliver, handle, acknowledge or expire. */
  ghost predicate Quiet(s: State) {
    forall m | 0 <= m < |s.messages| :: s.messages[m].place == Dead || s.messages[m].place.Gone?
  }

  function EndOf(task: nat): Message -> int {
    (msg: Message) => if msg.task == task && (msg.place == Dead || msg.place == Gone(Finished)) then 1 else 0
  }

  lemma {:induction false} QuietCopiesAreEnds(ms: seq<Message>, task: nat)
    requires forall m | 0 <= m < |ms| :: ms[m].place == Dead || ms[m].place.Gone?
    ensures Total(ms, CopyOf(task)) == Total(ms, EndOf(task))
  {
    if ms != [] {
      QuietCopiesAreEnds(ms[..|ms| - 1], task);
      var last := ms[|ms| - 1];
      assert last.place.Gone? ==> last.place.outcome.Finished? || last.place.outcome.Moved?;
    }
  }

  /** Once all is quiet, each task has ended once, in success or in the dead queue, plus once per duplicating crash. */
  lemma EveryTaskEnds(steps: seq<Step>, n: nat, max: nat, task: nat)
    requires n <= |steps| && max >= 1 && task < |Run(steps, n, max).tasks| && Quiet(Run(steps, n, max))
    ensures Total(Run(steps, n, max).messages, EndOf(task)) == 1 + Duplications(steps, n, max, task)
  {
    CopiesConserved(steps, n, max, task);
    QuietCopiesAreEnds(Run(steps, n, max).messages, task);
  }

  // ---- Termination ------------------------------------------------------------------------------

  /** Steps a message can still cause, unless it is redelivered after a crash. */
  function Weight(msg: Message, max: nat): int {
    match msg.place
    case Retry => 5 * (max - msg.attempts) + 3
    case Main => 5 * (max - msg.attempts) + 2
    case InFlight => 5 * (max - msg.attempts) + 1
    case Looked => 5 * (max - msg.attempts)
    case Settled(_) => 1
    case _ => 0
  }

  function WeightOf(max: nat): Message -> int { msg => Weight(msg, max) }

  /** Steps of a run that did something, other than enqueuing and crashing. */
  ghost function Work(steps: seq<Step>, n: nat, max: nat): nat
    requires n <= |steps|
  {
    if n == 0 then 0
    else
      var step := steps[n - 1];
      var works := Enabled(Run(steps, n - 1, max), step) && !step.Enqueue? && !step.Crash?;
      Work(steps, n - 1, max) + if works then 1 else 0
  }

  function Tasks(steps: seq<Step>, n: nat): nat
    requires n <= |steps|
  {
    if n == 0 then 0 else Tasks(steps, n - 1) + if steps[n - 1].Enqueue? then 1 else 0
  }

  function Crashes(steps: seq<Step>, n: nat): nat
    requires n <= |steps|
  {
    if n == 0 then 0 else Crashes(steps, n - 1) + if steps[n - 1].Crash? then 1 else 0
  }

  /** Work allowed by that many new tasks and crashes. */
  function Budget(tasks: nat, crashes: nat, max: nat): nat { tasks * (5 * max + 2) + crashes * (5 * max + 1) }

  lemma BudgetGrows(tasks: nat, crashes: nat, max: nat)
    ensures Budget(0, 0, max) == 0
    ensures Budget(tasks + 1, crashes, max) == Budget(tasks, crashes, max) + 5 * max + 2
    ensures Budget(tasks, crashes + 1, max) == Budget(tasks, crashes, max) + 5 * max + 1
  {
    assert (tasks + 1) * (5 * max + 2) == tasks * (5 * max + 2) + (5 * max + 2);
    assert (crashes + 1) * (5 * max + 1) == crashes * (5 * max + 1) + 5 * max + 1;
  }

  lemma {:induction false} WeightNonNegative(ms: seq<Message>, max: nat)
    requires forall m | 0 <= m < |ms| :: ms[m].place == Dead || ms[m].attempts < max
    ensures Total(ms, WeightOf(max)) >= 0
  {
    if ms != [] { WeightNonNegative(ms[..|ms| - 1], max); }
  }

  lemma WeightStep(s: State, step: Step, max: nat)
    requires Inv(s, max) && max >= 1 && Enabled(s, step)
    ensures Change(s, step, max, WeightOf(max))
         <= if step.Enqueue? then 5 * max + 2 else if step.Crash? then 5 * max + 1 else -1
  {
  }

  /** The potential left after `n` steps. */
  ghost function WorkLeft(steps: seq<Step>, n: nat, max: nat): int
    requires n <= |steps|
  {
    Total(Run(steps, n, max).messages, WeightOf(max))
  }

  function BudgetOf(step: Step, max: nat): nat {
    if step.Enqueue? then 5 * max + 2 else if step.Crash? then 5 * max + 1 else 0
  }

  lemma WorkStep(steps: seq<Step>, n: nat, max: nat)
    requires n < |steps| && max >= 1
    ensures Work(steps, n + 1, max) + WorkLeft(steps, n + 1, max)
         <= Work(steps, n, max) + WorkLeft(steps, n, max) + BudgetOf(steps[n], max)
  {
    AttemptsBounded(steps, n, max);
    var s, step := Run(steps, n, max), steps[n];
    hide Total, Change, Next, WeightOf, Inv;
    if Enabled(s, step) {
      StepChange(s, step, max, WeightOf(max));
      WeightStep(s, step, max);
    }
    hide Enabled;
    assert Run(steps, n + 1, max) == if Enabled(s, step) then Next(s, step, max) else s;
    hide Run;
  }

  lemma BudgetStep(steps: seq<Step>, n: nat, max: nat)
    requires n < |steps|
    ensures Budget(Tasks(steps, n + 1), Crashes(steps, n + 1), max)
         == Budget(Tasks(steps, n), Crashes(steps, n), max) + BudgetOf(steps[n], max)
  {
    BudgetGrows(Tasks(steps, n), Crashes(steps, n), max);
    hide Budget;
  }

  lemma NoWorkYet(steps: seq<Step>, max: nat)
    ensures Work(steps, 0, max) + WorkLeft(steps, 0, max) == Budget(Tasks(steps, 0), Crashes(steps, 0), max)
  {
    BudgetGrows(0, 0, max);
  }

  lemma WorkLeftNonNegative(steps: seq<Step>, n: nat, max: nat)
    requires n <= |steps| && max >= 1
    ensures WorkLeft(steps, n, max) >= 0
  {
    AttemptsBounded(steps, n, max);
    hide Run, Total;
    WeightNonNegative(Run(steps, n, max).messages, max);
  }

  lemma {:induction false} WorkIsPaid(steps: seq<Step>, n: nat, max: nat)
    requires n <= |steps| && max >= 1
    ensures Work(steps, n, max) + WorkLeft(steps, n, max) <= Budget(Tasks(steps, n), Crashes(steps, n), max)
  {
    hide *;
    if n == 0 {
      NoWorkYet(steps, max);
    } else {
      WorkIsPaid(steps, n - 1, max);
      WorkStep(steps, n - 1, max);
      BudgetStep(steps, n - 1, max);
    }
  }

  /**
   * Every step that is neither a new task nor a crash lowers the potential, so a run with
   * finitely many tasks and crashes does boundedly many of them.
   */
  lemma WorkIsBounded(steps: seq<Step>, n: nat, max: nat)
    requires n <= |steps| && max >= 1
    ensures Work(steps, n, max) <= Tasks(steps, n) * (5 * max + 2) + Crashes(steps, n) * (5 * max + 1)
  {
    WorkIsPaid(steps, n, max);
    WorkLeftNonNegative(steps, n, max);
    hide Work, WorkLeft, Tasks, Crashes;
  }

  /** And as long as the queues have not drained there is such a step to make. */
  lemma WorkGoesOn(steps: seq<Step>, n: nat, max: nat)
    requires n <= |steps| && max >= 1 && !Quiet(Run(steps, n, max))
    ensures exists step: Step :: Enabled(Run(steps, n, max), step) && !step.Enqueue? && !step.Crash?
  {
    AttemptsBounded(steps, n, max);
    hide Run;
    var s := Run(steps, n, max);
    var m: nat :| m < |s.messages| && s.messages[m].place != Dead && !s.messages[m].place.Gone?;
    match s.messages[m].place
    case Main => assert Enabled(s, Deliver(m));
    case Retry => assert Enabled(s, Expire(m));
    case InFlight => assert Enabled(s, Handle(m, NoUsableFace));
    case Looked => assert Enabled(s, Insert(m, Stored));
    case Settled(_) => assert Enabled(s, Ack(m));
  }

  // ---- Deliveries ------------------------------------------------------------------------------------

  ghost function Deliveries(steps: seq<Step>, n: nat, max: nat, task: nat): nat
    requires n <= |steps|
  {
    if n == 0 then 0
    else
      var s, step := Run(steps, n - 1, max), steps[n - 1];
      var delivers := Enabled(s, step) && step.Deliver? && s.messages[step.m].task == task;
      Deliveries(steps, n - 1, max, task) + if delivers then 1 else 0
  }

  /** Crashes that redeliver a message of this task. */
  ghost function Redeliveries(steps: seq<Step>, n: nat, max: nat, task: nat): nat
    requires n <= |steps|
  {
    if n == 0 then 0
    else
      var s, step := Run(steps, n - 1, max), steps[n - 1];
      var redelivers := Enabled(s, step) && step.Crash? && s.messages[step.m].task == task;
      Redeliveries(steps, n - 1, max, task) + if redelivers then 1 else 0
  }

  /** Deliveries a message of the task can still see. */
  function Left(msg: Message, task: nat, max: nat): int {
    if msg.task != task then 0
    else match msg.place
      case Main => max - msg.attempts
      case Retry => max - msg.attempts
      case InFlight => max - msg.attempts - 1
      case Looked => max - msg.attempts - 1
      case _ => 0
  }

  function LeftOf(task: nat, max: nat): Message -> int { msg => Left(msg, task, max) }

  lemma {:induction false} LeftNonNegative(ms: seq<Message>, task: nat, max: nat)
    requires forall m | 0 <= m < |ms| :: ms[m].place == Dead || ms[m].attempts < max
    ensures Total(ms, LeftOf(task, max)) >= 0
  {
    if ms != [] { LeftNonNegative(ms[..|ms| - 1], task, max); }
  }

  lemma LeftStep(s: State, step: Step, task: nat, max: nat)
    requires Inv(s, max) && max >= 1 && Enabled(s, step)
    ensures Change(s, step, max, LeftOf(task, max))
         <= if step.Enqueue? then (if task == |s.tasks| then max else 0)
            else if s.messages[step.m].task != task then 0
            else if step.Crash? then max else if step.Deliver? then -1 else 0
  {
  }

  /** Deliveries allowed to a task that exists or not, with that many redeliveries. */
  function Allowed(known: bool, redeliveries: nat, max: nat): nat {
    (if known then max else 0) + max * redeliveries
  }

  lemma AllowedGrows(redeliveries: nat, max: nat)
    ensures Allowed(false, 0, max) == 0
    ensures forall e :: Allowed(e, redeliveries + 1, max) == Allowed(e, redeliveries, max) + max
    ensures Allowed(true, redeliveries, max) == Allowed(false, redeliveries, max) + max == max * (1 + redeliveries)
  {
    assert max * (redeliveries + 1) == max * redeliveries + max;
  }

  ghost function DeliveriesLeft(steps: seq<Step>, n: nat, max: nat, task: nat): int
    requires n <= |steps|
  {
    Total(Run(steps, n, max).messages, LeftOf(task, max))
  }

  ghost function AllowedAt(steps: seq<Step>, n: nat, max: nat, task: nat): nat
    requires n <= |steps|
  {
    Allowed(task < |Run(steps, n, max).tasks|, Redeliveries(steps, n, max, task), max)
  }

  lemma DeliveriesStep(steps: seq<Step>, n: nat, max: nat, task: nat)
    requires n < |steps| && max >= 1
    ensures Deliveries(steps, n + 1, max, task) + DeliveriesLeft(steps, n + 1, max, task)
            - AllowedAt(steps, n + 1, max, task)
         <= Deliveries(steps, n, max, task) + DeliveriesLeft(steps, n, max, task) - AllowedAt(steps, n, max, task)
  {
    AttemptsBounded(steps, n, max);
    AllowedGrows(Redeliveries(steps, n, max, task), max);
    var s, step := Run(steps, n, max), steps[n];
    hide Total, Change, Next, LeftOf, Allowed, Inv;
    if Enabled(s, step) {
      StepChange(s, step, max, LeftOf(task, max));
      LeftStep(s, step, task, max);
      TasksGrow(s, step, max);
      CrashedTaskExists(s, step, max);
    }
    assert Run(steps, n + 1, max) == if Enabled(s, step) then Next(s, step, max) else s;
    hide Run, Enabled;
  }

  lemma NoDeliveryYet(steps: seq<Step>, max: nat, task: nat)
    ensures Deliveries(steps, 0, max, task) + DeliveriesLeft(steps, 0, max, task) == AllowedAt(steps, 0, max, task)
  {
    AllowedGrows(0, max);
  }

  lemma DeliveriesLeftNonNegative(steps: seq<Step>, n: nat, max: nat, task: nat)
    requires n <= |steps| && max >= 1
    ensures DeliveriesLeft(steps, n, max, task) >= 0
  {
    AttemptsBounded(steps, n, max);
    hide Run, Total;
    LeftNonNegative(Run(steps, n, max).messages, task, max);
  }

  lemma {:induction false} DeliveriesArePaid(steps: seq<Step>, n: nat, max: nat, task: nat)
    requires n <= |steps| && max >= 1
    ensures Deliveries(steps, n, max, task) + DeliveriesLeft(steps, n, max, task) <= AllowedAt(steps, n, max, task)
  {
    hide *;
    if n == 0 {
      NoDeliveryYet(steps, max, task);
    } else {
      DeliveriesArePaid(steps, n - 1, max, task);
      DeliveriesStep(steps, n - 1, max, task);
    }
  }

  /** A task is delivered at most `max` times, plus at most `max` times per crash that redelivers it. */
  lemma DeliveriesBounded(steps: seq<Step>, n: nat, max: nat, task: nat)
    requires n <= |steps| && max >= 1
    ensures Deliveries(steps, n, max, task) <= max * (1 + Redeliveries(steps, n, max, task))
  {
    DeliveriesArePaid(steps, n, max, task);
    DeliveriesLeftNonNegative(steps, n, max, task);
    AllowedGrows(Redeliveries(steps, n, max, task), max);
    hide Run, Deliveries, DeliveriesLeft, Redeliveries, Allowed;
  }

  lemma TasksGrow(s: State, step: Step, max: nat)
    requires Enabled(s, step)
    ensures |Next(s, step, max).tasks| == |s.tasks| + if step.Enqueue? then 1 else 0
  {
  }

  // ---- Exactly when an image is stored twice ---------------------------------------------------------

  /** Step `k` does something to the message. */
  ghost predicate Touches(steps: seq<Step>, k: nat, m: nat, max: nat)
    requires k < |steps|
  {
    !steps[k].Enqueue? && steps[k].m == m && Enabled(Run(steps, k, max), steps[k])
  }

  /** The look-up at step `r` did not find the image, and nothing has happened to its message before step `n`. */
  ghost predicate LookedAt(steps: seq<Step>, r: nat, n: nat, image: Task, max: nat) {
    && r < n <= |steps| && steps[r].Handle? && steps[r].result.Embedded?
    && var s, m := Run(steps, r, max), steps[r].m;
       && Enabled(s, steps[r]) && image == TaskOf(s, m) && !ExistsByHash(s, image)
       && forall k | r < k < n :: !Touches(steps, k, m, max)
  }

  /** A handling that looked for the image at step `r`, in vain, and inserted it at step `w`. */
  ghost predicate Window(steps: seq<Step>, r: nat, w: nat, image: Task, max: nat) {
    && w < |steps| && LookedAt(steps, r, w, image, max)
    && steps[w].Insert? && steps[w].m == steps[r].m && !steps[w].insertion.NotStored?
  }

  /** Step `w` stores the image. */
  ghost predicate StoresAt(steps: seq<Step>, w: nat, image: Task, max: nat)
    requires w < |steps|
  {
    Run(steps, w + 1, max).embeddings == Run(steps, w, max).embeddings + [image]
  }

  lemma RunStep(steps: seq<Step>, n: nat, max: nat)
    requires n < |steps|
    ensures var s := Run(steps, n, max);
      Run(steps, n + 1, max) == if Enabled(s, steps[n]) then Next(s, steps[n], max) else s
  {
    hide Enabled, Next;
  }

  /** A message keeps its task; only steps of its own change its place. */
  lemma MessageStep(s: State, step: Step, max: nat, m: nat)
    requires Enabled(s, step) && m < |s.messages|
    ensures var s' := Next(s, step, max);
      && m < |s'.messages| && s'.messages[m].task == s.messages[m].task && s.tasks <= s'.tasks
      && (step.Enqueue? || step.m != m ==> s'.messages[m] == s.messages[m])
  {
  }

  lemma EmbeddingsStep(s: State, step: Step, max: nat)
    requires Enabled(s, step)
    ensures Next(s, step, max).embeddings == s.embeddings
      + if step.Insert? && !step.insertion.NotStored? then [TaskOf(s, step.m)] else []
  {
  }

  lemma {:induction false} EmbeddingsGrow(steps: seq<Step>, m: nat, n: nat, max: nat)
    requires m <= n <= |steps|
    ensures Run(steps, m, max).embeddings <= Run(steps, n, max).embeddings
  {
    hide Enabled, Next;
    if m < n {
      EmbeddingsGrow(steps, m, n - 1, max);
      if Enabled(Run(steps, n - 1, max), steps[n - 1]) {
        EmbeddingsStep(Run(steps, n - 1, max), steps[n - 1], max);
      }
    }
  }

  /** Between look-up and insert the message waits with its image. */
  lemma {:induction false} LookedSince(steps: seq<Step>, r: nat, n: nat, image: Task, max: nat)
    requires LookedAt(steps, r, n, image, max)
    ensures var s, m := Run(steps, n, max), steps[r].m;
      m < |s.messages| && s.messages[m].place.Looked? && s.messages[m].task < |s.tasks| && TaskOf(s, m) == image
  {
    RunStep(steps, n - 1, max);
    if r + 1 < n {
      LookedSince(steps, r, n - 1, image, max);
      var s := Run(steps, n - 1, max);
      assert !Touches(steps, n - 1, steps[r].m, max);
      if Enabled(s, steps[n - 1]) {
        MessageStep(s, steps[n - 1], max, steps[r].m);
      }
      hide Run, Next;
    }
  }

  lemma LookStarts(steps: seq<Step>, n: nat, m: nat, max: nat)
    requires n < |steps| && Touches(steps, n, m, max)
    requires var s := Run(steps, n + 1, max);
      m < |s.messages| && s.messages[m].place.Looked? && s.messages[m].task < |s.tasks|
    ensures LookedAt(steps, n, n + 1, TaskOf(Run(steps, n + 1, max), m), max) && steps[n].Handle? && steps[n].m == m
  {
    RunStep(steps, n, max);
    hide Run;
  }

  lemma LookGoesOn(steps: seq<Step>, r: nat, n: nat, image: Task, max: nat)
    requires n < |steps| && LookedAt(steps, r, n, image, max) && !Touches(steps, n, steps[r].m, max)
    ensures LookedAt(steps, r, n + 1, image, max)
  {
    hide Run, Touches;
  }

  lemma LookWasThere(steps: seq<Step>, n: nat, m: nat, max: nat)
    requires n < |steps| && max >= 1 && !Touches(steps, n, m, max)
    requires var s := Run(steps, n + 1, max);
      m < |s.messages| && s.messages[m].place.Looked? && s.messages[m].task < |s.tasks|
    ensures var s := Run(steps, n, max);
      && m < |s.messages| && s.messages[m].place.Looked? && s.messages[m].task < |s.tasks|
      && TaskOf(s, m) == TaskOf(Run(steps, n + 1, max), m)
  {
    RunStep(steps, n, max);
    AttemptsBounded(steps, n, max);
    hide Run;
    LookedBefore(Run(steps, n, max), steps[n], m, max);
    hide Next, Inv, Enabled;
  }

  lemma NothingLooked(steps: seq<Step>, max: nat)
    ensures Run(steps, 0, max).messages == []
  {
  }

  /** A message that is about to insert has looked. */
  lemma {:induction false} LookOf(steps: seq<Step>, n: nat, m: nat, max: nat) returns (r: nat)
    requires n <= |steps| && max >= 1
    requires m < |Run(steps, n, max).messages| && Run(steps, n, max).messages[m].place.Looked?
    requires Run(steps, n, max).messages[m].task < |Run(steps, n, max).tasks|
    ensures LookedAt(steps, r, n, TaskOf(Run(steps, n, max), m), max)
    ensures r < n && steps[r].Handle? && steps[r].m == m
  {
    hide *;
    NothingLooked(steps, max);
    if Touches(steps, n - 1, m, max) {
      r := n - 1;
      LookStarts(steps, n - 1, m, max);
    } else {
      LookWasThere(steps, n - 1, m, max);
      r := LookOf(steps, n - 1, m, max);
      LookGoesOn(steps, r, n - 1, TaskOf(Run(steps, n - 1, max), m), max);
    }
  }

  lemma LookedBefore(s: State, step: Step, m: nat, max: nat)
    requires Inv(s, max)
    requires Enabled(s, step) ==> step.Enqueue? || step.m != m
    requires var s' := if Enabled(s, step) then Next(s, step, max) else s;
      m < |s'.messages| && s'.messages[m].place.Looked? && s'.messages[m].task < |s'.tasks|
    ensures m < |s.messages| && s.messages[m].place.Looked? && s.messages[m].task < |s.tasks|
    ensures TaskOf(s, m) == TaskOf(if Enabled(s, step) then Next(s, step, max) else s, m)
  {
  }

  lemma WindowStores(steps: seq<Step>, r: nat, w: nat, image: Task, max: nat)
    requires Window(steps, r, w, image, max)
    ensures StoresAt(steps, w, image, max)
  {
    LookedSince(steps, r, w, image, max);
    RunStep(steps, w, max);
    EmbeddingsStep(Run(steps, w, max), steps[w], max);
    hide Run, Next;
  }

  lemma StoreHasWindow(steps: seq<Step>, w: nat, image: Task, max: nat) returns (r: nat)
    requires max >= 1 && w < |steps| && StoresAt(steps, w, image, max)
    ensures Window(steps, r, w, image, max)
  {
    var s := Run(steps, w, max);
    RunStep(steps, w, max);
    hide Run, Next;
    assert Enabled(s, steps[w]);
    EmbeddingsStep(s, steps[w], max);
    var after := Run(steps, w + 1, max).embeddings;
    assert after[|s.embeddings|] == image;
    r := LookOf(steps, w, steps[w].m, max);
  }

  /** A handling that stores an image stored before must have looked before that. */
  lemma LookedBeforeStored(steps: seq<Step>, m: nat, r: nat, n: nat, image: Task, max: nat)
    requires max >= 1 && m < n < |steps| && StoresAt(steps, m, image, max) && Window(steps, r, n, image, max)
    ensures r < m
  {
    var q := StoreHasWindow(steps, m, image, max);
    if r > m {
      EmbeddingsGrow(steps, m + 1, r, max);
      hide Run;
      StoredStays(Run(steps, m, max).embeddings, Run(steps, r, max).embeddings, image);
    }
  }

  lemma StoredStays(before: seq<Task>, after: seq<Task>, image: Task)
    requires before + [image] <= after
    ensures |before| < |after| && after[|before|] == image && image in after
  {
    assert (before + [image])[|before|] == image;
  }

  /** Every embedding was stored by a step, and no two by the same. */
  lemma {:induction false} StoreOf(steps: seq<Step>, n: nat, i: nat, max: nat) returns (w: nat)
    requires n <= |steps| && i < |Run(steps, n, max).embeddings|
    ensures w < n && |Run(steps, w, max).embeddings| == i
    ensures StoresAt(steps, w, Run(steps, n, max).embeddings[i], max)
  {
    RunStep(steps, n - 1, max);
    var s, step := Run(steps, n - 1, max), steps[n - 1];
    if Enabled(s, step) { EmbeddingsStep(s, step, max); }
    hide Next;
    if i < |s.embeddings| {
      w := StoreOf(steps, n - 1, i, max);
    } else {
      w := n - 1;
    }
  }

  /** The image is stored twice for its student. */
  ghost predicate StoredTwice(steps: seq<Step>, image: Task, max: nat) {
    var e := Run(steps, |steps|, max).embeddings;
    exists i, j | 0 <= i < j < |e| :: e[i] == image && e[j] == image
  }

  /** The later of two windows to insert is open when the other inserts. */
  ghost predicate WindowsOverlap(steps: seq<Step>, image: Task, max: nat) {
    exists q: nat, m: nat, r: nat, n: nat ::
      Window(steps, q, m, image, max) && Window(steps, r, n, image, max) && r < m < n
  }

  lemma TwiceMeansOverlap(steps: seq<Step>, image: Task, max: nat)
    requires max >= 1 && StoredTwice(steps, image, max)
    ensures WindowsOverlap(steps, image, max)
  {
    hide Run, Window;
    var e := Run(steps, |steps|, max).embeddings;
    var i: nat, j: nat :| i < j < |e| && e[i] == image && e[j] == image;
    var m := StoreOf(steps, |steps|, i, max);
    var n := StoreOf(steps, |steps|, j, max);
    if n < m { EmbeddingsGrow(steps, n, m, max); }
    var q := StoreHasWindow(steps, m, image, max);
    var r := StoreHasWindow(steps, n, image, max);
    LookedBeforeStored(steps, m, r, n, image, max);
  }

  lemma OverlapMeansTwice(steps: seq<Step>, q: nat, m: nat, r: nat, n: nat, image: Task, max: nat)
    requires Window(steps, q, m, image, max) && Window(steps, r, n, image, max) && m < n
    ensures StoredTwice(steps, image, max)
  {
    WindowStores(steps, q, m, image, max);
    WindowStores(steps, r, n, image, max);
    EmbeddingsGrow(steps, m + 1, n, max);
    EmbeddingsGrow(steps, n + 1, |steps|, max);
    EmbeddingsGrow(steps, m + 1, |steps|, max);
    var e := Run(steps, |steps|, max).embeddings;
    hide Run;
    StoredStays(Run(steps, m, max).embeddings, Run(steps, n, max).embeddings, image);
    StoredStays(Run(steps, m, max).embeddings, e, image);
    StoredStays(Run(steps, n, max).embeddings, e, image);
  }

  /**
   * Under any interleaving of consumers, an image is stored twice for its student if and
   * only if two handlings of it overlap, each looking before the other inserts.
   */
  lemma StoredTwiceIff(steps: seq<Step>, image: Task, max: nat)
    requires max >= 1
    ensures StoredTwice(steps, image, max) <==> WindowsOverlap(steps, image, max)
  {
    hide StoredTwice, Window;
    if StoredTwice(steps, image, max) {
      TwiceMeansOverlap(steps, image, max);
    }
    if WindowsOverlap(steps, image, max) {
      var q: nat, m: nat, r: nat, n: nat :|
        Window(steps, q, m, image, max) && Window(steps, r, n, image, max) && r < m < n;
      OverlapMeansTwice(steps, q, m, r, n, image, max);
    }
  }

  /** One delivery is handled at a time: every insert follows its own look-up at once. */
  ghost predicate Serial(steps: seq<Step>, max: nat) {
    forall w | 0 <= w < |steps| && steps[w].Insert? && Enabled(Run(steps, w, max), steps[w]) ::
      w > 0 && steps[w - 1].Handle? && Touches(steps, w - 1, steps[w].m, max)
  }

  /** Then no image is stored twice for a student, through any retries, crashes and redeliveries. */
  lemma SerialStoresOnce(steps: seq<Step>, image: Task, max: nat)
    requires max >= 1 && Serial(steps, max)
    ensures !StoredTwice(steps, image, max)
  {
    StoredTwiceIff(steps, image, max);
    hide StoredTwice, Serial, Window;
    forall r: nat, w: nat | Window(steps, r, w, image, max) ensures w == r + 1 {
      SerialWindow(steps, r, w, image, max);
    }
  }

  lemma SerialWindow(steps: seq<Step>, r: nat, w: nat, image: Task, max: nat)
    requires Serial(steps, max) && Window(steps, r, w, image, max)
    ensures w == r + 1
  {
    LookedSince(steps, r, w, image, max);
    hide Run, Touches;
  }
}
