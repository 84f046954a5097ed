/**
 * The Idempotency-Key middleware as a protocol on one cache key: any number of requests
 * interleave their GET, their SET NX, their handler and the write that follows the
 * response. Redis is up, the key does not expire and no owner dies.
 */
module Idempotency {
  import opened Options

  datatype Response = Response(code: nat, body: string)
  datatype Cached = Pending | Done(response: Response)

  /**
   * Where a request is: it has read nothing yet; its GET found nothing; it owns the lock and
   * its handler runs; its handler has answered and the cache write is on its way; the write
   * has arrived; or it was answered from the cache, or with 409.
   */
  datatype Phase =
    | Arrived
    | Missed
    | Running
    | Answered(response: Response)
    | Settled(response: Response)
    | Replayed(response: Response)
    | Conflict

  datatype State = State(key: Option<Cached>, requests: seq<Phase>)

  /** The `i`-th request makes its next Redis command or answers. */
  datatype Step = Arrive | Get(i: nat) | SetNx(i: nat) | Respond(i: nat, response: Response) | Write(i: nat)

  predicate Success(r: Response) { 200 <= r.code < 300 }

  predicate Enabled(s: State, step: Step) {
    match step
    case Arrive => true
    case Get(i) => i < |s.requests| && s.requests[i].Arrived?
    case SetNx(i) => i < |s.requests| && s.requests[i].Missed?
    case Respond(i, _) => i < |s.requests| && s.requests[i].Running?
    case Write(i) => i < |s.requests| && s.requests[i].Answered?
  }

  function Next(s: State, step: Step): State
    requires Enabled(s, step)
  {
    match step
    case Arrive => s.(requests := s.requests + [Arrived])
    case Get(i) =>
      var phase := match s.key
        case None => Missed
        case Some(Pending) => Conflict
        case Some(Done(r)) => Replayed(r);
      s.(requests := s.requests[i := phase])
    case SetNx(i) =>
      if s.key.None? then State(Some(Pending), s.requests[i := Running])
      else s.(requests := s.requests[i := Conflict])
    case Respond(i, r) => s.(requests := s.requests[i := Answered(r)])
    case Write(i) =>
      var r := s.requests[i].response;
      State(if Success(r) then Some(Done(r)) else None, s.requests[i := Settled(r)])
  }

  function Run(steps: seq<Step>, n: nat): State
    requires n <= |steps|
  {
    if n == 0 then State(None, [])
    else
      var s := Run(steps, n - 1);
      if Enabled(s, steps[n - 1]) then Next(s, steps[n - 1]) else s
  }

  // ---- Every interleaving --------------------------------------------------------------

  /** The request holds the lock: its handler runs, or its cache write has not arrived. */
  predicate Owns(p: Phase) { p.Running? || p.Answered? }

  /** The request's own handler run ended in success. */
  predicate Succeeded(p: Phase) { (p.Answered? || p.Settled?) && Success(p.response) }

  ghost predicate Inv(s: State) {
    && (s.key == Some(Pending) <==> exists i | 0 <= i < |s.requests| :: Owns(s.requests[i]))
    && (forall i, j | 0 <= i < j < |s.requests| :: !(Owns(s.requests[i]) && Owns(s.requests[j])))
    && (forall i, j | 0 <= i < |s.requests| && 0 <= j < |s.requests| && i != j ::
          !(Succeeded(s.requests[i]) && (Succeeded(s.requests[j]) || Owns(s.requests[j]))))
    && (forall i | 0 <= i < |s.requests| && s.requests[i].Settled? && Success(s.requests[i].response) ::
          s.key == Some(Done(s.requests[i].response)))
    && (s.key.Some? && s.key.value.Done? ==>
          exists i | 0 <= i < |s.requests| :: s.requests[i].Settled? && Success(s.requests[i].response))
    && (forall i | 0 <= i < |s.requests| && s.requests[i].Replayed? :: s.key == Some(Done(s.requests[i].response)))
  }

  /** A step that neither takes nor gives up the lock, nor changes who has succeeded. */
  lemma OwnersUnchanged(s: State, s': State)
    requires |s.requests| <= |s'.requests|
    requires forall i | 0 <= i < |s.requests| :: Owns(s.requests[i]) <==> Owns(s'.requests[i])
    requires forall i | 0 <= i < |s.requests| && s.requests[i].Settled? :: s'.requests[i] == s.requests[i]
    ensures (exists i | 0 <= i < |s.requests| :: Owns(s.requests[i])) ==>
      exists i | 0 <= i < |s'.requests| :: Owns(s'.requests[i])
    ensures (exists i | 0 <= i < |s.requests| :: s.requests[i].Settled? && Success(s.requests[i].response)) ==>
      exists i | 0 <= i < |s'.requests| :: s'.requests[i].Settled? && Success(s'.requests[i].response)
  {
    if i :| 0 <= i < |s.requests| && Owns(s.requests[i]) {
      assert Owns(s'.requests[i]);
    }
    if i :| 0 <= i < |s.requests| && s.requests[i].Settled? && Success(s.requests[i].response) {
      assert s'.requests[i] == s.requests[i];
    }
  }

  lemma StepKeepsInv(s: State, step: Step)
    requires Inv(s) && Enabled(s, step)
    ensures Inv(Next(s, step))
  {
    hide Inv, Next;
    match step
    case Arrive => ArriveKeepsInv(s);
    case Get(i) => GetKeepsInv(s, i);
    case SetNx(i) => SetNxKeepsInv(s, i);
    case Respond(i, r) => RespondKeepsInv(s, i, r);
    case Write(i) => WriteKeepsInv(s, i);
  }

  lemma ArriveKeepsInv(s: State)
    requires Inv(s)
    ensures Inv(Next(s, Arrive))
  {
    OwnersUnchanged(s, Next(s, Arrive));
  }

  lemma GetKeepsInv(s: State, i: nat)
    requires Inv(s) && Enabled(s, Get(i))
    ensures Inv(Next(s, Get(i)))
  {
    OwnersUnchanged(s, Next(s, Get(i)));
  }

  lemma SetNxKeepsInv(s: State, i: nat)
    requires Inv(s) && Enabled(s, SetNx(i))
    ensures Inv(Next(s, SetNx(i)))
  {
    if s.key.None? {
      assert Owns(Next(s, SetNx(i)).requests[i]);
    } else {
      OwnersUnchanged(s, Next(s, SetNx(i)));
    }
  }

  lemma RespondKeepsInv(s: State, i: nat, r: Response)
    requires Inv(s) && Enabled(s, Respond(i, r))
    ensures Inv(Next(s, Respond(i, r)))
  {
    assert Owns(s.requests[i]);
    assert s.key == Some(Pending);
    OwnersUnchanged(s, Next(s, Respond(i, r)));
  }

  lemma WriteKeepsInv(s: State, i: nat)
    requires Inv(s) && Enabled(s, Write(i))
    ensures Inv(Next(s, Write(i)))
  {
    assert Owns(s.requests[i]);
    assert s.key == Some(Pending);
    var s' := Next(s, Write(i));
    assert forall j | 0 <= j < |s.requests| && j != i :: s'.requests[j] == s.requests[j] && !Owns(s.requests[j]);
    assert s'.requests[i] == Settled(s.requests[i].response);
  }

  lemma {:induction false} EveryRunKeepsInv(steps: seq<Step>, n: nat)
    requires n <= |steps|
    ensures Inv(Run(steps, n))
  {
    if n > 0 {
      hide Inv, Next, Enabled;
      EveryRunKeepsInv(steps, n - 1);
      if Enabled(Run(steps, n - 1), steps[n - 1]) { StepKeepsInv(Run(steps, n - 1), steps[n - 1]); }
    } else {
      EmptyInv();
    }
  }

  lemma EmptyInv()
    ensures Inv(State(None, []))
  {
  }

  /**
   * In every run the key is pending exactly while one request owns the lock, only one
   * request ever does at a time, and at most one handler run ends in success.
   */
  lemma OneOwnerOneSuccess(steps: seq<Step>, n: nat)
    requires n <= |steps|
    ensures var s := Run(steps, n);
      && (s.key == Some(Pending) <==>
            exists i | 0 <= i < |s.requests| :: s.requests[i].Running? || s.requests[i].Answered?)
      && (forall i, j | 0 <= i < |s.requests| && 0 <= j < |s.requests| ::
            Owns(s.requests[i]) && Owns(s.requests[j]) ==> i == j)
      && (forall i, j | 0 <= i < |s.requests| && 0 <= j < |s.requests| ::
            Succeeded(s.requests[i]) && Succeeded(s.requests[j]) ==> i == j)
      && (forall r | s.key == Some(Done(r)) ::
            200 <= r.code < 300 && exists i | 0 <= i < |s.requests| :: s.requests[i] == Settled(r))
  {
    EveryRunKeepsInv(steps, n);
  }

  /** Every replay, in every run, is the answer of the one handler run that succeeded. */
  lemma ReplaysAreFaithful(steps: seq<Step>, n: nat, i: nat)
    requires n <= |steps| && i < |Run(steps, n).requests| && Run(steps, n).requests[i].Replayed?
    ensures var s := Run(steps, n);
      exists j | 0 <= j < |s.requests| ::
        s.requests[j].Settled? && s.requests[j].response == s.requests[i].response && Success(s.requests[j].response)
  {
    EveryRunKeepsInv(steps, n);
  }

  /**
   * Once a success is cached it stays: every later step leaves the key alone, and every
   * later request whose GET follows is answered with exactly that code and body.
   */
  lemma {:induction false} SuccessIsPermanent(steps: seq<Step>, n: nat, m: nat, r: Response)
    requires n <= m <= |steps| && Run(steps, n).key == Some(Done(r))
    ensures Run(steps, m).key == Some(Done(r))
    ensures m < |steps| && steps[m].Get? && Enabled(Run(steps, m), steps[m]) ==>
      Run(steps, m + 1).requests[steps[m].i] == Replayed(r)
  {
    if n < m {
      SuccessIsPermanent(steps, n, m - 1, r);
      EveryRunKeepsInv(steps, m - 1);
      var s := Run(steps, m - 1);
      assert forall i | 0 <= i < |s.requests| :: !Owns(s.requests[i]);
    }
  }

  /**
   * Only the owner's write changes a pending key: while the lock is held, no step of any
   * other request, in particular of one answered 409, releases or overwrites it.
   */
  lemma OnlyTheOwnerReleases(steps: seq<Step>, n: nat, owner: nat)
    requires n < |steps| && owner < |Run(steps, n).requests| && Owns(Run(steps, n).requests[owner])
    ensures Run(steps, n + 1).key == Some(Pending) || steps[n] == Write(owner)
  {
    EveryRunKeepsInv(steps, n);
    var s, step := Run(steps, n), steps[n];
    if Enabled(s, step) && step.Write? && step.i != owner {
      assert Owns(s.requests[step.i]);
    }
  }

  // ---- The middleware ----------------------------------------------------------------

  ghost predicate SomeOwner(requests: seq<Phase>) { exists i | 0 <= i < |requests| :: Owns(requests[i]) }

  ghost predicate OnlyOwner(requests: seq<Phase>, i: nat) {
    forall j | 0 <= j < |requests| :: Owns(requests[j]) <==> j == i
  }

  /** The request's own handler run succeeded, and its answer is cached. */
  ghost predicate CachedSuccess(p: Phase, r: Response) { p == Settled(r) && Success(r) }

  ghost predicate SomeSuccess(requests: seq<Phase>) {
    exists i | 0 <= i < |requests| :: requests[i].Settled? && Success(requests[i].response)
  }

  /** Any request that asks now is answered with `r`. */
  ghost predicate Replays(s: State, r: Response) {
    forall j | 0 <= j < |s.requests| && s.requests[j].Arrived? :: Next(s, Get(j)).requests[j] == Replayed(r)
  }

  /** Any request that tries for the lock now gets it. */
  ghost predicate Unlocked(s: State) {
    forall j | 0 <= j < |s.requests| && s.requests[j].Missed? :: Next(s, SetNx(j)).requests[j] == Running
  }

  /** The shared key and the requests in flight, changed command by command. */
  class IdempotencyKey {
    var cached: Option<Cached>
    var requests: seq<Phase>

    function Contents(): State
      reads this
    {
      State(cached, requests)
    }

    ghost predicate Valid()
      reads this
    {
      Inv(Contents())
    }

    constructor ()
      ensures Valid() && Contents() == State(None, [])
    {
      cached, requests := None, [];
    }

    method NewRequest() returns (i: nat)
      requires Valid()
      modifies this`requests
      ensures Valid() && Contents() == Next(old(Contents()), Arrive) && i == |old(requests)|
    {
      ArriveKeepsInv(Contents());
      i := |requests|;
      requests := requests + [Arrived];
    }

    /**
     * GET: refused exactly while some request owns the lock, and answered with a success
     * exactly when there has been one.
     */
    method Lookup(i: nat)
      requires Valid() && Enabled(Contents(), Get(i))
      modifies this`requests
      ensures Valid() && Contents() == Next(old(Contents()), Get(i))
      ensures requests[i].Conflict? <==> SomeOwner(old(requests))
      ensures requests[i].Replayed? <==> SomeSuccess(old(requests))
      ensures requests[i].Replayed? ==>
        exists j | 0 <= j < |requests| :: CachedSuccess(requests[j], requests[i].response)
      ensures requests[i].Missed? || requests[i].Conflict? || requests[i].Replayed?
    {
      GetKeepsInv(Contents(), i);
      if cached.Some? {
        if cached.value.Pending? {
          requests := requests[i := Conflict];
        } else {
          ghost var j :| 0 <= j < |requests| && requests[j].Settled? && Success(requests[j].response);
          requests := requests[i := Replayed(cached.value.response)];
          assert CachedSuccess(requests[j], requests[i].response);
        }
      } else {
        requests := requests[i := Missed];
      }
    }

    /** SET NX: takes the lock exactly when nobody owns it and no success is cached; then it alone owns it. */
    method Acquire(i: nat)
      requires Valid() && Enabled(Contents(), SetNx(i))
      modifies this
      ensures Valid() && Contents() == Next(old(Contents()), SetNx(i))
      ensures requests[i].Running? <==> !SomeOwner(old(requests)) && !SomeSuccess(old(requests))
      ensures requests[i].Running? ==> OnlyOwner(requests, i)
      ensures !requests[i].Running? ==> requests[i].Conflict? && cached == old(cached)
    {
      SetNxKeepsInv(Contents(), i);
      if cached.None? {
        cached := Some(Pending);
        requests := requests[i := Running];
      } else {
        requests := requests[i := Conflict];
      }
    }

    /** The handler calls `res.json`; until the cache write arrives the request still owns the lock. */
    method Answer(i: nat, response: Response)
      requires Valid() && Enabled(Contents(), Respond(i, response))
      modifies this`requests
      ensures Valid() && Contents() == Next(old(Contents()), Respond(i, response))
      ensures OnlyOwner(requests, i) && cached == Some(Pending)
      ensures forall j | 0 <= j < |requests| && j != i :: !Succeeded(requests[j])
    {
      RespondKeepsInv(Contents(), i, response);
      assert Owns(requests[i]);
      requests := requests[i := Answered(response)];
    }

    /**
     * The write arrives and nobody owns the lock any more: after a success every request
     * that asks is answered with it, after a failure the next one that tries gets the lock.
     */
    method CacheOrRelease(i: nat)
      requires Valid() && Enabled(Contents(), Write(i))
      modifies this
      ensures Valid() && Contents() == Next(old(Contents()), Write(i))
      ensures !SomeOwner(requests)
      ensures var r := old(requests[i].response);
        && requests[i] == Settled(r)
        && cached == (if 200 <= r.code < 300 then Some(Done(r)) else None)
        && (if 200 <= r.code < 300 then Replays(Contents(), r) else Unlocked(Contents()))
    {
      WriteKeepsInv(Contents(), i);
      var response := requests[i].response;
      if response.code >= 200 && response.code < 300 {
        cached := Some(Done(response));
      } else {
        cached := None;
      }
      requests := requests[i := Settled(response)];
    }
  }
}
