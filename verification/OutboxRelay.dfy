/**
 * One relay replica's drain loop over the outbox protocol, while any number of other
 * replicas work on the same tables: every change it makes is a protocol step, and the loop
 * ends.
 */
module OutboxRelay {
  import opened Options
  import opened Outbox
  import opened OutboxLedger

  /** Due now, and not locked by a replica's transaction: `SKIP LOCKED`. */
  predicate Claimable(s: State, id: nat)
    requires id < |s.rows|
  {
    Available(s.rows[id], s.clock) && !Locked(s, id)
  }

  /** The relay's query: the first `limit` claimable rows, oldest first. */
  function FirstClaimable(s: State, limit: nat, from: nat := 0): (ids: seq<nat>)
    requires from <= |s.rows|
    ensures |ids| <= limit
    ensures forall k | 0 <= k < |ids| :: from <= ids[k] < |s.rows| && Claimable(s, ids[k])
    ensures forall k, l | 0 <= k < l < |ids| :: ids[k] < ids[l]
    ensures forall id | from <= id < |s.rows| && Claimable(s, id) && id !in ids ::
      |ids| == limit && forall k | 0 <= k < |ids| :: ids[k] < id
    decreases |s.rows| - from
  {
    if limit == 0 || from == |s.rows| then []
    else if Claimable(s, from) then [from] + FirstClaimable(s, limit - 1, from + 1)
    else FirstClaimable(s, limit, from + 1)
  }

  /** Of the rows due when `query` ran, only those locked by another replica then are still due as of that time. */
  ghost predicate OnlyLockedLeft(query: State, s: State) {
    forall id | 0 <= id < |query.rows| && id < |s.rows| && Available(s.rows[id], query.clock) :: Locked(query, id)
  }

  /** No row is both pending and due at this time. */
  ghost predicate NothingDue(rows: seq<Row>, time: nat) {
    forall id | 0 <= id < |rows| :: !Available(rows[id], time)
  }

  ghost predicate Idle(s: State) { forall t | 0 <= t < |s.txs| :: !s.txs[t].phase.Live? }

  // ---- The steps of one batch -----------------------------------------------------

  /** The step is one of this transaction. */
  predicate ActsOn(step: Step, t: nat) {
    match step
    case Publish(tx, _, _) => tx == t
    case Commit(tx) => tx == t
    case Abort(tx, _) => tx == t
    case LateCopy(tx, _) => tx == t
    case _ => false
  }

  /** What becomes of one publish: a confirm, or none, with the message stored or not. */
  datatype Reply = Confirmed | Unconfirmed(stored: bool)

  /** What the broker answers in each batch of a tick, for each row. */
  type Broker = (nat, nat) -> Reply

  /** The row after its publish at some time between the query and now. */
  ghost predicate Answered(c: Config, row: Row, row': Row, reply: Reply, query: State, s: State) {
    exists time | query.clock <= time <= s.clock :: IsResult(row, row', c.maxAttempts, reply.Confirmed?, time)
  }

  /** The batch is claimed, its rows are as the query found them, and the first `i` are published. */
  ghost predicate Publishing(c: Config, s: State, t: nat, query: State, ids: seq<nat>, i: nat, broker: Broker,
                             round: nat) {
    && t < |s.txs| && i <= |ids| && query.clock <= s.clock
    && s.txs[t].phase.Live? && s.txs[t].ids == ids && |s.txs[t].updates| == i && s.txs[t].claimedAt == query.clock
    && (forall id | id in ids :: id < |query.rows| && id < |s.rows| && s.rows[id] == query.rows[id])
    && (forall k | 0 <= k < i ::
          && ids[k] < |query.rows|
          && Answered(c, query.rows[ids[k]], s.txs[t].updates[k], broker(round, ids[k]), query, s))
  }

  /** Every row of the batch ended as the broker answered. */
  ghost predicate BatchAnswered(c: Config, s: State, query: State, ids: seq<nat>, broker: Broker, round: nat) {
    forall id | id in ids ::
      id < |query.rows| && id < |s.rows| && Answered(c, query.rows[id], s.rows[id], broker(round, id), query, s)
  }

  /** Every row of the batch is as the query found it. */
  ghost predicate BatchAsFound(s: State, query: State, ids: seq<nat>) {
    forall id | id in ids :: id < |query.rows| && id < |s.rows| && s.rows[id] == query.rows[id]
  }

  /** The query's result, in terms of the columns it compares. */
  lemma ClaimableMeaning(s: State, limit: nat)
    ensures var ids := FirstClaimable(s, limit);
      && |ids| <= limit
      && (forall k, l | 0 <= k < l < |ids| :: ids[k] < ids[l])
      && (forall id | id in ids ::
            id < |s.rows| && s.rows[id].status == PENDING && s.rows[id].availableAt <= s.clock && !Locked(s, id))
      && (forall id | 0 <= id < |s.rows| && id !in ids
                      && s.rows[id].status == PENDING && s.rows[id].availableAt <= s.clock && !Locked(s, id) ::
            |ids| == limit && forall k | 0 <= k < |ids| :: ids[k] < id)
  {
    hide Locked;
  }

  lemma ClaimIsEnabled(c: Config, s: State, broker: Broker, round: nat)
    ensures var ids := FirstClaimable(s, c.batchSize);
      && Enabled(c, s, Claim(ids))
      && Publishing(c, Next(c, s, Claim(ids)), |s.txs|, s, ids, 0, broker, round)
  {
    hide Available, Locked;
  }

  /** The publishes of the batch, the commit after them and an abort in between are enabled protocol steps. */
  lemma BatchIsEnabled(c: Config, s: State, t: nat, query: State, ids: seq<nat>, i: nat, broker: Broker, round: nat)
    requires Inv(c, s) && Publishing(c, s, t, query, ids, i, broker, round)
    ensures i == |ids| ==> Enabled(c, s, Commit(t))
    ensures forall inFlight :: (inFlight ==> i < |ids|) ==> Enabled(c, s, Abort(t, inFlight))
    ensures i < |ids| ==> forall stored, acked :: (acked ==> stored) ==> Enabled(c, s, Publish(t, stored, acked))
  {
    hide Inv, Answered;
    assert i < |ids| ==> ids[i] in ids;
  }

  function PublishOf(t: nat, reply: Reply): Step {
    match reply
    case Confirmed => Publish(t, true, true)
    case Unconfirmed(stored) => Publish(t, stored, false)
  }

  /** Publishing the next row adds what its answer makes of it to the batch. */
  lemma PublishAnswered(c: Config, s: State, t: nat, query: State, ids: seq<nat>, i: nat, broker: Broker, round: nat)
    requires Inv(c, s) && Publishing(c, s, t, query, ids, i, broker, round) && i < |ids|
    ensures var step := PublishOf(t, broker(round, ids[i]));
      && Enabled(c, s, step)
      && Publishing(c, Next(c, s, step), t, query, ids, i + 1, broker, round)
  {
    BatchIsEnabled(c, s, t, query, ids, i, broker, round);
    var reply := broker(round, ids[i]);
    var step := PublishOf(t, reply);
    assert ids[i] in ids;
    PublishMeaning(c, s, t, ids[i], step.stored, step.acked);
    hide Inv, Next, IsResult, Enabled;
    var s' := Next(c, s, step);
    assert Answered(c, query.rows[ids[i]], s'.txs[t].updates[i], reply, query, s');
    forall k | 0 <= k < i
      ensures Answered(c, query.rows[ids[k]], s'.txs[t].updates[k], broker(round, ids[k]), query, s')
    {
      assert s'.txs[t].updates[k] == s.txs[t].updates[k];
    }
  }

  /** An abort leaves the batch as the query found it. */
  lemma AbortLeavesRows(c: Config, s: State, t: nat, query: State, ids: seq<nat>, i: nat, broker: Broker, round: nat,
                        inFlight: bool)
    requires Inv(c, s) && Publishing(c, s, t, query, ids, i, broker, round) && (inFlight ==> i < |ids|)
    ensures Enabled(c, s, Abort(t, inFlight)) && BatchAsFound(Next(c, s, Abort(t, inFlight)), query, ids)
  {
    BatchIsEnabled(c, s, t, query, ids, i, broker, round);
    hide Inv, Answered;
  }

  /** Committing a fully published batch makes its rows what the answers made of them. */
  lemma CommitAnswers(c: Config, s: State, t: nat, query: State, ids: seq<nat>, broker: Broker, round: nat)
    requires Inv(c, s) && Publishing(c, s, t, query, ids, |ids|, broker, round)
    ensures Enabled(c, s, Commit(t)) && BatchAnswered(c, Next(c, s, Commit(t)), query, ids, broker, round)
  {
    BatchIsEnabled(c, s, t, query, ids, |ids|, broker, round);
    ClaimedRows(c, s, t);
    WrittenAt(s.rows, ids, s.txs[t].updates, |ids|);
    hide Inv, Written, IsResult;
    var s' := Next(c, s, Commit(t));
    forall id | id in ids ensures Answered(c, query.rows[id], s'.rows[id], broker(round, id), query, s') {
      var k :| 0 <= k < |ids| && ids[k] == id;
      assert s'.rows[id] == s.txs[t].updates[k];
      assert Answered(c, query.rows[ids[k]], s.txs[t].updates[k], broker(round, ids[k]), query, s);
    }
  }

  /** Time and other replicas' steps leave a claimed batch as it is. */
  lemma PublishingStays(c: Config, s: State, s': State, t: nat, query: State, ids: seq<nat>, i: nat, broker: Broker,
                        round: nat)
    requires Publishing(c, s, t, query, ids, i, broker, round)
    requires t < |s'.txs| && s'.txs[t] == s.txs[t] && s.clock <= s'.clock && |s'.rows| == |s.rows|
    requires forall id | id in ids && id < |s.rows| :: s'.rows[id] == s.rows[id]
    ensures Publishing(c, s', t, query, ids, i, broker, round)
  {
    hide IsResult;
    forall k | 0 <= k < i
      ensures Answered(c, query.rows[ids[k]], s'.txs[t].updates[k], broker(round, ids[k]), query, s')
    {
      assert Answered(c, query.rows[ids[k]], s.txs[t].updates[k], broker(round, ids[k]), query, s);
    }
  }

  /** A commit leaves, of all rows due at the query, only those that others had locked. */
  lemma CommitLeavesLocked(c: Config, query: State, s: State, t: nat, ids: seq<nat>, broker: Broker, round: nat)
    requires Inv(c, s) && Tracked(c, s) && Publishing(c, s, t, query, ids, |ids|, broker, round)
    requires Advanced(c, query, s)
    requires ids == FirstClaimable(query, c.batchSize) && |ids| < c.batchSize
    ensures Enabled(c, s, Commit(t)) && OnlyLockedLeft(query, Next(c, s, Commit(t)))
  {
    BatchIsEnabled(c, s, t, query, ids, |ids|, broker, round);
    CommitPays(c, s, t);
    hide Answered;
    var s' := Next(c, s, Commit(t));
    AdvancesTransitively(c, query, s, s');
    hide Inv, Tracked, Next, Locked, FirstClaimable;
    forall id | 0 <= id < |query.rows| && id < |s'.rows| && Available(s'.rows[id], query.clock)
      ensures Locked(query, id)
    {
      assert NotSooner(query.rows[id], s'.rows[id]);
      assert Claimable(query, id) ==> id in ids;
    }
  }

  /** A step of another transaction leaves a live one and its rows alone. */
  lemma OtherTxKept(c: Config, s: State, step: Step, t: nat)
    requires Inv(c, s) && Enabled(c, s, step) && t < |s.txs| && s.txs[t].phase.Live? && !ActsOn(step, t)
    ensures var s' := Next(c, s, step);
      && t < |s'.txs| && s'.txs[t] == s.txs[t]
      && forall id | id in s.txs[t].ids && id < |s.rows| :: id < |s'.rows| && s'.rows[id] == s.rows[id]
  {
    if step.Commit? {
      CommitWrites(c, s, step.tx);
      LiveClaimsDisjoint(c, s, step.tx, t);
    }
    hide Inv, Written;
  }

  lemma CommitHandles(c: Config, s: State, t: nat)
    requires Inv(c, s) && Tracked(c, s) && Enabled(c, s, Commit(t))
    ensures Handled(Next(c, s, Commit(t)).txs) == Handled(s.txs) + |s.txs[t].ids|
  {
    CommitPays(c, s, t);
  }

  /** Another transaction and its rows, before and after. */
  ghost predicate Untouched(s: State, s': State, t: nat) {
    && t < |s.txs| && t < |s'.txs| && s'.txs[t] == s.txs[t]
    && forall id | id in s.txs[t].ids && id < |s.rows| :: id < |s'.rows| && s'.rows[id] == s.rows[id]
  }

  lemma HandledSince(c: Config, s: State, query: State, s': State, handled: nat)
    requires Advanced(c, s, query) && Handled(s'.txs) >= Handled(query.txs) + handled
    ensures Handled(s'.txs) >= Handled(s.txs) + handled
  {
  }

  lemma HandledGrows(c: Config, s: State, s': State, s'': State)
    requires Advanced(c, s, s') && Advanced(c, s', s'')
    ensures Handled(s.txs) <= Handled(s''.txs)
  {
  }

  /** Every row of a committed batch whose publish was confirmed is PUBLISHED. */
  ghost predicate ConfirmedStay(s: State, claims: seq<seq<nat>>, broker: Broker) {
    forall k, id | 0 <= k < |claims| && id in claims[k] && broker(k, id).Confirmed? ::
      id < |s.rows| && s.rows[id].status == PUBLISHED
  }

  lemma NoClaims(s: State, broker: Broker)
    ensures ConfirmedStay(s, [], broker)
  {
  }

  lemma ConfirmedPersist(c: Config, s: State, query: State, s': State, claims: seq<seq<nat>>, broker: Broker)
    requires ConfirmedStay(s, claims, broker) && Advanced(c, s, query) && Advanced(c, query, s')
    ensures ConfirmedStay(s', claims, broker)
  {
    AdvancesTransitively(c, s, query, s');
    hide Ledger, Handled;
    forall k, id | 0 <= k < |claims| && id in claims[k] && broker(k, id).Confirmed?
      ensures id < |s'.rows| && s'.rows[id].status == PUBLISHED
    {
      assert NotSooner(s.rows[id], s'.rows[id]);
    }
  }

  lemma ConfirmedGrow(c: Config, query: State, s: State, claims: seq<seq<nat>>, ids: seq<nat>, broker: Broker)
    requires ConfirmedStay(s, claims, broker) && BatchAnswered(c, s, query, ids, broker, |claims|)
    ensures ConfirmedStay(s, claims + [ids], broker)
  {
    hide Backoff;
  }

  /** Since `start`, batches that handled `used` rows have committed. */
  ghost predicate Spent(c: Config, start: State, s: State, used: nat) {
    Advanced(c, start, s) && Handled(start.txs) + used <= Handled(s.txs)
  }

  /** They were paid for by the attempts left at `start`. */
  lemma SpentIsPaid(c: Config, start: State, s: State, used: nat)
    requires Spent(c, start, s, used)
    ensures used <= Potential(start.rows, c.maxAttempts)
  {
  }

  lemma SpentAdvances(c: Config, start: State, s: State, used: nat)
    requires Spent(c, start, s, used)
    ensures Advanced(c, start, s)
  {
  }

  lemma NothingSpent(c: Config, s: State)
    ensures Spent(c, s, s, 0)
  {
  }

  lemma BatchSpends(c: Config, start: State, before: State, query: State, after: State, used: nat, handled: nat)
    requires Spent(c, start, before, used) && Advanced(c, before, query) && Advanced(c, query, after)
    requires Handled(after.txs) >= Handled(before.txs) + handled
    ensures Advanced(c, start, query) && Spent(c, start, after, used + handled)
  {
    AdvancesTransitively(c, start, before, query);
    AdvancesTransitively(c, start, query, after);
    hide Advanced;
  }

  /** With no other replica at work when the query ran, nothing that was due then is left. */
  lemma AloneAtTheEnd(c: Config, s: State, query: State, s': State)
    requires Advanced(c, s, query) && Advanced(c, query, s') && OnlyLockedLeft(query, s') && Idle(query)
    ensures NothingDue(s'.rows, query.clock)
  {
  }

  class OutboxRelay {
    const config: Config
    /** Tables and broker, shared with the other replicas. */
    var world: State
    var draining: bool

    ghost predicate Valid()
      reads this`world
    {
      config.batchSize >= 1 && config.maxAttempts >= 1 && Inv(config, world) && Tracked(config, world)
    }

    lemma BatchesAreNotEmpty()
      requires Valid()
      ensures config.batchSize >= 1
    {
    }

    constructor (config: Config, world: State)
      requires config.batchSize >= 1 && config.maxAttempts >= 1 && Inv(config, world) && Tracked(config, world)
      ensures Valid() && this.config == config && this.world == world && !draining
    {
      this.config, this.world, draining := config, world, false;
    }

    method TakeStep(step: Step)
      requires Valid() && Enabled(config, world, step) && !step.Insert?
      modifies this`world
      ensures Valid() && world == Next(config, old(world), step) && Advanced(config, old(world), world)
    {
      NextKeepsInv(config, world, step);
      StepTracks(config, world, step);
      StepAdvances(config, world, step);
      world := Next(config, world, step);
    }

    /**
     * Whatever happens while this replica waits for the database or the broker: time passes,
     * and other replicas claim, publish, commit and abort. No row is inserted.
     */
    method Others(mine: Option<nat>)
      requires Valid() && (mine.Some? ==> mine.value < |world.txs| && world.txs[mine.value].phase.Live?)
      modifies this`world
      ensures Valid() && Advanced(config, old(world), world)
      ensures mine.Some? ==> Untouched(old(world), world, mine.value)
    {
      hide Inv, Tracked, Enabled, Advanced;
      StaysAdvanced(config, world);
      var steps: seq<Step> := *;
      for i := 0 to |steps|
        invariant Valid() && Advanced(config, old(world), world)
        invariant mine.Some? ==> Untouched(old(world), world, mine.value)
      {
        var step := steps[i];
        if Enabled(config, world, step) && !step.Insert? && (mine.None? || !ActsOn(step, mine.value)) {
          ghost var before := world;
          if mine.Some? { OtherTxKept(config, world, step, mine.value); }
          TakeStep(step);
          AdvancesTransitively(config, old(world), before, world);
        }
      }
    }

    /**
     * `drainBatch`: claim, publish row by row, and commit. `broker` answers the publishes of
     * this `round`; at the await `interrupt`, counting from 0, something throws.
     */
    method DrainBatch(broker: Broker, round: nat, interrupt: Option<nat>)
      returns (threw: bool, handled: nat, ghost query: State)
      requires Valid()
      modifies this`world
      ensures Valid() && Advanced(config, old(world), query) && Advanced(config, query, world)
      ensures var ids := FirstClaimable(query, config.batchSize);
        && (threw <==> interrupt.Some? && interrupt.value <= |ids|)
        && handled == (if threw then 0 else |ids|)
        && (if threw then BatchAsFound(world, query, ids) else BatchAnswered(config, world, query, ids, broker, round))
        && Handled(world.txs) >= Handled(old(world).txs) + handled
        && (!threw && handled < config.batchSize ==> OnlyLockedLeft(query, world))
    {
      hide *;
      threw, handled := false, 0;
      Others(None);
      query := world;
      StaysAdvanced(config, world);
      var ids := FirstClaimable(world, config.batchSize);
      var t := |world.txs|;
      ClaimIsEnabled(config, world, broker, round);
      TakeStep(Claim(ids));
      for i := 0 to |ids|
        invariant Valid() && Publishing(config, world, t, query, ids, i, broker, round)
        invariant Advanced(config, query, world) && (interrupt.Some? ==> interrupt.value >= i)
      {
        Await(t, query, ids, i, broker, round);
        if interrupt == Some(i) {
          var inFlight: bool := *;
          AbortBatch(t, query, ids, i, broker, round, inFlight);
          HandledGrows(config, old(world), query, world);
          threw := true;
          return;
        }
        PublishRow(t, query, ids, i, broker, round);
      }
      Await(t, query, ids, |ids|, broker, round);
      if interrupt == Some(|ids|) {
        AbortBatch(t, query, ids, |ids|, broker, round, false);
        HandledGrows(config, old(world), query, world);
        threw := true;
        return;
      }
      CommitBatch(t, query, ids, broker, round);
      handled := |ids|;
      HandledSince(config, old(world), query, world, handled);
    }

    /** Waiting with a batch claimed. */
    method Await(t: nat, ghost query: State, ghost ids: seq<nat>, ghost i: nat, ghost broker: Broker, ghost round: nat)
      requires Valid() && Publishing(config, world, t, query, ids, i, broker, round) && Advanced(config, query, world)
      modifies this`world
      ensures Valid() && Publishing(config, world, t, query, ids, i, broker, round) && Advanced(config, query, world)
    {
      hide Inv, Tracked, Answered, Handled, Potential;
      ghost var before := world;
      Others(Some(t));
      AdvancesTransitively(config, query, before, world);
      PublishingStays(config, before, world, t, query, ids, i, broker, round);
    }

    method PublishRow(t: nat, ghost query: State, ids: seq<nat>, i: nat, broker: Broker, round: nat)
      requires Valid() && Publishing(config, world, t, query, ids, i, broker, round) && Advanced(config, query, world)
      requires i < |ids|
      modifies this`world
      ensures Valid() && Publishing(config, world, t, query, ids, i + 1, broker, round)
      ensures Advanced(config, query, world)
    {
      hide Inv, Tracked, Publishing, Advanced, Enabled, Next;
      ghost var before := world;
      PublishAnswered(config, world, t, query, ids, i, broker, round);
      TakeStep(PublishOf(t, broker(round, ids[i])));
      AdvancesTransitively(config, query, before, world);
    }

    method AbortBatch(t: nat, ghost query: State, ghost ids: seq<nat>, ghost i: nat, ghost broker: Broker,
                      ghost round: nat, inFlight: bool)
      requires Valid() && Publishing(config, world, t, query, ids, i, broker, round) && Advanced(config, query, world)
      requires inFlight ==> i < |ids|
      modifies this`world
      ensures Valid() && Advanced(config, query, world) && BatchAsFound(world, query, ids)
    {
      ghost var before := world;
      BatchIsEnabled(config, world, t, query, ids, i, broker, round);
      AbortLeavesRows(config, world, t, query, ids, i, broker, round, inFlight);
      hide Inv, Tracked, Publishing, Advanced, Enabled, Next, BatchAsFound;
      TakeStep(Abort(t, inFlight));
      AdvancesTransitively(config, query, before, world);
    }

    method CommitBatch(t: nat, ghost query: State, ids: seq<nat>, ghost broker: Broker, ghost round: nat)
      requires Valid() && Publishing(config, world, t, query, ids, |ids|, broker, round)
      requires Advanced(config, query, world)
      requires ids == FirstClaimable(query, config.batchSize)
      modifies this`world
      ensures Valid() && Advanced(config, query, world) && BatchAnswered(config, world, query, ids, broker, round)
      ensures Handled(world.txs) >= Handled(query.txs) + |ids|
      ensures |ids| < config.batchSize ==> OnlyLockedLeft(query, world)
    {
      ghost var before := world;
      CommitAnswers(config, world, t, query, ids, broker, round);
      if |ids| < config.batchSize { CommitLeavesLocked(config, query, world, t, ids, broker, round); }
      CommitHandles(config, world, t);
      assert world.txs[t].ids == ids;
      hide Inv, Tracked, Publishing, Enabled, Next, FirstClaimable, BatchAnswered, OnlyLockedLeft, NotSooner;
      TakeStep(Commit(t));
      AdvancesTransitively(config, query, before, world);
    }

    /**
     * `tick`: drain batch after batch until one is not full. It always ends, whatever the
     * other replicas do meanwhile: each full batch uses up `batchSize` chances. `claims` are
     * the rows of the batches that committed: every one whose publish was confirmed stays
     * PUBLISHED. If nothing threw, every row due and not locked at the last query was
     * published then, and became what the broker's answer makes of it.
     */
    method Tick(ready: bool, broker: Broker, interrupts: nat -> Option<nat>)
      returns (ran: bool, threw: bool, batches: nat, ghost query: State, ghost claims: seq<seq<nat>>)
      requires Valid()
      modifies this`world, this`draining
      ensures Valid() && draining == old(draining)
      ensures ran <==> !old(draining) && ready
      ensures !ran ==> world == old(world) && claims == []
      ensures Advanced(config, old(world), world)
      ensures ran ==> batches >= 1 && (batches - 1) * config.batchSize <= Potential(old(world.rows), config.maxAttempts)
      ensures ran ==> |claims| == if threw then batches - 1 else batches
      ensures threw ==> ran && interrupts(batches - 1).Some?
      ensures ConfirmedStay(world, claims, broker)
      ensures ran && !threw ==>
        && Advanced(config, old(world), query) && OnlyLockedLeft(query, world)
        && claims[batches - 1] == FirstClaimable(query, config.batchSize) && |claims[batches - 1]| < config.batchSize
        && BatchAnswered(config, world, query, claims[batches - 1], broker, batches - 1)
      ensures ran && !threw && Idle(query) ==> NothingDue(world.rows, query.clock)
    {
      hide *;
      BatchesAreNotEmpty();
      StaysAdvanced(config, world);
      ran, threw, batches, query, claims := false, false, 0, world, [];
      NoClaims(world, broker);
      if draining || !ready { return; }
      ran, draining := true, true;
      var full := true;
      ghost var start, used: nat := world, 0;
      NothingSpent(config, world);
      while full
        invariant Valid() && Spent(config, start, world, used) && used <= Potential(start.rows, config.maxAttempts)
        invariant full ==> !threw && used == batches * config.batchSize
        invariant !full ==> batches >= 1 && used >= (batches - 1) * config.batchSize
        invariant |claims| == if threw then batches - 1 else batches
        invariant threw ==> batches >= 1 && interrupts(batches - 1).Some?
        invariant ConfirmedStay(world, claims, broker)
        invariant !full && !threw ==>
          && Left(start, query, broker, batches - 1)
          && claims[batches - 1] == FirstClaimable(query, config.batchSize) && |claims[batches - 1]| < config.batchSize
        decreases full, Potential(start.rows, config.maxAttempts) - used
      {
        var handled;
        threw, handled, query, claims := DrainCounted(broker, batches, interrupts(batches), start, used, claims);
        SpentIsPaid(config, start, world, used + handled);
        assert (batches + 1) * config.batchSize == batches * config.batchSize + config.batchSize;
        batches, used := batches + 1, used + handled;
        full := !threw && handled >= config.batchSize;
      }
      draining := false;
      SpentAdvances(config, start, world, used);
      if !threw {
        LeftMeaning(start, query, broker, batches - 1);
        if Idle(query) { AloneAtTheEnd(config, start, query, world); }
      }
    }

    /** How a tick's last batch left things. */
    ghost predicate Left(start: State, query: State, broker: Broker, round: nat)
      reads this`world
    {
      && Advanced(config, start, query) && Advanced(config, query, world) && OnlyLockedLeft(query, world)
      && BatchAnswered(config, world, query, FirstClaimable(query, config.batchSize), broker, round)
    }

    lemma LeftMeaning(start: State, query: State, broker: Broker, round: nat)
      requires Left(start, query, broker, round)
      ensures Advanced(config, start, query) && Advanced(config, query, world) && OnlyLockedLeft(query, world)
      ensures BatchAnswered(config, world, query, FirstClaimable(query, config.batchSize), broker, round)
    {
    }

    /** One batch of a tick that began at `start`, with its rows counted and its claims noted. */
    method DrainCounted(broker: Broker, round: nat, interrupt: Option<nat>, ghost start: State, ghost used: nat,
                        ghost claims: seq<seq<nat>>)
      returns (threw: bool, handled: nat, ghost query: State, ghost claims': seq<seq<nat>>)
      requires Valid() && Spent(config, start, world, used)
      requires |claims| == round && ConfirmedStay(world, claims, broker)
      modifies this`world
      ensures Valid() && Spent(config, start, world, used + handled) && handled <= config.batchSize
      ensures threw ==> interrupt.Some? && handled == 0
      ensures claims' == if threw then claims else claims + [FirstClaimable(query, config.batchSize)]
      ensures !threw ==> handled == |FirstClaimable(query, config.batchSize)|
      ensures ConfirmedStay(world, claims', broker)
      ensures !threw && handled < config.batchSize ==> Left(start, query, broker, round)
    {
      hide *;
      ghost var before := world;
      threw, handled, query := DrainBatch(broker, round, interrupt);
      claims' := if threw then claims else claims + [FirstClaimable(query, config.batchSize)];
      BatchSpends(config, start, before, query, world, used, handled);
      ConfirmedPersist(config, before, query, world, claims, broker);
      if !threw {
        ConfirmedGrow(config, query, world, claims, FirstClaimable(query, config.batchSize), broker);
        if handled < config.batchSize { LeftSo(start, query, broker, round); }
      }
    }

    lemma LeftSo(start: State, query: State, broker: Broker, round: nat)
      requires Advanced(config, start, query) && Advanced(config, query, world) && OnlyLockedLeft(query, world)
      requires BatchAnswered(config, world, query, FirstClaimable(query, config.batchSize), broker, round)
      ensures Left(start, query, broker, round)
    {
    }
  }
}
