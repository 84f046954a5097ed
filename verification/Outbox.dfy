/**
 * The transactional outbox: producers append rows, any number of relay replicas claim
 * disjoint batches inside database transactions, publish each row to the broker with a
 * confirm, and commit or abort. This module is the protocol; `OutboxRelay` is the loop.
 */
module Outbox {
  datatype Status = PENDING | PUBLISHED | FAILED

  /**
   * A row of `outbox_messages`; its id is its rank. Times are milliseconds of one clock.
   * `failures` is the history of committed failed attempts (the table keeps only their number).
   */
  datatype Row = Row(status: Status, attempts: nat, availableAt: nat, createdAt: nat, failures: seq<nat>)

  const BACKOFF_CAP := 60_000

  function Pow2(n: nat): nat { if n == 0 then 1 else 2 * Pow2(n - 1) }

  function Backoff(attempts: nat): nat {
    var b := Pow2(attempts) * 1000;
    if b <= BACKOFF_CAP then b else BACKOFF_CAP
  }

  function NewRow(now: nat): Row { Row(PENDING, 0, now, now, []) }

  predicate Available(row: Row, now: nat) { row.status == PENDING && row.availableAt <= now }

  function AfterAck(row: Row): Row { row.(status := PUBLISHED) }

  function AfterFailure(row: Row, maxAttempts: nat, now: nat): Row {
    var attempts := row.attempts + 1;
    Row(if attempts >= maxAttempts then FAILED else PENDING, attempts, now + Backoff(attempts), row.createdAt,
        row.failures + [now])
  }

  // ---- Row life cycle ----------------------------------------------------------

  /** Time that must pass between the first attempt and the attempt after `k` failures. */
  function BackoffSum(k: nat): nat { if k == 0 then 0 else BackoffSum(k - 1) + Backoff(k) }

  ghost predicate RowValid(row: Row, maxAttempts: nat) {
    && (row.status == PENDING ==> row.attempts < maxAttempts)
    && (row.status == FAILED ==> row.attempts == maxAttempts)
    && row.attempts <= maxAttempts
    && |row.failures| == row.attempts
    && (row.attempts > 0 ==> row.failures[0] >= row.createdAt)
    && (forall i | 0 <= i < row.attempts - 1 :: row.failures[i + 1] >= row.failures[i] + Backoff(i + 1))
    && row.availableAt ==
         if row.attempts == 0 then row.createdAt else row.failures[row.attempts - 1] + Backoff(row.attempts)
  }

  lemma NewRowValid(maxAttempts: nat, now: nat)
    requires maxAttempts >= 1
    ensures RowValid(NewRow(now), maxAttempts)
  {
  }

  /** Handling a row that was available keeps it valid and uses up one of its chances. */
  lemma HandlingKeepsRowValid(row: Row, maxAttempts: nat, claimed: nat, now: nat)
    requires RowValid(row, maxAttempts) && Available(row, claimed) && claimed <= now
    ensures RowValid(AfterAck(row), maxAttempts) && RowValid(AfterFailure(row, maxAttempts, now), maxAttempts)
  {
    hide Backoff;
  }

  /** The `k`-th failure comes no sooner than all the delays before it. */
  lemma {:induction false} FailureNotBefore(row: Row, maxAttempts: nat, k: nat)
    requires RowValid(row, maxAttempts) && 1 <= k <= row.attempts
    ensures row.failures[k - 1] >= row.createdAt + BackoffSum(k - 1)
  {
    if k > 1 {
      FailureNotBefore(row, maxAttempts, k - 1);
    }
  }

  /** A parked row has failed `maxAttempts` times, the last time after every delay in between. */
  lemma ParkedNotBefore(row: Row, maxAttempts: nat)
    requires maxAttempts >= 1 && RowValid(row, maxAttempts) && row.status == FAILED
    ensures |row.failures| == maxAttempts
    ensures row.failures[maxAttempts - 1] >= row.createdAt + BackoffSum(maxAttempts - 1)
  {
    FailureNotBefore(row, maxAttempts, maxAttempts);
  }

  /** With the default cap of 10 attempts, that is at least 302 seconds after the row was written. */
  lemma DefaultParkingDelay(row: Row)
    requires RowValid(row, 10) && row.status == FAILED
    ensures row.failures[9] >= row.createdAt + 302_000
  {
    ParkedNotBefore(row, 10);
    assert Backoff(1) == 2000 && Backoff(2) == 4000 && Backoff(3) == 8000 && Backoff(4) == 16000 && Backoff(5) == 32000;
    assert Pow2(6) == 64;
    Pow2Grows(6, 7); Pow2Grows(6, 8); Pow2Grows(6, 9);
    assert BackoffSum(5) == 62000;
    assert BackoffSum(7) == BackoffSum(5) + Backoff(6) + Backoff(7);
    assert BackoffSum(9) == BackoffSum(7) + Backoff(8) + Backoff(9);
  }

  lemma {:induction false} Pow2Grows(a: nat, b: nat)
    requires a <= b
    ensures Pow2(a) <= Pow2(b)
  {
    if a < b { Pow2Grows(a, b - 1); }
  }

  /** Two seconds doubling up to half a minute, and a minute from then on. */
  lemma BackoffMeaning(k: nat)
    ensures Backoff(k) ==
      if k == 0 then 1_000 else if k == 1 then 2_000 else if k == 2 then 4_000
      else if k == 3 then 8_000 else if k == 4 then 16_000 else if k == 5 then 32_000 else 60_000
  {
    assert Pow2(3) == 8 && Pow2(4) == 16;
    assert Pow2(5) == 2 * Pow2(4) && Pow2(6) == 2 * Pow2(5);
    if k >= 6 { Pow2Grows(6, k); }
  }

  // ---- The protocol --------------------------------------------------------------

  /** An aborted transaction may have had a publish in flight whose copy arrives later. */
  datatype Phase = Live | Committed | Aborted(inFlight: bool)

  /** One relay transaction: the claimed rows and the updates written for the first of them. */
  datatype Tx = Tx(claimedAt: nat, ids: seq<nat>, updates: seq<Row>, phase: Phase)

  /** A message the broker stores, and whether its confirm reached the relay. */
  datatype Copy = Copy(id: nat, tx: nat, acked: bool)

  datatype State = State(clock: nat, rows: seq<Row>, txs: seq<Tx>, broker: seq<Copy>)
  datatype Config = Config(batchSize: nat, maxAttempts: nat)

  datatype Step =
    | Wait(now: nat)
    | Insert
    | Claim(ids: seq<nat>)
    | Publish(tx: nat, stored: bool, acked: bool)
    | Commit(tx: nat)
    | Abort(tx: nat, inFlight: bool)
    | LateCopy(tx: nat, acked: bool)

  predicate Distinct(ids: seq<nat>) { forall i, j | 0 <= i < j < |ids| :: ids[i] != ids[j] }

  predicate Locked(s: State, id: nat) { exists t | 0 <= t < |s.txs| :: s.txs[t].phase.Live? && id in s.txs[t].ids }

  predicate Enabled(c: Config, s: State, step: Step) {
    match step
    case Wait(now) => now >= s.clock
    case Insert => true
    case Claim(ids) =>
      && |ids| <= c.batchSize && Distinct(ids)
      && forall id | id in ids :: id < |s.rows| && Available(s.rows[id], s.clock) && !Locked(s, id)
    case Publish(t, stored, acked) =>
      t < |s.txs| && s.txs[t].phase.Live? && |s.txs[t].updates| < |s.txs[t].ids| && (acked ==> stored)
      && s.txs[t].ids[|s.txs[t].updates|] < |s.rows|
    case Commit(t) => t < |s.txs| && s.txs[t].phase.Live? && |s.txs[t].updates| == |s.txs[t].ids|
    case Abort(t, inFlight) =>
      t < |s.txs| && s.txs[t].phase.Live? && (inFlight ==> |s.txs[t].updates| < |s.txs[t].ids|)
    case LateCopy(t, acked) =>
      t < |s.txs| && s.txs[t].phase == Aborted(true) && |s.txs[t].updates| < |s.txs[t].ids|
  }

  /** The table after writing the first `n` updates. */
  function Written(rows: seq<Row>, ids: seq<nat>, updates: seq<Row>, n: nat): (r: seq<Row>)
    requires n <= |ids| && n <= |updates|
    ensures |r| == |rows|
  {
    if n == 0 then rows
    else
      var before := Written(rows, ids, updates, n - 1);
      if ids[n - 1] < |rows| then before[ids[n - 1] := updates[n - 1]] else before
  }

  function Next(c: Config, s: State, step: Step): State
    requires Enabled(c, s, step)
  {
    match step
    case Wait(now) => s.(clock := now)
    case Insert => s.(rows := s.rows + [NewRow(s.clock)])
    case Claim(ids) => s.(txs := s.txs + [Tx(s.clock, ids, [], Live)])
    case Publish(t, stored, acked) =>
      var tx := s.txs[t];
      var id := tx.ids[|tx.updates|];
      var update := if acked then AfterAck(s.rows[id]) else AfterFailure(s.rows[id], c.maxAttempts, s.clock);
      s.(txs := s.txs[t := tx.(updates := tx.updates + [update])],
         broker := s.broker + if stored then [Copy(id, t, acked)] else [])
    case Commit(t) =>
      s.(rows := Written(s.rows, s.txs[t].ids, s.txs[t].updates, |s.txs[t].ids|),
         txs := s.txs[t := s.txs[t].(phase := Committed)])
    case Abort(t, inFlight) => s.(txs := s.txs[t := s.txs[t].(phase := Aborted(inFlight))])
    case LateCopy(t, acked) =>
      s.(txs := s.txs[t := s.txs[t].(phase := Aborted(false))],
         broker := s.broker + [Copy(s.txs[t].ids[|s.txs[t].updates|], t, acked)])
  }

  /** The state after a run from empty tables; a step that is not enabled does nothing. */
  function Exec(c: Config, steps: seq<Step>): State {
    if steps == [] then State(0, [], [], [])
    else
      var s, step := Exec(c, steps[..|steps| - 1]), steps[|steps| - 1];
      if Enabled(c, s, step) then Next(c, s, step) else s
  }

  // ---- The invariant ----------------------------------------------------------------

  ghost predicate RowsValid(c: Config, s: State) {
    forall id | 0 <= id < |s.rows| :: RowValid(s.rows[id], c.maxAttempts)
  }

  ghost predicate TxValid(c: Config, s: State, tx: Tx) {
    && tx.claimedAt <= s.clock && |tx.updates| <= |tx.ids| && Distinct(tx.ids)
    && (forall id | id in tx.ids :: id < |s.rows|)
    && (forall i | 0 <= i < |tx.updates| :: RowValid(tx.updates[i], c.maxAttempts))
    && (tx.phase.Live? ==> forall id | id in tx.ids :: Available(s.rows[id], tx.claimedAt))
  }

  ghost predicate TxsValid(c: Config, s: State) {
    && (forall t | 0 <= t < |s.txs| :: TxValid(c, s, s.txs[t]))
    && (forall t, u, id | 0 <= t < u < |s.txs| && s.txs[t].phase.Live? && s.txs[u].phase.Live? ::
          !(id in s.txs[t].ids && id in s.txs[u].ids))
  }

  /** The transaction has recorded an ack for this row. */
  ghost predicate Acked(tx: Tx, id: nat) {
    |tx.updates| <= |tx.ids| && exists i | 0 <= i < |tx.updates| :: tx.ids[i] == id && tx.updates[i].status == PUBLISHED
  }

  /** The copy was confirmed to a transaction that has not aborted. */
  ghost predicate Sound(s: State, copy: Copy) {
    copy.acked && copy.tx < |s.txs| && !s.txs[copy.tx].phase.Aborted?
  }

  ghost predicate CopyValid(s: State, copy: Copy) {
    && copy.tx < |s.txs| && copy.id in s.txs[copy.tx].ids && copy.id < |s.rows|
    && (copy.acked ==>
          match s.txs[copy.tx].phase
          case Committed => s.rows[copy.id].status == PUBLISHED
          case Live => Acked(s.txs[copy.tx], copy.id)
          case Aborted(inFlight) => inFlight ==> Acked(s.txs[copy.tx], copy.id))
  }

  ghost predicate CopiesValid(s: State) {
    && (forall k | 0 <= k < |s.broker| :: CopyValid(s, s.broker[k]))
    && (forall k, l | 0 <= k < l < |s.broker|
                      && s.broker[k].id == s.broker[l].id && s.broker[k].acked && s.broker[l].acked ::
          && s.broker[k].tx != s.broker[l].tx
          && !(Sound(s, s.broker[k]) && Sound(s, s.broker[l])))
  }

  /** The row counts as delivered: it is PUBLISHED, or a live transaction has its ack. */
  ghost predicate Delivered(s: State, id: nat) {
    || (id < |s.rows| && s.rows[id].status == PUBLISHED)
    || exists t | 0 <= t < |s.txs| :: s.txs[t].phase.Live? && Acked(s.txs[t], id)
  }

  ghost predicate HasCopies(s: State) {
    forall id: nat | Delivered(s, id) :: exists k | 0 <= k < |s.broker| :: s.broker[k].id == id && Sound(s, s.broker[k])
  }

  ghost predicate Inv(c: Config, s: State) {
    RowsValid(c, s) && TxsValid(c, s) && CopiesValid(s) && HasCopies(s)
  }

  // ---- Every step keeps the invariant -------------------------------------------------

  lemma {:induction false} WrittenAt(rows: seq<Row>, ids: seq<nat>, updates: seq<Row>, n: nat)
    requires n <= |ids| && n <= |updates| && Distinct(ids)
    ensures forall id | 0 <= id < |rows| && id !in ids[..n] :: Written(rows, ids, updates, n)[id] == rows[id]
    ensures forall i | 0 <= i < n && ids[i] < |rows| :: Written(rows, ids, updates, n)[ids[i]] == updates[i]
  {
    if n > 0 {
      WrittenAt(rows, ids, updates, n - 1);
      assert ids[..n] == ids[..n - 1] + [ids[n - 1]];
    }
  }

  lemma WaitKeepsInv(c: Config, s: State, now: nat)
    requires Inv(c, s) && now >= s.clock
    ensures Inv(c, s.(clock := now))
  {
    var s' := s.(clock := now);
    assert forall t | 0 <= t < |s.txs| :: TxValid(c, s, s.txs[t]);
    assert forall k | 0 <= k < |s.broker| :: CopyValid(s, s.broker[k]);
    assert forall id | Delivered(s', id) :: Delivered(s, id);
  }

  lemma InsertKeepsInv(c: Config, s: State)
    requires Inv(c, s) && c.maxAttempts >= 1
    ensures Inv(c, Next(c, s, Insert))
  {
    var s' := Next(c, s, Insert);
    NewRowValid(c.maxAttempts, s.clock);
    forall t | 0 <= t < |s.txs| ensures TxValid(c, s', s'.txs[t]) {
      assert TxValid(c, s, s.txs[t]);
    }
    assert forall k | 0 <= k < |s.broker| :: CopyValid(s, s.broker[k]);
    assert forall id | Delivered(s', id) :: Delivered(s, id);
  }

  lemma ClaimKeepsInv(c: Config, s: State, ids: seq<nat>)
    requires Inv(c, s) && Enabled(c, s, Claim(ids))
    ensures Inv(c, Next(c, s, Claim(ids)))
  {
    hide RowValid;
    var s' := Next(c, s, Claim(ids));
    forall t | 0 <= t < |s.txs| ensures TxValid(c, s', s'.txs[t]) {
      assert TxValid(c, s, s.txs[t]);
    }
    forall t, id | 0 <= t < |s.txs| && s.txs[t].phase.Live? && id in s.txs[t].ids ensures id !in ids {
      assert id in ids ==> Locked(s, id);
    }
    assert forall k | 0 <= k < |s.broker| :: CopyValid(s, s.broker[k]);
    assert forall id | Delivered(s', id) :: Delivered(s, id);
  }

  lemma AbortKeepsCopies(c: Config, s: State, t: nat, inFlight: bool)
    requires Inv(c, s) && Enabled(c, s, Abort(t, inFlight))
    ensures CopiesValid(Next(c, s, Abort(t, inFlight)))
  {
    hide RowValid;
    var s' := Next(c, s, Abort(t, inFlight));
    forall k | 0 <= k < |s.broker|
      ensures CopyValid(s', s'.broker[k]) && (Sound(s', s'.broker[k]) ==> Sound(s, s.broker[k]))
    {
      assert CopyValid(s, s.broker[k]);
    }
  }

  lemma AbortKeepsInv(c: Config, s: State, t: nat, inFlight: bool)
    requires Inv(c, s) && Enabled(c, s, Abort(t, inFlight))
    ensures Inv(c, Next(c, s, Abort(t, inFlight)))
  {
    hide RowValid;
    var s' := Next(c, s, Abort(t, inFlight));
    AbortKeepsCopies(c, s, t, inFlight);
    assert TxValid(c, s, s.txs[t]);
    forall u | 0 <= u < |s.txs| ensures TxValid(c, s', s'.txs[u]) {
      assert TxValid(c, s, s.txs[u]);
    }
    forall id: nat | Delivered(s', id)
      ensures exists k | 0 <= k < |s.broker| :: s.broker[k].id == id && Sound(s', s.broker[k])
    {
      assert Delivered(s, id);
      var k :| 0 <= k < |s.broker| && s.broker[k].id == id && Sound(s, s.broker[k]);
      assert CopyValid(s, s.broker[k]);
      assert s.broker[k].tx != t;
      assert Sound(s', s'.broker[k]);
    }
  }

  lemma LateCopyKeepsCopies(c: Config, s: State, t: nat, acked: bool)
    requires Inv(c, s) && Enabled(c, s, LateCopy(t, acked))
    ensures CopiesValid(Next(c, s, LateCopy(t, acked)))
  {
    var s' := Next(c, s, LateCopy(t, acked));
    assert TxValid(c, s, s.txs[t]);
    forall k | 0 <= k < |s'.broker| ensures CopyValid(s', s'.broker[k]) {
      if k < |s.broker| { assert CopyValid(s, s.broker[k]); }
    }
    NoEarlierAck(c, s, t);
    assert forall k | 0 <= k < |s.broker| :: Sound(s', s'.broker[k]) == Sound(s, s.broker[k]);
  }

  lemma LateCopyKeepsInv(c: Config, s: State, t: nat, acked: bool)
    requires Inv(c, s) && Enabled(c, s, LateCopy(t, acked))
    ensures Inv(c, Next(c, s, LateCopy(t, acked)))
  {
    var s' := Next(c, s, LateCopy(t, acked));
    LateCopyKeepsCopies(c, s, t, acked);
    forall u | 0 <= u < |s.txs| ensures TxValid(c, s', s'.txs[u]) {
      assert TxValid(c, s, s.txs[u]);
    }
    forall id: nat | Delivered(s', id)
      ensures exists k | 0 <= k < |s'.broker| :: s'.broker[k].id == id && Sound(s', s'.broker[k])
    {
      assert Delivered(s, id);
      var k :| 0 <= k < |s.broker| && s.broker[k].id == id && Sound(s, s.broker[k]);
      assert Sound(s', s'.broker[k]);
    }
  }

  /** The row a transaction publishes next has not been confirmed to it before. */
  lemma NoEarlierAck(c: Config, s: State, t: nat)
    requires Inv(c, s) && t < |s.txs| && |s.txs[t].updates| < |s.txs[t].ids|
    requires s.txs[t].phase.Live? || s.txs[t].phase == Aborted(true)
    ensures forall k | 0 <= k < |s.broker| && s.broker[k].acked && s.broker[k].id == s.txs[t].ids[|s.txs[t].updates|] ::
      s.broker[k].tx != t
  {
    var tx := s.txs[t];
    assert TxValid(c, s, tx);
    forall k | 0 <= k < |s.broker| && s.broker[k].acked && s.broker[k].tx == t
      ensures s.broker[k].id != tx.ids[|tx.updates|]
    {
      assert CopyValid(s, s.broker[k]);
      var i :| 0 <= i < |tx.updates| && tx.ids[i] == s.broker[k].id && tx.updates[i].status == PUBLISHED;
    }
  }

  /** No transaction that has not aborted holds an ack of a row claimed by a live one that has none. */
  lemma NoSoundCopy(c: Config, s: State, t: nat)
    requires Inv(c, s) && t < |s.txs| && s.txs[t].phase.Live? && |s.txs[t].updates| < |s.txs[t].ids|
    ensures forall k | 0 <= k < |s.broker| && s.broker[k].id == s.txs[t].ids[|s.txs[t].updates|] ::
      !Sound(s, s.broker[k])
  {
    NoEarlierAck(c, s, t);
    var id := s.txs[t].ids[|s.txs[t].updates|];
    assert TxValid(c, s, s.txs[t]) && id in s.txs[t].ids;
    forall k | 0 <= k < |s.broker| && s.broker[k].id == id ensures !Sound(s, s.broker[k]) {
      assert CopyValid(s, s.broker[k]);
      var u := s.broker[k].tx;
      assert id in s.txs[u].ids;
      assert u != t ==> !s.txs[u].phase.Live?;
    }
  }

  /** A publish adds its outcome, and so its ack, to the transaction. */
  lemma PublishAcks(c: Config, s: State, t: nat, stored: bool, acked: bool)
    requires Inv(c, s) && Enabled(c, s, Publish(t, stored, acked))
    ensures var tx, tx' := s.txs[t], Next(c, s, Publish(t, stored, acked)).txs[t];
      forall id :: Acked(tx', id) <==> Acked(tx, id) || (acked && id == tx.ids[|tx.updates|])
  {
    hide Backoff;
    var tx, tx' := s.txs[t], Next(c, s, Publish(t, stored, acked)).txs[t];
    var n := |tx.updates|;
    assert TxValid(c, s, tx);
    assert tx.ids[n] in tx.ids;
    assert tx'.updates[n].status == PUBLISHED <==> acked;
    assert tx'.ids == tx.ids && forall i | 0 <= i < n :: tx'.updates[i] == tx.updates[i];
  }

  lemma PublishKeepsTxs(c: Config, s: State, t: nat, stored: bool, acked: bool)
    requires Inv(c, s) && Enabled(c, s, Publish(t, stored, acked))
    ensures TxsValid(c, Next(c, s, Publish(t, stored, acked)))
  {
    hide Backoff, RowValid;
    var s' := Next(c, s, Publish(t, stored, acked));
    var tx := s.txs[t];
    var id := tx.ids[|tx.updates|];
    assert TxValid(c, s, tx) && id in tx.ids;
    HandlingKeepsRowValid(s.rows[id], c.maxAttempts, tx.claimedAt, s.clock);
    forall u | 0 <= u < |s.txs| ensures TxValid(c, s', s'.txs[u]) {
      assert TxValid(c, s, s.txs[u]);
    }
  }

  lemma PublishKeepsCopies(c: Config, s: State, t: nat, stored: bool, acked: bool)
    requires Inv(c, s) && Enabled(c, s, Publish(t, stored, acked))
    ensures CopiesValid(Next(c, s, Publish(t, stored, acked)))
  {
    var s' := Next(c, s, Publish(t, stored, acked));
    PublishAcks(c, s, t, stored, acked);
    hide AfterAck, AfterFailure, Acked;
    assert TxValid(c, s, s.txs[t]);
    forall k | 0 <= k < |s'.broker| ensures CopyValid(s', s'.broker[k]) {
      if k < |s.broker| { assert CopyValid(s, s.broker[k]); }
    }
    NoSoundCopy(c, s, t);
    NoEarlierAck(c, s, t);
    assert forall k | 0 <= k < |s.broker| :: Sound(s', s'.broker[k]) == Sound(s, s.broker[k]);
  }

  lemma PublishKeepsInv(c: Config, s: State, t: nat, stored: bool, acked: bool)
    requires Inv(c, s) && Enabled(c, s, Publish(t, stored, acked))
    ensures Inv(c, Next(c, s, Publish(t, stored, acked)))
  {
    var s' := Next(c, s, Publish(t, stored, acked));
    PublishAcks(c, s, t, stored, acked);
    PublishKeepsTxs(c, s, t, stored, acked);
    PublishKeepsCopies(c, s, t, stored, acked);
    hide AfterAck, AfterFailure, Acked, RowValid;
    forall x: nat | Delivered(s', x)
      ensures exists k | 0 <= k < |s'.broker| :: s'.broker[k].id == x && Sound(s', s'.broker[k])
    {
      if acked && x == s.txs[t].ids[|s.txs[t].updates|] {
        assert Sound(s', s'.broker[|s.broker|]);
      } else {
        assert Delivered(s, x);
        var k :| 0 <= k < |s.broker| && s.broker[k].id == x && Sound(s, s.broker[k]);
        assert Sound(s', s'.broker[k]);
      }
    }
  }

  /** A commit writes exactly the transaction's updates. */
  lemma CommitWrites(c: Config, s: State, t: nat)
    requires Inv(c, s) && Enabled(c, s, Commit(t))
    ensures var tx, rows' := s.txs[t], Next(c, s, Commit(t)).rows;
      && |rows'| == |s.rows|
      && (forall id | 0 <= id < |s.rows| && id !in tx.ids :: rows'[id] == s.rows[id])
      && (forall id | 0 <= id < |s.rows| && id in tx.ids ::
            && s.rows[id].status == PENDING && RowValid(rows'[id], c.maxAttempts)
            && (rows'[id].status == PUBLISHED <==> Acked(tx, id)))
  {
    hide RowValid;
    var tx, rows' := s.txs[t], Next(c, s, Commit(t)).rows;
    assert TxValid(c, s, tx);
    WrittenAt(s.rows, tx.ids, tx.updates, |tx.ids|);
    assert tx.ids[..|tx.ids|] == tx.ids;
    forall id | 0 <= id < |s.rows| && id in tx.ids
      ensures RowValid(rows'[id], c.maxAttempts) && (rows'[id].status == PUBLISHED <==> Acked(tx, id))
    {
      var i :| 0 <= i < |tx.ids| && tx.ids[i] == id;
      assert rows'[id] == tx.updates[i];
    }
  }

  lemma CommitKeepsTxs(c: Config, s: State, t: nat)
    requires Inv(c, s) && Enabled(c, s, Commit(t))
    ensures TxsValid(c, Next(c, s, Commit(t)))
  {
    var s' := Next(c, s, Commit(t));
    CommitWrites(c, s, t);
    hide RowValid, Written, Acked;
    forall u | 0 <= u < |s.txs| ensures TxValid(c, s', s'.txs[u]) {
      assert TxValid(c, s, s.txs[u]);
      if s'.txs[u].phase.Live? {
        assert forall id | id in s.txs[u].ids :: id !in s.txs[t].ids;
      }
    }
  }

  lemma CommitKeepsCopies(c: Config, s: State, t: nat)
    requires Inv(c, s) && Enabled(c, s, Commit(t))
    ensures CopiesValid(Next(c, s, Commit(t)))
  {
    var s' := Next(c, s, Commit(t));
    CommitWrites(c, s, t);
    hide RowValid, Written, Acked;
    forall k | 0 <= k < |s.broker| ensures CopyValid(s', s'.broker[k]) {
      assert CopyValid(s, s.broker[k]);
    }
    assert forall k | 0 <= k < |s.broker| :: Sound(s', s'.broker[k]) == Sound(s, s.broker[k]);
  }

  lemma CommitKeepsInv(c: Config, s: State, t: nat)
    requires Inv(c, s) && Enabled(c, s, Commit(t))
    ensures Inv(c, Next(c, s, Commit(t)))
  {
    var s' := Next(c, s, Commit(t));
    CommitWrites(c, s, t);
    CommitKeepsTxs(c, s, t);
    CommitKeepsCopies(c, s, t);
    hide RowValid, Written, Acked;
    forall id | 0 <= id < |s.rows| ensures RowValid(s'.rows[id], c.maxAttempts) {
      assert RowValid(s.rows[id], c.maxAttempts);
    }
    forall id: nat | Delivered(s', id)
      ensures exists k | 0 <= k < |s'.broker| :: s'.broker[k].id == id && Sound(s', s'.broker[k])
    {
      assert Delivered(s, id);
      var k :| 0 <= k < |s.broker| && s.broker[k].id == id && Sound(s, s.broker[k]);
      assert Sound(s', s'.broker[k]);
    }
  }

  lemma NextKeepsInv(c: Config, s: State, step: Step)
    requires c.maxAttempts >= 1 && Inv(c, s) && Enabled(c, s, step)
    ensures Inv(c, Next(c, s, step))
  {
    match step
    case Wait(now) => WaitKeepsInv(c, s, now);
    case Insert => InsertKeepsInv(c, s);
    case Claim(ids) => ClaimKeepsInv(c, s, ids);
    case Publish(t, stored, acked) => PublishKeepsInv(c, s, t, stored, acked);
    case Commit(t) => CommitKeepsInv(c, s, t);
    case Abort(t, inFlight) => AbortKeepsInv(c, s, t, inFlight);
    case LateCopy(t, acked) => LateCopyKeepsInv(c, s, t, acked);
  }

  lemma {:induction false} EveryRunKeepsInv(c: Config, steps: seq<Step>)
    requires c.maxAttempts >= 1
    ensures Inv(c, Exec(c, steps))
  {
    if steps != [] {
      EveryRunKeepsInv(c, steps[..|steps| - 1]);
      var s := Exec(c, steps[..|steps| - 1]);
      if Enabled(c, s, steps[|steps| - 1]) {
        NextKeepsInv(c, s, steps[|steps| - 1]);
      }
    }
  }

  // ---- What it means --------------------------------------------------------------------

  /** Confirmed copies of a row, and those of them confirmed to transactions that then aborted. */
  ghost function AckedCopies(s: State, id: nat, n: nat): nat
    requires n <= |s.broker|
  {
    if n == 0 then 0
    else AckedCopies(s, id, n - 1) + if s.broker[n - 1].id == id && s.broker[n - 1].acked then 1 else 0
  }

  /** A confirm of the row that went to an aborted transaction. */
  ghost predicate Lost(s: State, id: nat, k: nat)
    requires k < |s.broker|
  {
    s.broker[k].id == id && s.broker[k].acked && !Sound(s, s.broker[k])
  }

  ghost function LostAcks(s: State, id: nat, n: nat): nat
    requires n <= |s.broker|
  {
    if n == 0 then 0 else LostAcks(s, id, n - 1) + if Lost(s, id, n - 1) then 1 else 0
  }

  /** The transactions that confirms of the row were lost on. */
  ghost function LostTxs(s: State, id: nat, n: nat): set<nat>
    requires n <= |s.broker|
  {
    if n == 0 then {} else LostTxs(s, id, n - 1) + if Lost(s, id, n - 1) then {s.broker[n - 1].tx} else {}
  }

  lemma {:induction false} AtMostOneSound(s: State, id: nat, n: nat)
    requires n <= |s.broker| && CopiesValid(s)
    ensures AckedCopies(s, id, n) == LostAcks(s, id, n)
      + if exists k | 0 <= k < n :: s.broker[k].id == id && Sound(s, s.broker[k]) then 1 else 0
  {
    if n > 0 {
      AtMostOneSound(s, id, n - 1);
      if s.broker[n - 1].id == id && Sound(s, s.broker[n - 1]) {
        forall k | 0 <= k < n - 1 && s.broker[k].id == id ensures !Sound(s, s.broker[k]) {
        }
      }
    }
  }

  lemma {:induction false} LostTxsMeaning(s: State, id: nat, n: nat)
    requires n <= |s.broker|
    ensures forall t :: t in LostTxs(s, id, n) <==> exists k | 0 <= k < n :: Lost(s, id, k) && s.broker[k].tx == t
  {
    if n > 0 {
      LostTxsMeaning(s, id, n - 1);
    }
  }

  /** A transaction that aborted loses at most one confirm of a row. */
  lemma LostOnce(s: State, id: nat, k: nat)
    requires CopiesValid(s) && k < |s.broker| && Lost(s, id, k)
    ensures s.broker[k].tx < |s.txs| && s.txs[s.broker[k].tx].phase.Aborted?
    ensures s.broker[k].tx !in LostTxs(s, id, k)
  {
    assert CopyValid(s, s.broker[k]);
    LostTxsMeaning(s, id, k);
    hide LostTxs, CopyValid;
  }

  lemma LostStep(s: State, id: nat, n: nat)
    requires n < |s.broker|
    ensures LostAcks(s, id, n + 1) == LostAcks(s, id, n) + if Lost(s, id, n) then 1 else 0
    ensures LostTxs(s, id, n + 1) == LostTxs(s, id, n) + if Lost(s, id, n) then {s.broker[n].tx} else {}
  {
    hide Lost;
  }

  ghost predicate AllAborted(s: State, txs: set<nat>) {
    forall t | t in txs :: t < |s.txs| && s.txs[t].phase.Aborted?
  }

  lemma NothingLost(s: State, id: nat)
    ensures LostAcks(s, id, 0) == 0 == |LostTxs(s, id, 0)| && AllAborted(s, LostTxs(s, id, 0))
  {
  }

  lemma OneMoreAborted(s: State, txs: set<nat>, t: nat)
    requires AllAborted(s, txs) && t !in txs && t < |s.txs| && s.txs[t].phase.Aborted?
    ensures |txs + {t}| == |txs| + 1 && AllAborted(s, txs + {t})
  {
  }

  /** Each of them aborted, and each got one confirm. */
  lemma {:induction false} LostAcksAreAborts(s: State, id: nat, n: nat)
    requires CopiesValid(s) && n <= |s.broker|
    ensures LostAcks(s, id, n) == |LostTxs(s, id, n)| && AllAborted(s, LostTxs(s, id, n))
    decreases n
  {
    hide *;
    if n == 0 {
      NothingLost(s, id);
    } else {
      LostAcksAreAborts(s, id, n - 1);
      LostStep(s, id, n - 1);
      if Lost(s, id, n - 1) {
        LostOnce(s, id, n - 1);
        OneMoreAborted(s, LostTxs(s, id, n - 1), s.broker[n - 1].tx);
      } else {
        assert LostTxs(s, id, n) == LostTxs(s, id, n - 1);
      }
    }
  }

  /**
   * Relay safety for any number of replicas, with aborts at any point: live batches are
   * disjoint and hold only pending rows; every message at the broker is a committed outbox
   * row; and the confirmed copies of a row are one if the row is delivered, plus one for
   * each aborted transaction that had already got its confirm, or got it afterwards.
   */
  lemma RelaySafety(c: Config, steps: seq<Step>)
    requires c.maxAttempts >= 1
    ensures var s := Exec(c, steps);
      && (forall t, u, id | 0 <= t < u < |s.txs| && s.txs[t].phase.Live? && s.txs[u].phase.Live? ::
            !(id in s.txs[t].ids && id in s.txs[u].ids))
      && (forall t, id | 0 <= t < |s.txs| && s.txs[t].phase.Live? && id in s.txs[t].ids ::
            id < |s.rows| && s.rows[id].status == PENDING)
      && (forall k | 0 <= k < |s.broker| :: s.broker[k].id < |s.rows|)
      && (forall id: nat ::
            && AckedCopies(s, id, |s.broker|) == |LostTxs(s, id, |s.broker|)| + (if Delivered(s, id) then 1 else 0)
            && forall t | t in LostTxs(s, id, |s.broker|) :: t < |s.txs| && s.txs[t].phase.Aborted?)
  {
    EveryRunKeepsInv(c, steps);
    var s := Exec(c, steps);
    assert forall t | 0 <= t < |s.txs| :: TxValid(c, s, s.txs[t]);
    assert forall k | 0 <= k < |s.broker| :: CopyValid(s, s.broker[k]);
    hide Exec, LostTxs, LostAcks, AckedCopies;
    forall id: nat
      ensures AckedCopies(s, id, |s.broker|) == |LostTxs(s, id, |s.broker|)| + if Delivered(s, id) then 1 else 0
      ensures forall t | t in LostTxs(s, id, |s.broker|) :: t < |s.txs| && s.txs[t].phase.Aborted?
    {
      LostAcksAreAborts(s, id, |s.broker|);
      AtMostOneSound(s, id, |s.broker|);
      if k :| 0 <= k < |s.broker| && s.broker[k].id == id && Sound(s, s.broker[k]) {
        assert CopyValid(s, s.broker[k]);
        assert Delivered(s, id);
      }
    }
  }

  /** Along every run, rows never disappear and a PUBLISHED or FAILED row never changes again. */
  lemma {:induction false} TerminalRowsAbsorb(c: Config, steps: seq<Step>, n: nat, id: nat)
    requires c.maxAttempts >= 1 && n <= |steps|
    requires id < |Exec(c, steps[..n]).rows| && Exec(c, steps[..n]).rows[id].status != PENDING
    ensures id < |Exec(c, steps).rows| && Exec(c, steps).rows[id] == Exec(c, steps[..n]).rows[id]
  {
    if n == |steps| {
      assert steps[..n] == steps;
    } else {
      var init, last := steps[..|steps| - 1], steps[|steps| - 1];
      assert init[..n] == steps[..n];
      TerminalRowsAbsorb(c, init, n, id);
      EveryRunKeepsInv(c, init);
      var s := Exec(c, init);
      if Enabled(c, s, last) && last.Commit? {
        assert TxValid(c, s, s.txs[last.tx]);
        WrittenAt(s.rows, s.txs[last.tx].ids, s.txs[last.tx].updates, |s.txs[last.tx].ids|);
        assert s.txs[last.tx].ids[..|s.txs[last.tx].ids|] == s.txs[last.tx].ids;
      }
    }
  }

  /** The live transaction's next publish is of this row. */
  predicate Publishes(s: State, t: nat, id: nat) {
    && t < |s.txs| && s.txs[t].phase.Live? && |s.txs[t].updates| < |s.txs[t].ids|
    && s.txs[t].ids[|s.txs[t].updates|] == id
  }

  /** No attempt, also none that will succeed, starts before the backoff after the last failure is over. */
  lemma AttemptNotBefore(c: Config, s: State, t: nat, id: nat)
    requires Inv(c, s) && Publishes(s, t, id)
    ensures id < |s.rows| && s.rows[id].status == PENDING
    ensures var row := s.rows[id];
      row.attempts > 0 ==>
        (|row.failures| == row.attempts && s.clock >= row.failures[row.attempts - 1] + Backoff(row.attempts))
  {
    assert TxValid(c, s, s.txs[t]);
    assert id in s.txs[t].ids;
    assert RowValid(s.rows[id], c.maxAttempts);
  }

  /** A new row is pending, has never failed, and is due at once. */
  lemma InsertMeaning(c: Config, s: State)
    ensures var s', id := Next(c, s, Insert), |s.rows|;
      && |s'.rows| == id + 1 && s.rows <= s'.rows && s'.txs == s.txs && s'.broker == s.broker && s'.clock == s.clock
      && s'.rows[id].status == PENDING && s'.rows[id].attempts == 0 && s'.rows[id].failures == []
      && s'.rows[id].availableAt == s'.rows[id].createdAt == s.clock
  {
  }

  /**
   * A publish sends the next row of the batch and no other; the table changes only with the
   * commit. A confirm makes the row's update PUBLISHED and nothing else, any other answer
   * one more failed attempt at this time, due again after its backoff, or parked.
   */
  lemma PublishMeaning(c: Config, s: State, t: nat, id: nat, stored: bool, acked: bool)
    requires Enabled(c, s, Publish(t, stored, acked)) && Publishes(s, t, id)
    ensures var s' := Next(c, s, Publish(t, stored, acked));
      var row, tx, tx' := s.rows[id], s.txs[t], s'.txs[t];
      && s'.rows == s.rows && s'.clock == s.clock
      && s'.broker == s.broker + (if stored then [Copy(id, t, acked)] else [])
      && |s'.txs| == |s.txs| && (forall u | 0 <= u < |s.txs| && u != t :: s'.txs[u] == s.txs[u])
      && tx'.ids == tx.ids && tx'.phase == tx.phase && tx'.claimedAt == tx.claimedAt
      && |tx'.updates| == |tx.updates| + 1 && tx.updates <= tx'.updates
      && IsResult(row, tx'.updates[|tx.updates|], c.maxAttempts, acked, s.clock)
  {
    BackoffMeaning(s.rows[id].attempts + 1);
    hide Backoff;
  }

  /** What a publish at this time, confirmed or not, makes of a row. */
  ghost predicate IsResult(row: Row, row': Row, maxAttempts: nat, acked: bool, time: nat) {
    if acked then
      && row'.status == PUBLISHED && row'.attempts == row.attempts && row'.failures == row.failures
      && row'.availableAt == row.availableAt && row'.createdAt == row.createdAt
    else
      && row'.attempts == row.attempts + 1 && row'.failures == row.failures + [time]
      && row'.status == (if row.attempts + 1 >= maxAttempts then FAILED else PENDING)
      && row'.availableAt == time + Backoff(row.attempts + 1) && row'.createdAt == row.createdAt
  }

  lemma InvMeansValid(c: Config, s: State, id: nat)
    requires Inv(c, s) && id < |s.rows|
    ensures RowValid(s.rows[id], c.maxAttempts)
  {
  }

  /**
   * Life cycle of every row in every run: pending rows have attempts left, parked rows have
   * none, consecutive failures are a backoff apart, parking takes the sum of them all, and
   * whenever the row is about to be published the backoff after its last failure is over; and
   * it is due again exactly when that is.
   */
  lemma RowLifeCycle(c: Config, steps: seq<Step>, id: nat)
    requires c.maxAttempts >= 1 && id < |Exec(c, steps).rows|
    ensures var s := Exec(c, steps);
      var row := s.rows[id];
      && (row.status == PENDING ==> row.attempts < c.maxAttempts)
      && (row.status == FAILED ==> row.attempts == c.maxAttempts)
      && |row.failures| == row.attempts
      && (forall k | 0 < k < row.attempts :: row.failures[k] >= row.failures[k - 1] + Backoff(k))
      && (row.status == FAILED ==> row.failures[c.maxAttempts - 1] >= row.createdAt + BackoffSum(c.maxAttempts - 1))
      && row.availableAt == (if row.attempts == 0 then row.createdAt
                             else row.failures[row.attempts - 1] + Backoff(row.attempts))
      && (forall t: nat | Publishes(s, t, id) && row.attempts > 0 ::
            s.clock >= row.failures[row.attempts - 1] + Backoff(row.attempts))
  {
    EveryRunKeepsInv(c, steps);
    var s := Exec(c, steps);
    var row := s.rows[id];
    forall t: nat | Publishes(s, t, id) && row.attempts > 0
      ensures s.clock >= row.failures[row.attempts - 1] + Backoff(row.attempts)
    {
      AttemptNotBefore(c, s, t, id);
    }
    InvMeansValid(c, s, id);
    hide *;
    RowTimes(row, c.maxAttempts);
  }

  lemma RowTimes(row: Row, maxAttempts: nat)
    requires maxAttempts >= 1 && RowValid(row, maxAttempts)
    ensures row.status == PENDING ==> row.attempts < maxAttempts
    ensures row.status == FAILED ==> row.attempts == maxAttempts
    ensures |row.failures| == row.attempts
    ensures forall k | 0 < k < row.attempts :: row.failures[k] >= row.failures[k - 1] + Backoff(k)
    ensures row.status == FAILED ==> row.failures[maxAttempts - 1] >= row.createdAt + BackoffSum(maxAttempts - 1)
    ensures row.availableAt == if row.attempts == 0 then row.createdAt
                               else row.failures[row.attempts - 1] + Backoff(row.attempts)
  {
    forall k | 0 < k < row.attempts ensures row.failures[k] >= row.failures[k - 1] + Backoff(k) {
      var i := k - 1;
      assert row.failures[i + 1] >= row.failures[i] + Backoff(i + 1);
    }
    if row.status == FAILED {
      ParkedNotBefore(row, maxAttempts);
    }
  }
}
