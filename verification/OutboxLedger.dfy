/**
 * What the outbox protocol spends: every row a committed batch has handled uses up an
 * attempt, whichever replica handled it. This bounds the work of all replicas together.
 */
module OutboxLedger {
  import opened Outbox

  /** Attempts left over all pending rows. */
  function Chances(row: Row, maxAttempts: nat): nat {
    if row.status == PENDING && row.attempts < maxAttempts then maxAttempts - row.attempts else 0
  }

  function Potential(rows: seq<Row>, maxAttempts: nat): nat {
    if rows == [] then 0
    else Potential(rows[..|rows| - 1], maxAttempts) + Chances(rows[|rows| - 1], maxAttempts)
  }

  /** Rows that a transaction has handled for good. */
  function HandledBy(tx: Tx): nat { if tx.phase.Committed? then |tx.ids| else 0 }

  function Handled(txs: seq<Tx>): nat {
    if txs == [] then 0 else Handled(txs[..|txs| - 1]) + HandledBy(txs[|txs| - 1])
  }

  /** The row was handled once: published, or charged with a failed attempt at `time` or later. */
  ghost predicate HandledOnce(row: Row, row': Row, maxAttempts: nat, time: nat) {
    row' == AfterAck(row) || exists t | t >= time :: row' == AfterFailure(row, maxAttempts, t)
  }

  /** Each update of a transaction handles its row once, at or after the claim. */
  ghost predicate TxTracked(c: Config, s: State, tx: Tx) {
    |tx.updates| <= |tx.ids| &&
    forall i | 0 <= i < |tx.updates| ::
      tx.ids[i] < |s.rows| && HandledOnce(s.rows[tx.ids[i]], tx.updates[i], c.maxAttempts, tx.claimedAt)
  }

  ghost predicate Tracked(c: Config, s: State) {
    forall t | 0 <= t < |s.txs| && s.txs[t].phase.Live? :: TxTracked(c, s, s.txs[t])
  }

  /** The row's turn has not come earlier, and if it had ended it has not changed. */
  predicate NotSooner(row: Row, row': Row) {
    && (row'.status == PENDING ==> row.status == PENDING && row'.availableAt >= row.availableAt)
    && (row.status != PENDING ==> row' == row)
  }

  function Ledger(c: Config, s: State): nat { Handled(s.txs) + Potential(s.rows, c.maxAttempts) }

  /** What steps without inserts do: nothing is added, handled batches stay handled, and the ledger never grows. */
  ghost predicate Advanced(c: Config, s: State, s': State) {
    && |s'.rows| == |s.rows| && |s.txs| <= |s'.txs| && s.clock <= s'.clock
    && (forall id | 0 <= id < |s.rows| :: NotSooner(s.rows[id], s'.rows[id]))
    && Handled(s.txs) <= Handled(s'.txs) && Ledger(c, s') <= Ledger(c, s)
  }

  lemma AdvancesTransitively(c: Config, s: State, s': State, s'': State)
    requires Advanced(c, s, s') && Advanced(c, s', s'')
    ensures Advanced(c, s, s'')
  {
    hide Ledger;
  }

  // ---- Sums ---------------------------------------------------------------------------

  lemma {:induction false} PotentialOfUpdate(rows: seq<Row>, id: nat, row: Row, maxAttempts: nat)
    requires id < |rows|
    ensures Potential(rows[id := row], maxAttempts)
         == Potential(rows, maxAttempts) - Chances(rows[id], maxAttempts) + Chances(row, maxAttempts)
  {
    var last := |rows| - 1;
    if id == last {
      assert rows[id := row][..last] == rows[..last];
    } else {
      assert rows[id := row][..last] == rows[..last][id := row];
      PotentialOfUpdate(rows[..last], id, row, maxAttempts);
    }
  }

  lemma PotentialOfInsert(rows: seq<Row>, row: Row, maxAttempts: nat)
    ensures Potential(rows + [row], maxAttempts) == Potential(rows, maxAttempts) + Chances(row, maxAttempts)
  {
    assert (rows + [row])[..|rows|] == rows;
  }

  lemma {:induction false} HandledOfUpdate(txs: seq<Tx>, t: nat, tx: Tx)
    requires t < |txs|
    ensures Handled(txs[t := tx]) == Handled(txs) - HandledBy(txs[t]) + HandledBy(tx)
  {
    var last := |txs| - 1;
    if t == last {
      assert txs[t := tx][..last] == txs[..last];
    } else {
      assert txs[t := tx][..last] == txs[..last][t := tx];
      HandledOfUpdate(txs[..last], t, tx);
    }
  }

  lemma HandledOfClaim(txs: seq<Tx>, tx: Tx)
    ensures Handled(txs + [tx]) == Handled(txs) + HandledBy(tx)
  {
    assert (txs + [tx])[..|txs|] == txs;
  }

  /** Each handled row uses up at least one chance. */
  lemma {:induction false} HandlingLowersPotential(rows: seq<Row>, rows': seq<Row>, ids: seq<nat>, maxAttempts: nat)
    requires |rows'| == |rows| && Distinct(ids)
    requires forall id | id in ids :: id < |rows| && Chances(rows'[id], maxAttempts) < Chances(rows[id], maxAttempts)
    requires forall id | 0 <= id < |rows| && id !in ids :: rows'[id] == rows[id]
    ensures Potential(rows', maxAttempts) + |ids| <= Potential(rows, maxAttempts)
    decreases |ids|
  {
    if ids == [] {
      assert rows' == rows;
    } else {
      var last := |ids| - 1;
      assert ids[last] in ids;
      var mid := rows'[ids[last] := rows[ids[last]]];
      assert forall id | id in ids[..last] :: id in ids;
      HandlingLowersPotential(rows, mid, ids[..last], maxAttempts);
      PotentialOfUpdate(rows', ids[last], rows[ids[last]], maxAttempts);
    }
  }

  lemma {:induction false} BackoffPositive(k: nat)
    ensures Backoff(k) >= 1000
  {
    Pow2Grows(0, k);
  }

  /** A row that was due when claimed loses a chance, and is not due again at that time. */
  lemma HandledRow(row: Row, row': Row, maxAttempts: nat, time: nat)
    requires row.attempts < maxAttempts && Available(row, time) && HandledOnce(row, row', maxAttempts, time)
    ensures Chances(row', maxAttempts) < Chances(row, maxAttempts)
    ensures NotSooner(row, row') && !Available(row', time)
  {
    if row' != AfterAck(row) {
      var t :| t >= time && row' == AfterFailure(row, maxAttempts, t);
      BackoffPositive(row.attempts + 1);
    }
  }

  // ---- Every step ----------------------------------------------------------------------

  /** A live claim holds rows that were due when it was made and have attempts left. */
  lemma ClaimedRows(c: Config, s: State, t: nat)
    requires Inv(c, s) && t < |s.txs| && s.txs[t].phase.Live?
    ensures forall id | id in s.txs[t].ids ::
      id < |s.rows| && Available(s.rows[id], s.txs[t].claimedAt) && s.rows[id].attempts < c.maxAttempts
    ensures Distinct(s.txs[t].ids) && |s.txs[t].updates| <= |s.txs[t].ids| && s.txs[t].claimedAt <= s.clock
  {
    assert TxValid(c, s, s.txs[t]);
    forall id | id in s.txs[t].ids ensures id < |s.rows| ==> RowValid(s.rows[id], c.maxAttempts) {
    }
  }

  /** What a commit writes: each claimed row handled once, all others as they were. */
  lemma CommitWritesOnce(c: Config, s: State, t: nat)
    requires Inv(c, s) && Tracked(c, s) && Enabled(c, s, Commit(t))
    ensures var tx, rows' := s.txs[t], Next(c, s, Commit(t)).rows;
      && |rows'| == |s.rows|
      && (forall id | 0 <= id < |s.rows| && id !in tx.ids :: rows'[id] == s.rows[id])
      && (forall id | id in tx.ids :: id < |s.rows| && HandledOnce(s.rows[id], rows'[id], c.maxAttempts, tx.claimedAt))
  {
    ClaimedRows(c, s, t);
    var tx := s.txs[t];
    WrittenAt(s.rows, tx.ids, tx.updates, |tx.ids|);
    assert tx.ids[..|tx.ids|] == tx.ids;
    assert TxTracked(c, s, tx);
    hide Inv, HandledOnce, Written;
    forall id | id in tx.ids
      ensures HandledOnce(s.rows[id], Next(c, s, Commit(t)).rows[id], c.maxAttempts, tx.claimedAt)
    {
      var i :| 0 <= i < |tx.ids| && tx.ids[i] == id;
    }
  }

  lemma CommitTracks(c: Config, s: State, t: nat)
    requires Inv(c, s) && Tracked(c, s) && Enabled(c, s, Commit(t))
    ensures Tracked(c, Next(c, s, Commit(t)))
  {
    CommitWritesOnce(c, s, t);
    var s' := Next(c, s, Commit(t));
    forall u | 0 <= u < |s.txs| && s'.txs[u].phase.Live? ensures TxTracked(c, s', s'.txs[u]) {
      assert TxTracked(c, s, s.txs[u]);
      LiveClaimsDisjoint(c, s, t, u);
      hide Inv, HandledOnce, Next;
      assert forall i | 0 <= i < |s.txs[u].updates| :: s.txs[u].ids[i] in s.txs[u].ids;
    }
  }

  lemma LiveClaimsDisjoint(c: Config, s: State, t: nat, u: nat)
    requires Inv(c, s) && t < |s.txs| && u < |s.txs| && t != u && s.txs[t].phase.Live? && s.txs[u].phase.Live?
    ensures forall id | id in s.txs[u].ids :: id !in s.txs[t].ids
  {
  }

  lemma PublishTracks(c: Config, s: State, t: nat, stored: bool, acked: bool)
    requires Inv(c, s) && Tracked(c, s) && Enabled(c, s, Publish(t, stored, acked))
    ensures Tracked(c, Next(c, s, Publish(t, stored, acked)))
  {
    ClaimedRows(c, s, t);
    var s' := Next(c, s, Publish(t, stored, acked));
    var tx, n := s.txs[t], |s.txs[t].updates|;
    assert TxTracked(c, s, tx);
    assert HandledOnce(s.rows[tx.ids[n]], s'.txs[t].updates[n], c.maxAttempts, tx.claimedAt);
    hide Inv, HandledOnce, AfterAck, AfterFailure;
    forall u | 0 <= u < |s.txs| && s'.txs[u].phase.Live? ensures TxTracked(c, s', s'.txs[u]) {
      assert TxTracked(c, s, s.txs[u]);
    }
  }

  lemma StepTracks(c: Config, s: State, step: Step)
    requires Inv(c, s) && Tracked(c, s) && Enabled(c, s, step)
    ensures Tracked(c, Next(c, s, step))
  {
    match step
    case Publish(t, stored, acked) => PublishTracks(c, s, t, stored, acked);
    case Commit(t) => CommitTracks(c, s, t);
    case _ =>
      hide Inv, HandledOnce;
      var s' := Next(c, s, step);
      forall t | 0 <= t < |s'.txs| && s'.txs[t].phase.Live? ensures TxTracked(c, s', s'.txs[t]) {
        assert t < |s.txs| ==> TxTracked(c, s, s.txs[t]);
      }
  }

  /** A commit pays for the rows it has handled with as many chances. */
  lemma CommitPays(c: Config, s: State, t: nat)
    requires Inv(c, s) && Tracked(c, s) && Enabled(c, s, Commit(t))
    ensures Advanced(c, s, Next(c, s, Commit(t)))
    ensures Handled(Next(c, s, Commit(t)).txs) == Handled(s.txs) + |s.txs[t].ids|
    ensures forall id | id in s.txs[t].ids ::
      id < |s.rows| && !Available(Next(c, s, Commit(t)).rows[id], s.txs[t].claimedAt)
  {
    var s', tx := Next(c, s, Commit(t)), s.txs[t];
    ClaimedRows(c, s, t);
    CommitWritesOnce(c, s, t);
    HandledOfUpdate(s.txs, t, tx.(phase := Committed));
    hide Inv, Tracked, HandledOnce, Written, Chances, Available, NotSooner;
    forall id | id in tx.ids
      ensures Chances(s'.rows[id], c.maxAttempts) < Chances(s.rows[id], c.maxAttempts)
      ensures NotSooner(s.rows[id], s'.rows[id]) && !Available(s'.rows[id], tx.claimedAt)
    {
      HandledRow(s.rows[id], s'.rows[id], c.maxAttempts, tx.claimedAt);
    }
    HandlingLowersPotential(s.rows, s'.rows, tx.ids, c.maxAttempts);
    forall id | 0 <= id < |s.rows| ensures NotSooner(s.rows[id], s'.rows[id]) {
      if id !in tx.ids { SameRow(s.rows[id]); }
    }
  }

  lemma SameRow(row: Row)
    ensures NotSooner(row, row)
  {
  }

  lemma RowsUntouched(c: Config, s: State, s': State)
    requires s'.rows == s.rows && |s.txs| <= |s'.txs| && s.clock <= s'.clock && Handled(s'.txs) == Handled(s.txs)
    ensures Advanced(c, s, s')
  {
    hide Handled, Potential;
  }

  lemma TxUpdate(c: Config, s: State, t: nat, s': State)
    requires t < |s.txs| && |s'.txs| == |s.txs| && s'.txs == s.txs[t := s'.txs[t]]
    requires s'.rows == s.rows && s.clock == s'.clock && HandledBy(s'.txs[t]) == HandledBy(s.txs[t])
    ensures Advanced(c, s, s')
  {
    HandledOfUpdate(s.txs, t, s'.txs[t]);
    RowsUntouched(c, s, s');
  }

  /** Every step but an insert, by any replica, keeps the ledger from growing. */
  lemma StepAdvances(c: Config, s: State, step: Step)
    requires Inv(c, s) && Tracked(c, s) && Enabled(c, s, step) && !step.Insert?
    ensures Advanced(c, s, Next(c, s, step))
  {
    hide Inv, Tracked, Advanced, Available, Locked;
    match step
    case Commit(t) => CommitPays(c, s, t);
    case Claim(ids) =>
      HandledOfClaim(s.txs, Tx(s.clock, ids, [], Live));
      RowsUntouched(c, s, Next(c, s, step));
    case Wait(_) => RowsUntouched(c, s, Next(c, s, step));
    case Publish(t, _, _) => TxUpdate(c, s, t, Next(c, s, step));
    case Abort(t, _) => TxUpdate(c, s, t, Next(c, s, step));
    case LateCopy(t, _) => TxUpdate(c, s, t, Next(c, s, step));
  }

  lemma InsertPays(c: Config, s: State)
    requires c.maxAttempts >= 1
    ensures Ledger(c, Next(c, s, Insert)) == Ledger(c, s) + c.maxAttempts
  {
    PotentialOfInsert(s.rows, NewRow(s.clock), c.maxAttempts);
  }

  /** Room left on the ledger by the rows there are. */
  predicate Paid(c: Config, s: State) { Ledger(c, s) <= c.maxAttempts * |s.rows| }

  lemma StepStaysPaid(c: Config, s: State, step: Step)
    requires c.maxAttempts >= 1 && Inv(c, s) && Tracked(c, s) && Enabled(c, s, step) && Paid(c, s)
    ensures Paid(c, Next(c, s, step))
  {
    hide Inv, Tracked, Enabled, Ledger, NotSooner;
    if step.Insert? {
      InsertPays(c, s);
      assert c.maxAttempts * (|s.rows| + 1) == c.maxAttempts * |s.rows| + c.maxAttempts;
    } else {
      StepAdvances(c, s, step);
    }
  }

  // ---- Every run -------------------------------------------------------------------------

  lemma {:induction false} EveryRunTracks(c: Config, steps: seq<Step>)
    requires c.maxAttempts >= 1
    ensures Inv(c, Exec(c, steps)) && Tracked(c, Exec(c, steps))
  {
    EveryRunKeepsInv(c, steps);
    if steps != [] {
      var init := steps[..|steps| - 1];
      EveryRunTracks(c, init);
      hide Inv, Tracked, Enabled, Next;
      if Enabled(c, Exec(c, init), steps[|steps| - 1]) {
        StepTracks(c, Exec(c, init), steps[|steps| - 1]);
      }
    } else {
      hide Inv;
    }
  }

  /**
   * All replicas together, aborting as they may: the rows handled by committed batches and
   * the attempts left never exceed `maxAttempts` for each row ever written.
   */
  lemma {:induction false} WorkIsPaid(c: Config, steps: seq<Step>)
    requires c.maxAttempts >= 1
    ensures var s := Exec(c, steps); Handled(s.txs) + Potential(s.rows, c.maxAttempts) <= c.maxAttempts * |s.rows|
  {
    if steps != [] {
      var init, last := steps[..|steps| - 1], steps[|steps| - 1];
      WorkIsPaid(c, init);
      EveryRunTracks(c, init);
      ExecStep(c, steps);
      var s := Exec(c, init);
      hide Inv, Tracked, Enabled, Exec, Next, Handled, Potential;
      if Enabled(c, s, last) { StepStaysPaid(c, s, last); }
    }
  }

  lemma ExecStep(c: Config, steps: seq<Step>)
    requires steps != []
    ensures var s, last := Exec(c, steps[..|steps| - 1]), steps[|steps| - 1];
      Exec(c, steps) == if Enabled(c, s, last) then Next(c, s, last) else s
  {
    hide Enabled, Next;
  }

  /**
   * In any stretch of a run without inserts, whatever replicas do what in it, the rows
   * handled by batches that commit plus the attempts left at its end are at most the
   * attempts left at its start.
   */
  lemma {:induction false} StretchIsPaid(c: Config, steps: seq<Step>, n: nat)
    requires c.maxAttempts >= 1 && n <= |steps| && forall k | n <= k < |steps| :: !steps[k].Insert?
    ensures Advanced(c, Exec(c, steps[..n]), Exec(c, steps))
    ensures var s, s' := Exec(c, steps[..n]), Exec(c, steps);
      Handled(s'.txs) - Handled(s.txs) + Potential(s'.rows, c.maxAttempts) <= Potential(s.rows, c.maxAttempts)
  {
    if n == |steps| {
      assert steps[..n] == steps;
      StaysAdvanced(c, Exec(c, steps));
    } else {
      var init, last := steps[..|steps| - 1], steps[|steps| - 1];
      assert init[..n] == steps[..n];
      StretchIsPaid(c, init, n);
      EveryRunTracks(c, init);
      ExecStep(c, steps);
      var s := Exec(c, init);
      hide Inv, Tracked, Enabled, Exec, Advanced;
      if Enabled(c, s, last) {
        StepAdvances(c, s, last);
        AdvancesTransitively(c, Exec(c, steps[..n]), s, Next(c, s, last));
      }
    }
    hide Exec, NotSooner;
  }

  lemma StaysAdvanced(c: Config, s: State)
    ensures Advanced(c, s, s)
  {
  }
}
