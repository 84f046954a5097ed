/**
 * Refresh-token rotation. `refresh` reads the presented token outside any transaction and
 * acts on what it read; the first half of this module follows every interleaving of reads
 * and writes, the second half calls that run one at a time.
 */
module RefreshTokens {
  import opened Options

  /**
   * A row of `refresh_tokens`; its id is its rank, and hashing is injective, so a presented
   * token is its row's id, or unknown. Times are milliseconds. `chain` is the rank of the
   * login or registration the token descends from: history, not a column.
   */
  datatype Token = Token(user: nat, expiresAt: nat, revokedAt: Option<nat>, replacedBy: Option<nat>, chain: nat)
  datatype Error = Unknown | Reused | Expired | Disabled

  predicate Revoked(t: Token) { t.revokedAt.Some? }

  /** `isRefreshTokenActive` of the domain layer. */
  predicate IsRefreshTokenActive(t: Token, now: nat) { t.revokedAt.None? && t.expiresAt > now }

  /** `isReuseAttempt` of the domain layer: revoked by a rotation. */
  predicate IsReuseAttempt(t: Token) { t.revokedAt.Some? && t.replacedBy.Some? }

  datatype Tokens = Tokens(rows: seq<Token>, active: set<nat>, logins: nat)

  /** What `refresh` decides from the row it read. */
  datatype Decision = Reject(error: Error) | RevokeAll(user: nat) | Rotate(user: nat, chain: nat)

  function Decide(s: Tokens, id: nat, now: nat): Decision {
    if id >= |s.rows| then Reject(Unknown)
    else
      var t := s.rows[id];
      if Revoked(t) then RevokeAll(t.user)
      else if t.expiresAt <= now then Reject(Expired)
      else if t.user !in s.active then Reject(Disabled)
      else Rotate(t.user, t.chain)
  }

  /** createRefreshToken, for a login or a registration. */
  function Issue(s: Tokens, user: nat, now: nat, ttl: nat): Tokens {
    s.(rows := s.rows + [Token(user, now + ttl, None, None, s.logins)], logins := s.logins + 1)
  }

  /** updateMany: every unrevoked token of the user is revoked. */
  function RevokeUser(s: Tokens, user: nat, now: nat): Tokens {
    s.(rows := seq(|s.rows|, i requires 0 <= i < |s.rows| =>
      if s.rows[i].user == user && !Revoked(s.rows[i]) then s.rows[i].(revokedAt := Some(now)) else s.rows[i]))
  }

  /** The rotation transaction: create the successor, revoke the presented token and link it. */
  function RotateToken(s: Tokens, id: nat, user: nat, chain: nat, now: nat, ttl: nat): Tokens
    requires id < |s.rows|
  {
    s.(rows := s.rows[id := s.rows[id].(revokedAt := Some(now), replacedBy := Some(|s.rows|))]
               + [Token(user, now + ttl, None, None, chain)])
  }

  function RevokeOne(s: Tokens, id: nat, now: nat): Tokens {
    if id < |s.rows| && !Revoked(s.rows[id]) then s.(rows := s.rows[id := s.rows[id].(revokedAt := Some(now))]) else s
  }

  // ---- Every interleaving -----------------------------------------------------------

  /** A caller between its read and its write. */
  datatype Pending = Pending(id: nat, decision: Decision, now: nat)
  datatype State = State(tokens: Tokens, pending: map<nat, Pending>)

  datatype Step =
    | IssueStep(user: nat, now: nat)
    | ReadStep(caller: nat, id: nat, now: nat)
    | WriteStep(caller: nat)
    | LogoutStep(id: nat, now: nat)
    | LogoutAllStep(user: nat, now: nat)
    | SetActive(active: set<nat>)

  function Next(s: State, step: Step, ttl: nat): State {
    match step
    case IssueStep(user, now) => s.(tokens := Issue(s.tokens, user, now, ttl))
    case ReadStep(caller, id, now) => s.(pending := s.pending[caller := Pending(id, Decide(s.tokens, id, now), now)])
    case WriteStep(caller) =>
      if caller !in s.pending then s
      else
        var p := s.pending[caller];
        var tokens := match p.decision
          case Reject(_) => s.tokens
          case RevokeAll(user) => RevokeUser(s.tokens, user, p.now)
          case Rotate(user, chain) =>
            if p.id < |s.tokens.rows| then RotateToken(s.tokens, p.id, user, chain, p.now, ttl) else s.tokens;
        State(tokens, s.pending - {caller})
    case LogoutStep(id, now) => s.(tokens := RevokeOne(s.tokens, id, now))
    case LogoutAllStep(user, now) => s.(tokens := RevokeUser(s.tokens, user, now))
    case SetActive(active) => s.(tokens := s.tokens.(active := active))
  }

  const EMPTY := Tokens([], {}, 0)

  function Run(steps: seq<Step>, n: nat, ttl: nat): State
    requires n <= |steps|
  {
    if n == 0 then State(EMPTY, map[]) else Next(Run(steps, n - 1, ttl), steps[n - 1], ttl)
  }

  /** Rotation links: a replaced token is revoked; its successor is later, of the same user, and nobody else's. */
  ghost predicate Linked(rows: seq<Token>) {
    && (forall i | 0 <= i < |rows| && rows[i].replacedBy.Some? ::
          && Revoked(rows[i]) && i < rows[i].replacedBy.value < |rows|
          && rows[rows[i].replacedBy.value].user == rows[i].user)
    && (forall i, j | 0 <= i < j < |rows| && rows[i].replacedBy.Some? && rows[j].replacedBy.Some? ::
          rows[i].replacedBy != rows[j].replacedBy)
  }

  ghost predicate PendingValid(s: State) {
    forall caller | caller in s.pending && s.pending[caller].decision.Rotate? ::
      && s.pending[caller].id < |s.tokens.rows|
      && s.tokens.rows[s.pending[caller].id].user == s.pending[caller].decision.user
  }

  /** Tokens are never removed, keep their user and expiry, and once revoked or replaced stay so. */
  ghost predicate Grows(rows: seq<Token>, rows': seq<Token>) {
    && |rows| <= |rows'|
    && forall i | 0 <= i < |rows| ::
         && rows'[i].user == rows[i].user && rows'[i].expiresAt == rows[i].expiresAt && rows'[i].chain == rows[i].chain
         && (Revoked(rows[i]) ==> Revoked(rows'[i])) && (rows[i].replacedBy.Some? ==> rows'[i].replacedBy.Some?)
  }

  /** Only revocations were added. */
  ghost predicate SameLinks(rows: seq<Token>, rows': seq<Token>) {
    && |rows'| == |rows| && Grows(rows, rows')
    && forall i | 0 <= i < |rows| :: rows'[i].replacedBy == rows[i].replacedBy
  }

  lemma RevocationKeepsLinks(s: Tokens, id: nat, user: nat, now: nat)
    requires Linked(s.rows)
    ensures SameLinks(s.rows, RevokeUser(s, user, now).rows) && Linked(RevokeUser(s, user, now).rows)
    ensures SameLinks(s.rows, RevokeOne(s, id, now).rows) && Linked(RevokeOne(s, id, now).rows)
  {
    SameLinksKeepLinks(s.rows, RevokeUser(s, user, now).rows);
    SameLinksKeepLinks(s.rows, RevokeOne(s, id, now).rows);
  }

  lemma SameLinksKeepLinks(rows: seq<Token>, rows': seq<Token>)
    requires Linked(rows) && SameLinks(rows, rows')
    ensures Linked(rows')
  {
  }

  lemma IssueKeepsLinks(s: Tokens, user: nat, now: nat, ttl: nat)
    requires Linked(s.rows)
    ensures Linked(Issue(s, user, now, ttl).rows) && Grows(s.rows, Issue(s, user, now, ttl).rows)
  {
  }

  /** Rotation adds one link, to a token that did not exist before. */
  lemma RotationKeepsLinks(s: Tokens, id: nat, chain: nat, now: nat, ttl: nat)
    requires Linked(s.rows) && id < |s.rows|
    ensures var rows' := RotateToken(s, id, s.rows[id].user, chain, now, ttl).rows;
      Linked(rows') && Grows(s.rows, rows')
  {
    var rows' := RotateToken(s, id, s.rows[id].user, chain, now, ttl).rows;
    assert rows'[id].replacedBy == Some(|s.rows|) && rows'[|s.rows|].replacedBy.None?;
    assert forall i | 0 <= i < |s.rows| && i != id :: rows'[i] == s.rows[i];
  }

  lemma StepKeepsLinks(s: State, step: Step, ttl: nat)
    requires Linked(s.tokens.rows) && PendingValid(s)
    ensures var s' := Next(s, step, ttl);
      Linked(s'.tokens.rows) && PendingValid(s') && Grows(s.tokens.rows, s'.tokens.rows)
  {
    match step
    case IssueStep(user, now) => IssueKeepsLinks(s.tokens, user, now, ttl);
    case ReadStep(_, _, _) =>
    case WriteStep(caller) =>
      if caller in s.pending {
        var p := s.pending[caller];
        if p.decision.RevokeAll? { RevocationKeepsLinks(s.tokens, 0, p.decision.user, p.now); }
        if p.decision.Rotate? { RotationKeepsLinks(s.tokens, p.id, p.decision.chain, p.now, ttl); }
        hide Linked, RevokeUser, RotateToken;
      }
    case LogoutStep(id, now) => RevocationKeepsLinks(s.tokens, id, 0, now);
    case LogoutAllStep(user, now) => RevocationKeepsLinks(s.tokens, 0, user, now);
    case SetActive(_) =>
  }

  lemma GrowsTransitively(a: seq<Token>, b: seq<Token>, c: seq<Token>)
    requires Grows(a, b) && Grows(b, c)
    ensures Grows(a, c)
  {
  }

  lemma GrowsFromItself(rows: seq<Token>)
    ensures Grows(rows, rows)
  {
  }

  lemma LinksAtStart(steps: seq<Step>, ttl: nat)
    ensures var s := Run(steps, 0, ttl); Linked(s.tokens.rows) && PendingValid(s)
  {
  }

  lemma RunStep(steps: seq<Step>, n: nat, ttl: nat)
    requires n < |steps|
    ensures Run(steps, n + 1, ttl) == Next(Run(steps, n, ttl), steps[n], ttl)
  {
    hide Next;
  }

  /**
   * Under every interleaving: links go from revoked tokens to later tokens of the same
   * user, no two tokens share a successor, and revocation is never cleared.
   */
  lemma {:induction false} LinksInEveryRun(steps: seq<Step>, n: nat, m: nat, ttl: nat)
    requires n <= m <= |steps|
    ensures Linked(Run(steps, m, ttl).tokens.rows) && PendingValid(Run(steps, m, ttl))
    ensures Grows(Run(steps, n, ttl).tokens.rows, Run(steps, m, ttl).tokens.rows)
  {
    hide *;
    var s := Run(steps, m, ttl);
    GrowsFromItself(s.tokens.rows);
    if m == 0 {
      LinksAtStart(steps, ttl);
    } else {
      var k := if n < m then n else m - 1;
      LinksInEveryRun(steps, k, m - 1, ttl);
      RunStep(steps, m - 1, ttl);
      StepKeepsLinks(Run(steps, m - 1, ttl), steps[m - 1], ttl);
      GrowsTransitively(Run(steps, k, ttl).tokens.rows, Run(steps, m - 1, ttl).tokens.rows, s.tokens.rows);
    }
  }

  /** A walk along successor links. */
  ghost predicate Walk(rows: seq<Token>, ids: seq<nat>) {
    && (forall k | 0 <= k < |ids| :: ids[k] < |rows|)
    && (forall k | 0 <= k < |ids| - 1 :: rows[ids[k]].replacedBy == Some(ids[k + 1]))
  }

  /** Following successors never comes back to a token, so it ends within as many steps as there are tokens. */
  lemma {:induction false} SuccessorsNeverCycle(rows: seq<Token>, ids: seq<nat>, j: nat, k: nat)
    requires Linked(rows) && Walk(rows, ids) && j < k < |ids|
    ensures ids[j] + (k - j) <= ids[k]
  {
    if j + 1 < k { SuccessorsNeverCycle(rows, ids, j, k - 1); }
    var i := k - 1;
    assert rows[ids[i]].replacedBy == Some(ids[i + 1]);
  }

  /**
   * Single use does not hold under interleaving: two refreshes that both read the token
   * before either writes both succeed, and leave two unrevoked tokens in one chain.
   */
  lemma DoubleRotation(user: nat, now: nat, ttl: nat)
    requires ttl > 0
    ensures var steps := [SetActive({user}), IssueStep(user, now), ReadStep(0, 0, now), ReadStep(1, 0, now),
                          WriteStep(0), WriteStep(1)];
      var rows := Run(steps, 6, ttl).tokens.rows;
      |rows| == 3 && !Revoked(rows[1]) && !Revoked(rows[2]) && rows[1].chain == rows[2].chain
  {
    var steps := [SetActive({user}), IssueStep(user, now), ReadStep(0, 0, now), ReadStep(1, 0, now),
                  WriteStep(0), WriteStep(1)];
    var s1, s2 := Run(steps, 1, ttl), Run(steps, 2, ttl);
    assert Run(steps, 0, ttl).tokens.rows == [];
    assert s1 == Next(Run(steps, 0, ttl), steps[0], ttl);
    assert s2 == Next(s1, steps[1], ttl) && |s2.tokens.rows| == 1;
    var s3, s4 := Run(steps, 3, ttl), Run(steps, 4, ttl);
    assert s3 == Next(s2, steps[2], ttl) && s3.pending[0].decision == Rotate(user, 0);
    assert s4 == Next(s3, steps[3], ttl) && s4.pending[1].decision == Rotate(user, 0);
    var s5, s6 := Run(steps, 5, ttl), Run(steps, 6, ttl);
    assert s5 == Next(s4, steps[4], ttl) && |s5.tokens.rows| == 2;
    assert s6 == Next(s5, steps[5], ttl);
  }

  // ---- Exactly when a token is rotated twice ------------------------------------------

  /** The caller of a refresh that makes this step. */
  function CallerOf(step: Step): Option<nat> {
    match step
    case ReadStep(caller, _, _) => Some(caller)
    case WriteStep(caller) => Some(caller)
    case _ => None
  }

  /** The refresh that reads at step `r` has not made another step before step `n`. */
  ghost predicate Waits(steps: seq<Step>, r: nat, n: nat) {
    && r < n <= |steps| && steps[r].ReadStep?
    && forall k | r < k < n :: CallerOf(steps[k]) != Some(steps[r].caller)
  }

  /** A refresh that read the token at step `r`, then found it fit for rotation, and wrote at step `w`. */
  ghost predicate Window(steps: seq<Step>, r: nat, w: nat, id: nat, ttl: nat) {
    && w < |steps| && Waits(steps, r, w) && steps[r].id == id && steps[w] == WriteStep(steps[r].caller)
    && Decide(Run(steps, r, ttl).tokens, id, steps[r].now).Rotate?
  }

  /** Step `w` gives the token a new successor. */
  ghost predicate RotatesAt(steps: seq<Step>, w: nat, id: nat, ttl: nat)
    requires w < |steps|
  {
    var rows, rows' := Run(steps, w, ttl).tokens.rows, Run(steps, w + 1, ttl).tokens.rows;
    id < |rows| && |rows'| == |rows| + 1 && rows'[id].replacedBy == Some(|rows|)
  }

  /** What a refresh does when it writes is what it decided when it read. */
  lemma {:induction false} PendingSince(steps: seq<Step>, r: nat, n: nat, ttl: nat)
    requires Waits(steps, r, n)
    ensures var pending := Run(steps, n, ttl).pending;
      && steps[r].caller in pending
      && pending[steps[r].caller]
         == Pending(steps[r].id, Decide(Run(steps, r, ttl).tokens, steps[r].id, steps[r].now), steps[r].now)
  {
    if r + 1 < n {
      PendingSince(steps, r, n - 1, ttl);
    }
  }

  lemma {:induction false} ReadOf(steps: seq<Step>, n: nat, caller: nat, ttl: nat) returns (r: nat)
    requires n <= |steps| && caller in Run(steps, n, ttl).pending
    ensures Waits(steps, r, n) && steps[r].caller == caller
  {
    if CallerOf(steps[n - 1]) == Some(caller) {
      r := n - 1;
    } else {
      r := ReadOf(steps, n - 1, caller, ttl);
    }
  }

  lemma WindowRotates(steps: seq<Step>, r: nat, w: nat, id: nat, ttl: nat)
    requires Window(steps, r, w, id, ttl)
    ensures RotatesAt(steps, w, id, ttl)
  {
    PendingSince(steps, r, w, ttl);
    LinksInEveryRun(steps, w, w, ttl);
    hide Linked, Grows;
  }

  lemma RotationHasWindow(steps: seq<Step>, w: nat, id: nat, ttl: nat) returns (r: nat)
    requires w < |steps| && RotatesAt(steps, w, id, ttl)
    ensures Window(steps, r, w, id, ttl)
  {
    LinksInEveryRun(steps, w, w, ttl);
    var s := Run(steps, w, ttl);
    LinkTargets(s.tokens.rows);
    hide Linked, Grows, Decide;
    var caller := steps[w].caller;
    r := ReadOf(steps, w, caller, ttl);
    PendingSince(steps, r, w, ttl);
  }

  lemma RevokedAfter(steps: seq<Step>, m: nat, n: nat, id: nat, ttl: nat)
    requires m < n <= |steps| && RotatesAt(steps, m, id, ttl)
    ensures var rows := Run(steps, n, ttl).tokens.rows; id < |rows| && Revoked(rows[id])
  {
    RevokedAt(steps, m, id, ttl);
    LinksInEveryRun(steps, m + 1, n, ttl);
    hide Run, RotatesAt, Linked, PendingValid;
  }

  lemma RevokedAt(steps: seq<Step>, m: nat, id: nat, ttl: nat)
    requires m < |steps| && RotatesAt(steps, m, id, ttl)
    ensures var rows := Run(steps, m + 1, ttl).tokens.rows; id < |rows| && Revoked(rows[id])
  {
    LinksInEveryRun(steps, m + 1, m + 1, ttl);
    hide Run, Grows, PendingValid;
  }

  /** A refresh that rotates a token rotated before must have read it before that. */
  lemma ReadBeforeRotation(steps: seq<Step>, m: nat, r: nat, n: nat, id: nat, ttl: nat)
    requires m < n < |steps| && RotatesAt(steps, m, id, ttl) && Window(steps, r, n, id, ttl)
    ensures r < m
  {
    var q := RotationHasWindow(steps, m, id, ttl);
    hide Run, RotatesAt;
    if r > m { RevokedAfter(steps, m, r, id, ttl); }
  }

  ghost predicate RotatedTwice(steps: seq<Step>, id: nat, ttl: nat) {
    exists m, n | 0 <= m < n < |steps| :: RotatesAt(steps, m, id, ttl) && RotatesAt(steps, n, id, ttl)
  }

  /** The later of two windows to write is open when the other writes. */
  ghost predicate WindowsOverlap(steps: seq<Step>, id: nat, ttl: nat) {
    exists q: nat, m: nat, r: nat, n: nat :: Window(steps, q, m, id, ttl) && Window(steps, r, n, id, ttl) && r < m < n
  }

  /**
   * Under any interleaving, a token is rotated twice if and only if two refreshes that
   * found it fit for rotation overlap: each reads before the other writes.
   */
  lemma RotatedTwiceIff(steps: seq<Step>, id: nat, ttl: nat)
    ensures RotatedTwice(steps, id, ttl) <==> WindowsOverlap(steps, id, ttl)
  {
    hide RotatesAt, Window;
    if RotatedTwice(steps, id, ttl) {
      var m, n :| 0 <= m < n < |steps| && RotatesAt(steps, m, id, ttl) && RotatesAt(steps, n, id, ttl);
      var q := RotationHasWindow(steps, m, id, ttl);
      var r := RotationHasWindow(steps, n, id, ttl);
      ReadBeforeRotation(steps, m, r, n, id, ttl);
    }
    if WindowsOverlap(steps, id, ttl) {
      var q: nat, m: nat, r: nat, n: nat :| Window(steps, q, m, id, ttl) && Window(steps, r, n, id, ttl) && r < m < n;
      WindowRotates(steps, q, m, id, ttl);
      WindowRotates(steps, r, n, id, ttl);
      WindowBounds(steps, r, n, id, ttl);
    }
  }

  lemma WindowBounds(steps: seq<Step>, r: nat, w: nat, id: nat, ttl: nat)
    requires Window(steps, r, w, id, ttl)
    ensures w < |steps|
  {
  }

  // ---- What revoking all of a user's tokens achieves -----------------------------------

  /** Step `k` revokes every token of the user: a logout-all, or the response to a reused token. */
  predicate RevokesAll(steps: seq<Step>, k: nat, user: nat, ttl: nat)
    requires k < |steps|
  {
    match steps[k]
    case LogoutAllStep(u, _) => u == user
    case WriteStep(caller) =>
      var pending := Run(steps, k, ttl).pending;
      caller in pending && pending[caller].decision == RevokeAll(user)
    case _ => false
  }

  ghost predicate NoneUnrevoked(s: State, user: nat) {
    forall i | 0 <= i < |s.tokens.rows| && s.tokens.rows[i].user == user :: Revoked(s.tokens.rows[i])
  }

  /** No refresh that decided to rotate a token of the user is still to write. */
  ghost predicate NoneRotating(s: State, user: nat) {
    forall caller | caller in s.pending && s.pending[caller].decision.Rotate? :: s.pending[caller].decision.user != user
  }

  lemma RevokeAllRevokes(steps: seq<Step>, k: nat, user: nat, ttl: nat)
    requires k < |steps| && RevokesAll(steps, k, user, ttl)
    ensures NoneUnrevoked(Run(steps, k + 1, ttl), user)
    ensures NoneRotating(Run(steps, k, ttl), user) ==> NoneRotating(Run(steps, k + 1, ttl), user)
  {
  }

  /** When a user without unrevoked tokens gets one: a login, or the write of a rotation. */
  lemma UnrevokedStep(s: State, step: Step, ttl: nat, user: nat)
    requires PendingValid(s) && NoneUnrevoked(s, user)
    ensures !NoneUnrevoked(Next(s, step, ttl), user) <==>
      || (step.IssueStep? && step.user == user)
      || (step.WriteStep? && step.caller in s.pending && s.pending[step.caller].decision.Rotate?
          && s.pending[step.caller].decision.user == user)
    ensures NoneRotating(s, user) ==> NoneRotating(Next(s, step, ttl), user)
  {
    var rows' := Next(s, step, ttl).tokens.rows;
    if |rows'| > |s.tokens.rows| {
      assert !Revoked(rows'[|s.tokens.rows|]);
    }
  }

  /**
   * Revoking all of a user's tokens lasts until the next login, if no refresh of theirs is
   * between its read and its write.
   */
  lemma {:induction false} RevokeAllHolds(steps: seq<Step>, k: nat, n: nat, user: nat, ttl: nat)
    requires k < n <= |steps| && RevokesAll(steps, k, user, ttl) && NoneRotating(Run(steps, k, ttl), user)
    requires forall j | k < j < n && steps[j].IssueStep? :: steps[j].user != user
    ensures NoneUnrevoked(Run(steps, n, ttl), user) && NoneRotating(Run(steps, n, ttl), user)
  {
    if n == k + 1 {
      RevokeAllRevokes(steps, k, user, ttl);
    } else {
      RevokeAllHolds(steps, k, n - 1, user, ttl);
      LinksInEveryRun(steps, n - 1, n - 1, ttl);
      UnrevokedStep(Run(steps, n - 1, ttl), steps[n - 1], ttl, user);
      hide Next, Linked, Grows, PendingValid, NoneUnrevoked;
    }
  }

  /** A refresh that read a fit token of the user before step `k` writes at step `w`. */
  ghost predicate Outruns(steps: seq<Step>, k: nat, w: nat, user: nat, ttl: nat) {
    exists r: nat, id: nat | r < k ::
      && Window(steps, r, w, id, ttl)
      && Decide(Run(steps, r, ttl).tokens, id, steps[r].now).user == user
  }

  /** A read that finds a token of the user fit was not made while there was none. */
  lemma FitReadIsEarlier(steps: seq<Step>, k: nat, r: nat, m: nat, user: nat, ttl: nat)
    requires k < m < |steps| && RevokesAll(steps, k, user, ttl) && Waits(steps, r, m)
    requires forall j | k < j <= m :: NoneUnrevoked(Run(steps, j, ttl), user)
    requires var d := Decide(Run(steps, r, ttl).tokens, steps[r].id, steps[r].now); d.Rotate? && d.user == user
    ensures r < k
  {
    hide Run;
  }

  /**
   * How long it lasts, exactly: the first step after it that gives the user an unrevoked
   * token is a login, or the write of a refresh that had read before it.
   */
  lemma RevokeAllOutrunIff(steps: seq<Step>, k: nat, m: nat, user: nat, ttl: nat)
    requires k < m < |steps| && RevokesAll(steps, k, user, ttl)
    requires forall j | k < j <= m :: NoneUnrevoked(Run(steps, j, ttl), user)
    ensures !NoneUnrevoked(Run(steps, m + 1, ttl), user) <==>
      (steps[m].IssueStep? && steps[m].user == user) || Outruns(steps, k, m, user, ttl)
  {
    var s, step := Run(steps, m, ttl), steps[m];
    LinksInEveryRun(steps, m, m, ttl);
    UnrevokedStep(s, step, ttl, user);
    assert Run(steps, m + 1, ttl) == Next(s, step, ttl);
    hide Next, Run, Linked, Grows, PendingValid;
    if Outruns(steps, k, m, user, ttl) {
      var r: nat, id: nat :| r < k && Window(steps, r, m, id, ttl)
        && Decide(Run(steps, r, ttl).tokens, id, steps[r].now).user == user;
      PendingSince(steps, r, m, ttl);
    }
    if step.WriteStep? && step.caller in s.pending && s.pending[step.caller].decision.Rotate?
       && s.pending[step.caller].decision.user == user {
      var r := ReadOf(steps, m, step.caller, ttl);
      PendingSince(steps, r, m, ttl);
      FitReadIsEarlier(steps, k, r, m, user, ttl);
      assert Window(steps, r, m, steps[r].id, ttl);
    }
  }

  /** The shortest run in which it does not last: read, logout-all, write. */
  lemma OutrunLogoutAll(user: nat, now: nat, ttl: nat)
    requires ttl > 0
    ensures var steps := [SetActive({user}), IssueStep(user, now), ReadStep(0, 0, now), LogoutAllStep(user, now),
                          WriteStep(0)];
      && RevokesAll(steps, 3, user, ttl) && NoneUnrevoked(Run(steps, 4, ttl), user)
      && !NoneUnrevoked(Run(steps, 5, ttl), user)
  {
    var steps := [SetActive({user}), IssueStep(user, now), ReadStep(0, 0, now), LogoutAllStep(user, now),
                  WriteStep(0)];
    var s1, s2, s3 := Run(steps, 1, ttl), Run(steps, 2, ttl), Run(steps, 3, ttl);
    RunStart(steps, ttl);
    assert s1 == Next(Run(steps, 0, ttl), steps[0], ttl);
    assert s2 == Next(s1, steps[1], ttl) && |s2.tokens.rows| == 1;
    assert s3 == Next(s2, steps[2], ttl) && s3.pending[0].decision == Rotate(user, 0);
    var s4, s5 := Run(steps, 4, ttl), Run(steps, 5, ttl);
    assert s4 == Next(s3, steps[3], ttl) && Revoked(s4.tokens.rows[0]);
    assert s5 == Next(s4, steps[4], ttl) && s5.tokens.rows[1].user == user;
  }

  lemma LinkTargets(rows: seq<Token>)
    requires Linked(rows)
    ensures forall j | 0 <= j < |rows| && rows[j].replacedBy.Some? :: rows[j].replacedBy.value < |rows|
  {
  }

  // ---- Calls one at a time ---------------------------------------------------------------

  function Refresh(s: Tokens, id: nat, now: nat, ttl: nat): (Tokens, Result<nat, Error>) {
    match Decide(s, id, now)
    case Reject(e) => (s, Err(e))
    case RevokeAll(user) => (RevokeUser(s, user, now), Err(Reused))
    case Rotate(user, chain) => (RotateToken(s, id, user, chain, now, ttl), Ok(|s.rows|))
  }

  /**
   * Refresh succeeds exactly for a known, unrevoked, unexpired token of an active user:
   * that token is revoked now and linked to its successor, and no other changes. Of the
   * refusals, revoked comes before expired and expired before disabled; all but the first
   * change nothing. A revoked token, rotated or not, revokes now all that is left of its
   * user's tokens.
   */
  lemma RefreshMeaning(s: Tokens, id: nat, now: nat, ttl: nat)
    ensures var (s', r) := Refresh(s, id, now, ttl);
      if id >= |s.rows| then r == Err(Unknown) && s' == s
      else if s.rows[id].revokedAt.Some? then
        r == Err(Reused) && s' == s.(rows := s'.rows) && RevokedNow(s.rows, s'.rows, s.rows[id].user, now)
      else if s.rows[id].expiresAt <= now then r == Err(Expired) && s' == s
      else if s.rows[id].user !in s.active then r == Err(Disabled) && s' == s
      else
        && r == Ok(|s.rows|) && s' == s.(rows := s'.rows) && |s'.rows| == |s.rows| + 1
        && s'.rows[id].revokedAt == Some(now) && s'.rows[id].replacedBy == Some(|s.rows|)
        && s'.rows[id].(revokedAt := None, replacedBy := s.rows[id].replacedBy) == s.rows[id]
        && s'.rows[|s.rows|] == Token(s.rows[id].user, now + ttl, None, None, s.rows[id].chain)
        && forall i | 0 <= i < |s.rows| && i != id :: s'.rows[i] == s.rows[i]
    ensures Refresh(s, id, now, ttl).1.Ok? <==>
      id < |s.rows| && IsRefreshTokenActive(s.rows[id], now) && s.rows[id].user in s.active
  {
  }

  /** The user's tokens that were not revoked are revoked at this time, and nothing else is different. */
  ghost predicate RevokedNow(rows: seq<Token>, rows': seq<Token>, user: nat, now: nat) {
    && |rows'| == |rows|
    && forall i | 0 <= i < |rows| ::
         if rows[i].user == user && rows[i].revokedAt == None then
           rows'[i].revokedAt == Some(now) && rows'[i].(revokedAt := None) == rows[i]
         else rows'[i] == rows[i]
  }

  /** Exactly the presented token becomes unusable, and one revoked before keeps its time. */
  lemma LogoutMeaning(s: Tokens, id: nat, user: nat, now: nat)
    ensures var s' := RevokeOne(s, id, now);
      && s' == s.(rows := s'.rows) && |s'.rows| == |s.rows|
      && forall i | 0 <= i < |s.rows| ::
           if i == id && s.rows[i].revokedAt == None then
             s'.rows[i].revokedAt == Some(now) && s'.rows[i].(revokedAt := None) == s.rows[i]
           else s'.rows[i] == s.rows[i]
    ensures var s' := RevokeUser(s, user, now); s' == s.(rows := s'.rows) && RevokedNow(s.rows, s'.rows, user, now)
  {
  }

  /** The domain rule counts only rotated tokens as reuse; the service also reacts to logged-out ones. */
  lemma ReuseRuleDiffersIff(s: Tokens, id: nat, now: nat, ttl: nat)
    requires id < |s.rows|
    ensures (Refresh(s, id, now, ttl).1 == Err(Reused) <==> IsReuseAttempt(s.rows[id]))
      <==> !(Revoked(s.rows[id]) && s.rows[id].replacedBy.None?)
  {
  }

  datatype Call =
    | Login(user: nat, now: nat)
    | RefreshCall(id: nat, now: nat)
    | LogoutCall(id: nat, now: nat)
    | LogoutAllCall(user: nat, now: nat)
    | Activate(active: set<nat>)

  function Called(s: Tokens, call: Call, ttl: nat): Tokens {
    match call
    case Login(user, now) => Issue(s, user, now, ttl)
    case RefreshCall(id, now) => Refresh(s, id, now, ttl).0
    case LogoutCall(id, now) => RevokeOne(s, id, now)
    case LogoutAllCall(user, now) => RevokeUser(s, user, now)
    case Activate(active) => s.(active := active)
  }

  function Calls(calls: seq<Call>, n: nat, ttl: nat): Tokens
    requires n <= |calls|
  {
    if n == 0 then EMPTY else Called(Calls(calls, n - 1, ttl), calls[n - 1], ttl)
  }

  /** Each login's tokens form one chain: all but the last are replaced, and all belong to its user. */
  ghost predicate Chained(s: Tokens) {
    && Linked(s.rows)
    && (forall i | 0 <= i < |s.rows| :: s.rows[i].chain < s.logins)
    && (forall i, j | 0 <= i < j < |s.rows| && s.rows[i].chain == s.rows[j].chain ::
          s.rows[i].replacedBy.Some? && s.rows[i].user == s.rows[j].user)
    && (forall i | 0 <= i < |s.rows| && s.rows[i].replacedBy.Some? ::
          s.rows[s.rows[i].replacedBy.value].chain == s.rows[i].chain)
  }

  lemma SameLinksKeepChains(s: Tokens, s': Tokens)
    requires Chained(s) && Linked(s'.rows) && SameLinks(s.rows, s'.rows) && s'.logins == s.logins
    ensures Chained(s')
  {
  }

  lemma RotationKeepsChains(s: Tokens, id: nat, now: nat, ttl: nat)
    requires Chained(s) && id < |s.rows| && s.rows[id].replacedBy.None?
    ensures Chained(RotateToken(s, id, s.rows[id].user, s.rows[id].chain, now, ttl))
  {
    RotationKeepsLinks(s, id, s.rows[id].chain, now, ttl);
    LinkTargets(s.rows);
    hide Linked, Grows;
    var s' := RotateToken(s, id, s.rows[id].user, s.rows[id].chain, now, ttl);
    assert s'.rows[|s.rows|].chain == s.rows[id].chain && s'.rows[|s.rows|].replacedBy.None?;
    assert forall j | 0 <= j < |s.rows| && j != id :: s'.rows[j] == s.rows[j];
  }

  lemma IssueKeepsChains(s: Tokens, user: nat, now: nat, ttl: nat)
    requires Chained(s)
    ensures Chained(Issue(s, user, now, ttl))
  {
    IssueKeepsLinks(s, user, now, ttl);
    LinkTargets(s.rows);
    hide Linked;
  }

  lemma UnrevokedIsTail(s: Tokens, id: nat)
    requires Chained(s) && id < |s.rows| && !Revoked(s.rows[id])
    ensures s.rows[id].replacedBy.None?
  {
  }

  lemma ChainedIsLinked(s: Tokens)
    requires Chained(s)
    ensures Linked(s.rows)
  {
  }

  lemma CallKeepsChains(s: Tokens, call: Call, ttl: nat)
    requires Chained(s)
    ensures Chained(Called(s, call, ttl)) && Grows(s.rows, Called(s, call, ttl).rows)
  {
    ChainedIsLinked(s);
    hide RevokeUser, RevokeOne, Issue, SameLinks;
    GrowsFromItself(s.rows);
    match call
    case Login(user, now) =>
      hide Chained, Linked, Grows;
      IssueKeepsLinks(s, user, now, ttl);
      IssueKeepsChains(s, user, now, ttl);
    case RefreshCall(id, now) =>
      hide Chained, Linked;
      match Decide(s, id, now) {
        case Reject(_) =>
        case RevokeAll(user) =>
          RevocationKeepsLinks(s, 0, user, now);
          SameLinksKeepChains(s, RevokeUser(s, user, now));
        case Rotate(user, chain) =>
          UnrevokedIsTail(s, id);
          RotationKeepsLinks(s, id, chain, now, ttl);
          RotationKeepsChains(s, id, now, ttl);
          hide Grows, RotateToken;
      }
    case LogoutCall(id, now) =>
      hide Chained, Linked;
      RevocationKeepsLinks(s, id, 0, now);
      SameLinksKeepChains(s, RevokeOne(s, id, now));
    case LogoutAllCall(user, now) =>
      hide Chained, Linked;
      RevocationKeepsLinks(s, 0, user, now);
      SameLinksKeepChains(s, RevokeUser(s, user, now));
    case Activate(_) =>
  }

  lemma {:induction false} ChainsInEveryRun(calls: seq<Call>, n: nat, m: nat, ttl: nat)
    requires n <= m <= |calls|
    ensures Chained(Calls(calls, m, ttl)) && Grows(Calls(calls, n, ttl).rows, Calls(calls, m, ttl).rows)
  {
    if m > 0 {
      hide Called, Chained;
      ChainsInEveryRun(calls, if n < m then n else m - 1, m - 1, ttl);
      CallKeepsChains(Calls(calls, m - 1, ttl), calls[m - 1], ttl);
      if n < m {
        hide Grows;
        GrowsTransitively(Calls(calls, n, ttl).rows, Calls(calls, m - 1, ttl).rows, Calls(calls, m, ttl).rows);
      }
    }
  }

  // ---- Calls are runs ------------------------------------------------------------------

  /** The step a call begins with; a refresh reads. */
  function FirstStep(call: Call): Step {
    match call
    case Login(user, now) => IssueStep(user, now)
    case RefreshCall(id, now) => ReadStep(0, id, now)
    case LogoutCall(id, now) => LogoutStep(id, now)
    case LogoutAllCall(user, now) => LogoutAllStep(user, now)
    case Activate(active) => SetActive(active)
  }

  /** Each call as two steps; the second is the write of a refresh, and otherwise does nothing. */
  function StepsOf(calls: seq<Call>): (steps: seq<Step>)
    ensures |steps| == 2 * |calls|
  {
    seq(2 * |calls|, j requires 0 <= j < 2 * |calls| => if j % 2 == 0 then FirstStep(calls[j / 2]) else WriteStep(0))
  }

  /** A call is its read followed at once by its write. */
  lemma CallIsReadThenWrite(s: Tokens, call: Call, ttl: nat)
    ensures Next(Next(State(s, map[]), FirstStep(call), ttl), WriteStep(0), ttl) == State(Called(s, call, ttl), map[])
  {
    if call.RefreshCall? {
      var read := Next(State(s, map[]), FirstStep(call), ttl);
      assert read.pending - {0} == map[];
      if Decide(s, call.id, call.now).Rotate? {
        assert call.id < |s.rows|;
      }
    }
  }

  lemma {:induction false} CallsAreRuns(calls: seq<Call>, n: nat, ttl: nat)
    requires n <= |calls|
    ensures Run(StepsOf(calls), 2 * n, ttl) == State(Calls(calls, n, ttl), map[])
  {
    hide StepsOf, Next, Called, FirstStep, Run;
    if n == 0 {
      RunStart(StepsOf(calls), ttl);
    } else {
      StepsAt(calls, n - 1);
      CallsAreRuns(calls, n - 1, ttl);
      CallIsReadThenWrite(Calls(calls, n - 1, ttl), calls[n - 1], ttl);
      TwoSteps(StepsOf(calls), 2 * n - 2, ttl);
    }
  }

  lemma RunStart(steps: seq<Step>, ttl: nat)
    ensures Run(steps, 0, ttl) == State(EMPTY, map[])
  {
  }

  lemma StepsAt(calls: seq<Call>, n: nat)
    requires n < |calls|
    ensures StepsOf(calls)[2 * n] == FirstStep(calls[n]) && StepsOf(calls)[2 * n + 1] == WriteStep(0)
  {
  }

  lemma TwoSteps(steps: seq<Step>, n: nat, ttl: nat)
    requires n + 2 <= |steps|
    ensures Run(steps, n + 2, ttl) == Next(Next(Run(steps, n, ttl), steps[n], ttl), steps[n + 1], ttl)
  {
    hide Next;
    assert Run(steps, n + 1, ttl) == Next(Run(steps, n, ttl), steps[n], ttl);
  }

  lemma AtomicWindow(calls: seq<Call>, r: nat, w: nat, id: nat, ttl: nat)
    requires Window(StepsOf(calls), r, w, id, ttl)
    ensures w == r + 1
  {
    hide Run, Decide;
    var steps := StepsOf(calls);
    assert CallerOf(steps[r + 1]) == Some(steps[r].caller);
  }

  /** Calls that run one at a time do not overlap, so no token is rotated twice. */
  lemma AtomicCallsRotateOnce(calls: seq<Call>, id: nat, ttl: nat)
    ensures !RotatedTwice(StepsOf(calls), id, ttl)
  {
    hide Window, RotatedTwice, StepsOf;
    var steps := StepsOf(calls);
    RotatedTwiceIff(steps, id, ttl);
    forall r: nat, w: nat | Window(steps, r, w, id, ttl) ensures w == r + 1 {
      AtomicWindow(calls, r, w, id, ttl);
    }
  }

  lemma SuccessRotates(calls: seq<Call>, a: nat, ttl: nat)
    requires a < |calls| && calls[a].RefreshCall?
    requires Refresh(Calls(calls, a, ttl), calls[a].id, calls[a].now, ttl).1.Ok?
    ensures RotatesAt(StepsOf(calls), 2 * a + 1, calls[a].id, ttl)
  {
    var steps := StepsOf(calls);
    CallsAreRuns(calls, a, ttl);
    CallsAreRuns(calls, a + 1, ttl);
    assert steps[2 * a] == FirstStep(calls[a]);
    assert Run(steps, 2 * a + 1, ttl) == Next(Run(steps, 2 * a, ttl), steps[2 * a], ttl);
    hide Run, RevokeUser;
    assert Calls(calls, a + 1, ttl) == Called(Calls(calls, a, ttl), calls[a], ttl);
  }

  /** At most one token of a chain, its last, is unrevoked. */
  lemma OneUnrevokedPerChain(calls: seq<Call>, n: nat, ttl: nat, i: nat, j: nat)
    requires n <= |calls| && i < j < |Calls(calls, n, ttl).rows|
    requires Calls(calls, n, ttl).rows[i].chain == Calls(calls, n, ttl).rows[j].chain
    ensures Revoked(Calls(calls, n, ttl).rows[i])
  {
    ChainsInEveryRun(calls, n, n, ttl);
  }

  /** A token is rotated successfully at most once; after that it counts as reused. */
  lemma RotatedAtMostOnce(calls: seq<Call>, a: nat, b: nat, ttl: nat)
    requires a < b < |calls| && calls[a].RefreshCall? && calls[b].RefreshCall? && calls[a].id == calls[b].id
    requires Refresh(Calls(calls, a, ttl), calls[a].id, calls[a].now, ttl).1.Ok?
    ensures Refresh(Calls(calls, b, ttl), calls[b].id, calls[b].now, ttl).1 == Err(Reused)
  {
    SuccessRotates(calls, a, ttl);
    AtomicCallsRotateOnce(calls, calls[a].id, ttl);
    RevokedAfter(StepsOf(calls), 2 * a + 1, 2 * b, calls[a].id, ttl);
    CallsAreRuns(calls, b, ttl);
    hide StepsOf, RotatesAt, Run;
    if Refresh(Calls(calls, b, ttl), calls[b].id, calls[b].now, ttl).1.Ok? {
      SuccessRotates(calls, b, ttl);
    }
  }

  /** Logins and registrations of a user among the first `n` calls. */
  function Logins(calls: seq<Call>, n: nat, user: nat): nat
    requires n <= |calls|
  {
    if n == 0 then 0
    else Logins(calls, n - 1, user) + if calls[n - 1].Login? && calls[n - 1].user == user then 1 else 0
  }

  /** A user's tokens that have no successor. */
  function Tails(rows: seq<Token>, user: nat): nat {
    if rows == [] then 0
    else
      var last := rows[|rows| - 1];
      Tails(rows[..|rows| - 1], user) + if last.user == user && last.replacedBy.None? then 1 else 0
  }

  function Unrevoked(rows: seq<Token>, user: nat): nat {
    if rows == [] then 0
    else
      var last := rows[|rows| - 1];
      Unrevoked(rows[..|rows| - 1], user) + if last.user == user && !Revoked(last) then 1 else 0
  }

  lemma {:induction false} TailsPointwise(rows: seq<Token>, rows': seq<Token>, user: nat)
    requires |rows| == |rows'|
    requires forall i | 0 <= i < |rows| ::
      rows[i].user == rows'[i].user && (rows[i].replacedBy.None? <==> rows'[i].replacedBy.None?)
    ensures Tails(rows, user) == Tails(rows', user)
  {
    if rows != [] { TailsPointwise(rows[..|rows| - 1], rows'[..|rows| - 1], user); }
  }

  lemma {:induction false} TailsReplace(rows: seq<Token>, id: nat, t: Token, user: nat)
    requires id < |rows| && rows[id].replacedBy.None? && t.replacedBy.Some?
    ensures Tails(rows[id := t], user) == Tails(rows, user) - if rows[id].user == user then 1 else 0
  {
    var n := |rows| - 1;
    if id == n {
      assert rows[id := t][..n] == rows[..n];
    } else {
      assert rows[id := t][..n] == rows[..n][id := t];
      TailsReplace(rows[..n], id, t, user);
    }
  }

  lemma TailsAppend(rows: seq<Token>, t: Token, user: nat)
    ensures Tails(rows + [t], user) == Tails(rows, user) + if t.user == user && t.replacedBy.None? then 1 else 0
  {
    assert (rows + [t])[..|rows|] == rows;
  }

  lemma {:induction false} UnrevokedAreTails(rows: seq<Token>, user: nat)
    requires forall i | 0 <= i < |rows| :: rows[i].replacedBy.Some? ==> Revoked(rows[i])
    ensures Unrevoked(rows, user) <= Tails(rows, user)
  {
    if rows != [] { UnrevokedAreTails(rows[..|rows| - 1], user); }
  }

  lemma RefreshTails(s: Tokens, id: nat, now: nat, ttl: nat, user: nat)
    requires Chained(s)
    ensures Tails(Refresh(s, id, now, ttl).0.rows, user) == Tails(s.rows, user)
  {
    hide Chained, Tails;
    match Decide(s, id, now)
    case Reject(_) =>
    case RevokeAll(u) => TailsPointwise(s.rows, RevokeUser(s, u, now).rows, user);
    case Rotate(u, chain) =>
      var t := s.rows[id].(revokedAt := Some(now), replacedBy := Some(|s.rows|));
      UnrevokedIsTail(s, id);
      TailsReplace(s.rows, id, t, user);
      TailsAppend(s.rows[id := t], Token(u, now + ttl, None, None, chain), user);
  }

  lemma CallTails(s: Tokens, call: Call, ttl: nat, user: nat)
    requires Chained(s)
    ensures Tails(Called(s, call, ttl).rows, user)
         == Tails(s.rows, user) + if call.Login? && call.user == user then 1 else 0
  {
    hide Chained, Tails, Refresh;
    match call
    case Login(u, now) => TailsAppend(s.rows, Token(u, now + ttl, None, None, s.logins), user);
    case RefreshCall(id, now) => RefreshTails(s, id, now, ttl, user);
    case LogoutCall(id, now) => TailsPointwise(s.rows, RevokeOne(s, id, now).rows, user);
    case LogoutAllCall(u, now) => TailsPointwise(s.rows, RevokeUser(s, u, now).rows, user);
    case Activate(_) =>
  }

  /** A user has exactly one chain end per login or registration. */
  lemma {:induction false} OneTailPerLogin(calls: seq<Call>, n: nat, ttl: nat, user: nat)
    requires n <= |calls|
    ensures Tails(Calls(calls, n, ttl).rows, user) == Logins(calls, n, user)
  {
    TailsOfNone(user);
    hide Called, Tails, Chained, Grows;
    if n > 0 {
      OneTailPerLogin(calls, n - 1, ttl, user);
      ChainsInEveryRun(calls, n - 1, n - 1, ttl);
      CallTails(Calls(calls, n - 1, ttl), calls[n - 1], ttl, user);
    }
  }

  lemma TailsOfNone(user: nat)
    ensures Tails(EMPTY.rows, user) == 0
  {
  }

  /** So a user never has more unrevoked tokens than logins and registrations. */
  lemma UnrevokedBoundedByLogins(calls: seq<Call>, n: nat, ttl: nat, user: nat)
    requires n <= |calls|
    ensures Unrevoked(Calls(calls, n, ttl).rows, user) <= Logins(calls, n, user)
  {
    ChainsInEveryRun(calls, n, n, ttl);
    UnrevokedAreTails(Calls(calls, n, ttl).rows, user);
    OneTailPerLogin(calls, n, ttl, user);
  }

  // ---- The service ------------------------------------------------------------------------

  class AuthService {
    const refreshTtl: nat
    var tokens: Tokens

    ghost predicate Valid()
      reads this
    {
      Chained(tokens)
    }

    constructor (refreshTtl: nat)
      ensures Valid() && this.refreshTtl == refreshTtl && tokens == EMPTY
    {
      this.refreshTtl, tokens := refreshTtl, EMPTY;
    }

    /** A login or registration: one more token, active until it expires, in a chain of its own. */
    method CreateRefreshToken(user: nat, now: nat) returns (id: nat)
      requires Valid()
      modifies this`tokens
      ensures Valid() && tokens == Issue(old(tokens), user, now, refreshTtl) && id == |old(tokens).rows|
      ensures tokens.rows[..id] == old(tokens.rows) && tokens.rows[id].user == user
      ensures forall at: nat :: IsRefreshTokenActive(tokens.rows[id], at) <==> at < now + refreshTtl
      ensures forall i | 0 <= i < id :: tokens.rows[i].chain != tokens.rows[id].chain
    {
      IssueKeepsChains(tokens, user, now, refreshTtl);
      id := |tokens.rows|;
      tokens := tokens.(rows := tokens.rows + [Token(user, now + refreshTtl, None, None, tokens.logins)],
                        logins := tokens.logins + 1);
    }

    /** `refresh`: the new token's id, or why it was refused. */
    method RefreshToken(presented: nat, now: nat) returns (r: Result<nat, Error>)
      requires Valid()
      modifies this`tokens
      ensures Valid() && (tokens, r) == Refresh(old(tokens), presented, now, refreshTtl)
    {
      CallKeepsChains(tokens, RefreshCall(presented, now), refreshTtl);
      hide Chained;
      if presented >= |tokens.rows| { return Err(Unknown); }
      var existing := tokens.rows[presented];
      if existing.revokedAt.Some? {
        RevokeAll(existing.user, now);
        return Err(Reused);
      }
      if existing.expiresAt <= now { return Err(Expired); }
      if existing.user !in tokens.active { return Err(Disabled); }
      var created := |tokens.rows|;
      var rows := tokens.rows + [Token(existing.user, now + refreshTtl, None, None, existing.chain)];
      var rotated := existing.(revokedAt := Some(now), replacedBy := Some(created));
      assert rows[presented := rotated] == tokens.rows[presented := rotated] + [rows[created]];
      tokens := tokens.(rows := rows[presented := rotated]);
      return Ok(created);
    }

    /** The presented token never works again; no other changes, and no earlier revocation time. */
    method Logout(presented: nat, now: nat)
      requires Valid()
      modifies this`tokens
      ensures Valid() && tokens == RevokeOne(old(tokens), presented, now)
      ensures forall later: nat :: Refresh(tokens, presented, later, refreshTtl).1.Err?
      ensures |tokens.rows| == |old(tokens).rows|
      ensures forall i | 0 <= i < |tokens.rows| && (i != presented || Revoked(old(tokens).rows[i])) ::
        tokens.rows[i] == old(tokens).rows[i]
    {
      CallKeepsChains(tokens, LogoutCall(presented, now), refreshTtl);
      hide Chained;
      if presented < |tokens.rows| && tokens.rows[presented].revokedAt.None? {
        tokens := tokens.(rows := tokens.rows[presented := tokens.rows[presented].(revokedAt := Some(now))]);
      }
    }

    /** Afterwards no token of the user works; all others, and earlier revocation times, are as before. */
    method LogoutAll(user: nat, now: nat)
      requires Valid()
      modifies this`tokens
      ensures Valid() && tokens == RevokeUser(old(tokens), user, now)
      ensures forall i | 0 <= i < |tokens.rows| ::
        if tokens.rows[i].user == user then Revoked(tokens.rows[i]) else tokens.rows[i] == old(tokens).rows[i]
      ensures forall i | 0 <= i < |tokens.rows| && Revoked(old(tokens).rows[i]) :: tokens.rows[i] == old(tokens).rows[i]
    {
      CallKeepsChains(tokens, LogoutAllCall(user, now), refreshTtl);
      hide Chained;
      RevokeAll(user, now);
    }

    method RevokeAll(user: nat, now: nat)
      modifies this`tokens
      ensures tokens == RevokeUser(old(tokens), user, now)
    {
      var rows := tokens.rows;
      for i := 0 to |rows|
        invariant |rows| == |tokens.rows|
        invariant forall k | 0 <= k < |rows| ::
          rows[k] == if k < i then RevokeUser(tokens, user, now).rows[k] else tokens.rows[k]
      {
        if rows[i].user == user && rows[i].revokedAt.None? {
          rows := rows[i := rows[i].(revokedAt := Some(now))];
        }
      }
      tokens := tokens.(rows := rows);
    }
  }
}
