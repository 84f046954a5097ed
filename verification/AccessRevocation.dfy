/**
 * Access-token revocation: a per-token denylist and a per-user cutoff, both Redis keys
 * with an expiry, and the acceptance decision that reads them. Times are milliseconds of
 * one clock that does not run backwards; token times are seconds, as in RFC 7519.
 */
module AccessRevocation {
  import opened Options

  datatype Claims = Claims(user: nat, jti: nat, iat: nat, exp: real)
  /** The two lifetimes, and by how many seconds signing may read the clock later for exp than for iat. */
  datatype Config = Config(accessTtl: nat, refreshTtl: nat, signingLag: nat)

  /** A Redis value with the instant at which it expires. */
  datatype Entry = Entry(value: nat, until: int)

  datatype Store = Store(denied: map<nat, Entry>, cutoffs: map<nat, Entry>)

  datatype Verdict = Accepted | InvalidOrExpired | TokenRevoked | SessionRevoked

  function Seconds(ms: nat): nat { ms / 1000 }

  function Ceil(x: real): int { -((-x).Floor) }

  function Max(a: int, b: int): int { if a >= b then a else b }

  /** `SET key value EX ...`, with the client's `max(1, ceil(ttl))`. */
  function Keep(value: nat, ttl: real, at: nat): Entry { Entry(value, at + 1000 * Max(1, Ceil(ttl))) }

  predicate Present(m: map<nat, Entry>, key: nat, at: nat) { key in m && at < m[key].until }

  /** The "exp" check of section 4.1.4 of RFC 7519 as the JWT library makes it, on whole seconds. */
  predicate Expired(c: Claims, at: nat) { c.exp <= Seconds(at) as real }

  /** A signed token's claims: iat and exp come from two calls to the library, each with its own clock read. */
  predicate Issued(cfg: Config, c: Claims) {
    (c.iat + cfg.accessTtl) as real <= c.exp <= (c.iat + cfg.accessTtl + cfg.signingLag) as real
  }

  /** A cutoff entry outlives every token it covers. */
  predicate Fits(cfg: Config) { cfg.accessTtl + cfg.signingLag <= cfg.refreshTtl + 1 }

  function RevokeAccessToken(s: Store, jti: nat, ttl: real, at: nat): Store {
    s.(denied := s.denied[jti := Keep(1, ttl, at)])
  }

  function RevokeUserTokensBefore(s: Store, user: nat, cutoff: nat, ttl: nat, at: nat): Store {
    s.(cutoffs := s.cutoffs[user := Keep(cutoff, ttl as real, at)])
  }

  /** `logout` at millisecond `now`; the write reaches Redis at `at`. */
  function Logout(s: Store, jti: nat, exp: real, now: nat, at: nat): Store {
    var ttl := exp - Seconds(now) as real;
    if ttl > 0.0 then RevokeAccessToken(s, jti, ttl, at) else s
  }

  function LogoutAll(cfg: Config, s: Store, c: Claims, now: nat, at: nat): Store {
    Logout(RevokeUserTokensBefore(s, c.user, Seconds(now), cfg.refreshTtl, at), c.jti, c.exp, now, at)
  }

  function ResolveAuth(s: Store, c: Claims, signed: bool, at: nat): Verdict {
    if !signed || Expired(c, at) then InvalidOrExpired
    else if Present(s.denied, c.jti, at) then TokenRevoked
    else if Present(s.cutoffs, c.user, at) && c.iat < s.cutoffs[c.user].value then SessionRevoked
    else Accepted
  }

  // ---- Rounding ------------------------------------------------------------------------

  lemma CeilMeaning(x: real)
    ensures x <= Ceil(x) as real < x + 1.0
  {
  }

  /** An entry lives for whole seconds, at least one, and for less than a second more than asked. */
  lemma KeepMeaning(value: nat, ttl: real, at: nat)
    ensures var e := Keep(value, ttl, at);
      && e.value == value && (e.until - at) % 1000 == 0
      && e.until >= at + 1000 && (e.until - at) as real >= 1000.0 * ttl
      && (e.until > at + 1000 ==> (e.until - at) as real < 1000.0 * ttl + 1000.0)
  {
    CeilMeaning(ttl);
    var k := Max(1, Ceil(ttl));
    assert Keep(value, ttl, at).until - at == 1000 * k;
    assert (1000 * k) as real == 1000.0 * k as real;
  }

  /**
   * What a logout writes: nothing for a token that has expired; else one denylist entry,
   * for what is left of the token, rounded up to a second. A logout-all also sets the
   * user's cutoff to the second it read, for the refresh lifetime.
   */
  lemma LogoutWrites(cfg: Config, s: Store, c: Claims, now: nat, at: nat)
    ensures var s' := Logout(s, c.jti, c.exp, now, at);
      && s'.cutoffs == s.cutoffs
      && (c.exp <= (now / 1000) as real ==> s'.denied == s.denied)
      && (c.exp > (now / 1000) as real ==>
            && c.jti in s'.denied && s'.denied == s.denied[c.jti := s'.denied[c.jti]]
            && var left := 1000.0 * (c.exp - (now / 1000) as real);
               left <= (s'.denied[c.jti].until - at) as real < left + 1000.0)
    ensures var s' := LogoutAll(cfg, s, c, now, at);
      && s'.denied == Logout(s, c.jti, c.exp, now, at).denied
      && s'.cutoffs
         == s.cutoffs[c.user := Entry(now / 1000, at + 1000 * if cfg.refreshTtl == 0 then 1 else cfg.refreshTtl)]
  {
    KeepWholeSeconds(Seconds(now), cfg.refreshTtl, at);
    var ttl := c.exp - Seconds(now) as real;
    CeilMeaning(ttl);
    if ttl > 0.0 {
      var k := Ceil(ttl);
      assert k >= 1 && Keep(1, ttl, at).until - at == 1000 * k;
      assert (1000 * k) as real == 1000.0 * k as real;
    }
  }

  /** A denylist entry made at `now` or later never lapses before its token expires. */
  lemma EntryOutlivesToken(exp: real, now: nat, at: nat, later: nat)
    requires now <= at && exp - Seconds(now) as real > 0.0
    requires later >= Keep(1, exp - Seconds(now) as real, at).until
    ensures exp <= Seconds(later) as real
  {
    var ttl := exp - Seconds(now) as real;
    CeilMeaning(ttl);
    var k := Ceil(ttl);
    assert k >= 1 && later >= at + 1000 * k;
    assert Seconds(later) >= Seconds(now) + k;
    assert (Seconds(now) + k) as real == Seconds(now) as real + k as real;
  }

  // ---- Every run ------------------------------------------------------------------------

  /** A revocation that reads its clock at `now` and reaches Redis at `at`. */
  datatype Step = LogoutStep(c: Claims, now: nat, at: nat) | LogoutAllStep(c: Claims, now: nat, at: nat)

  function Apply(cfg: Config, s: Store, step: Step): Store {
    match step
    case LogoutStep(c, now, at) => Logout(s, c.jti, c.exp, now, at)
    case LogoutAllStep(c, now, at) => LogoutAll(cfg, s, c, now, at)
  }

  function Run(cfg: Config, steps: seq<Step>, n: nat): Store
    requires n <= |steps|
  {
    if n == 0 then Store(map[], map[]) else Apply(cfg, Run(cfg, steps, n - 1), steps[n - 1])
  }

  /**
   * Steps in the order in which they reach Redis; each reads the clock before it writes, but
   * one request may overtake another in between. Claims are those of signed tokens, one per
   * jti.
   */
  ghost predicate WellTimed(cfg: Config, steps: seq<Step>) {
    && (forall i | 0 <= i < |steps| :: Issued(cfg, steps[i].c) && steps[i].now <= steps[i].at)
    && (forall i, j | 0 <= i < j < |steps| :: steps[i].at <= steps[j].at)
    && (forall i, j | 0 <= i < j < |steps| && steps[i].c.jti == steps[j].c.jti :: steps[i].c == steps[j].c)
  }

  /** At every instant from `from` on, the token is expired or denylisted. */
  ghost predicate Denies(s: Store, c: Claims, from: nat) {
    forall later | later >= from :: Expired(c, later) || Present(s.denied, c.jti, later)
  }

  lemma LogoutDenies(s: Store, c: Claims, now: nat, at: nat)
    requires now <= at
    ensures Denies(Logout(s, c.jti, c.exp, now, at), c, at)
  {
    var ttl := c.exp - Seconds(now) as real;
    forall later | later >= at
      ensures Expired(c, later) || Present(Logout(s, c.jti, c.exp, now, at).denied, c.jti, later)
    {
      if ttl > 0.0 {
        if later >= Keep(1, ttl, at).until { EntryOutlivesToken(c.exp, now, at, later); }
      } else {
        assert Seconds(later) >= Seconds(now);
      }
    }
  }

  /** The store just before a step denylists its own token. */
  function BeforeDenial(cfg: Config, s: Store, step: Step): Store {
    match step
    case LogoutStep(_, _, _) => s
    case LogoutAllStep(c, now, at) => RevokeUserTokensBefore(s, c.user, Seconds(now), cfg.refreshTtl, at)
  }

  lemma StepDenies(cfg: Config, s: Store, step: Step)
    requires step.now <= step.at
    ensures Denies(Apply(cfg, s, step), step.c, step.at)
  {
    LogoutDenies(BeforeDenial(cfg, s, step), step.c, step.now, step.at);
  }

  /** A further revocation, of this token or any other, does not weaken the denial. */
  lemma StepKeepsDenial(cfg: Config, s: Store, c: Claims, from: nat, step: Step)
    requires Denies(s, c, from) && from <= step.at && step.now <= step.at
    requires step.c.jti == c.jti ==> step.c == c
    ensures Denies(Apply(cfg, s, step), c, step.at)
  {
    if step.c == c {
      StepDenies(cfg, s, step);
    }
  }

  /**
   * Once a token has been logged out, no later revocation and no passing of time ever lets
   * it through again.
   */
  lemma {:induction false} LogoutIsFinal(cfg: Config, steps: seq<Step>, k: nat, n: nat, at: nat, signed: bool)
    requires WellTimed(cfg, steps) && k < n <= |steps| && at >= steps[n - 1].at
    ensures Denies(Run(cfg, steps, n), steps[k].c, steps[n - 1].at)
    ensures ResolveAuth(Run(cfg, steps, n), steps[k].c, signed, at) != Accepted
  {
    var c := steps[k].c;
    if k == n - 1 {
      StepDenies(cfg, Run(cfg, steps, k), steps[k]);
    } else {
      LogoutIsFinal(cfg, steps, k, n - 1, steps[n - 2].at, signed);
      StepKeepsDenial(cfg, Run(cfg, steps, n - 1), c, steps[n - 2].at, steps[n - 1]);
    }
    assert Expired(c, at) || Present(Run(cfg, steps, n).denied, c.jti, at);
  }

  lemma {:induction false} DeniedWereRevoked(cfg: Config, steps: seq<Step>, n: nat, jti: nat)
    requires n <= |steps| && jti in Run(cfg, steps, n).denied
    ensures exists k | 0 <= k < n :: steps[k].c.jti == jti
  {
    if steps[n - 1].c.jti != jti {
      DeniedWereRevoked(cfg, steps, n - 1, jti);
    }
  }

  // ---- Cutoffs ----------------------------------------------------------------------------

  /** Every instant from `from` on, tokens of the user issued before second `cutoff` are expired or cut off. */
  ghost predicate CutsOff(cfg: Config, s: Store, user: nat, cutoff: nat, from: nat) {
    forall c: Claims, later | Issued(cfg, c) && c.user == user && c.iat < cutoff && later >= from ::
      Expired(c, later) || (Present(s.cutoffs, user, later) && c.iat < s.cutoffs[user].value)
  }

  lemma KeepWholeSeconds(value: nat, ttl: nat, at: nat)
    ensures Keep(value, ttl as real, at) == Entry(value, at + 1000 * Max(1, ttl))
  {
    CeilMeaning(ttl as real);
    assert Ceil(ttl as real) == ttl;
  }

  lemma CutoffOutlivesTokens(cfg: Config, s: Store, user: nat, cutoff: nat, now: nat, at: nat)
    requires Fits(cfg) && now <= at && cutoff <= Seconds(now)
    ensures CutsOff(cfg, RevokeUserTokensBefore(s, user, Seconds(now), cfg.refreshTtl, at), user, cutoff, at)
  {
    var s' := RevokeUserTokensBefore(s, user, Seconds(now), cfg.refreshTtl, at);
    KeepWholeSeconds(Seconds(now), cfg.refreshTtl, at);
    forall c: Claims, later | Issued(cfg, c) && c.user == user && c.iat < cutoff && later >= at && !Expired(c, later)
      ensures Present(s'.cutoffs, user, later)
    {
      LiveTokenIsRecent(cfg, c, later);
      assert later < 1000 * (Seconds(now) + cfg.refreshTtl);
    }
  }

  lemma LiveTokenIsRecent(cfg: Config, c: Claims, at: nat)
    requires Issued(cfg, c) && !Expired(c, at)
    ensures Seconds(at) < c.iat + cfg.accessTtl + cfg.signingLag
  {
  }

  /** The last logout-all of the user, among the first `n` steps, to arrive. */
  function LastLogoutAll(steps: seq<Step>, n: nat, user: nat): (r: Option<nat>)
    requires n <= |steps|
    ensures r.Some? ==> r.value < n && steps[r.value].LogoutAllStep? && steps[r.value].c.user == user
  {
    if n == 0 then None
    else if steps[n - 1].LogoutAllStep? && steps[n - 1].c.user == user then Some(n - 1)
    else LastLogoutAll(steps, n - 1, user)
  }

  /** The store keeps the cutoff of that one, whatever the others read. */
  lemma {:induction false} LastLogoutAllStays(cfg: Config, steps: seq<Step>, n: nat, user: nat)
    requires n <= |steps|
    ensures var cutoffs, last := Run(cfg, steps, n).cutoffs, LastLogoutAll(steps, n, user);
      && (user in cutoffs <==> last.Some?)
      && (last.Some? ==>
            cutoffs[user] == Keep(Seconds(steps[last.value].now), cfg.refreshTtl as real, steps[last.value].at))
  {
    if n > 0 {
      LastLogoutAllStays(cfg, steps, n - 1, user);
    }
  }

  /** The last logout-all to arrive reads a second after the token's issue. */
  predicate CutOff(steps: seq<Step>, n: nat, c: Claims)
    requires n <= |steps|
  {
    var last := LastLogoutAll(steps, n, c.user);
    last.Some? && c.iat < Seconds(steps[last.value].now)
  }

  /**
   * After every run, a live token of the user that is not denylisted is rejected if and only
   * if the last logout-all to arrive carries a second greater than its iat and its entry is
   * still there; and it always is, if the lifetimes fit.
   */
  lemma LastArrivalDecides(cfg: Config, steps: seq<Step>, n: nat, c: Claims, at: nat)
    requires WellTimed(cfg, steps) && n <= |steps| && (n > 0 ==> at >= steps[n - 1].at)
    requires Issued(cfg, c) && !Expired(c, at) && !Present(Run(cfg, steps, n).denied, c.jti, at)
    ensures var last := LastLogoutAll(steps, n, c.user);
      ResolveAuth(Run(cfg, steps, n), c, true, at) ==
        if CutOff(steps, n, c) && at < steps[last.value].at + 1000 * Max(1, cfg.refreshTtl) then SessionRevoked
        else Accepted
    ensures Fits(cfg) ==>
      ResolveAuth(Run(cfg, steps, n), c, true, at) == if CutOff(steps, n, c) then SessionRevoked else Accepted
  {
    var last := LastLogoutAll(steps, n, c.user);
    LastLogoutAllStays(cfg, steps, n, c.user);
    LiveTokenIsRecent(cfg, c, at);
    if last.Some? {
      var step := steps[last.value];
      KeepWholeSeconds(Seconds(step.now), cfg.refreshTtl, step.at);
      if Fits(cfg) && c.iat < Seconds(step.now) {
        assert at < 1000 * (Seconds(step.now) + cfg.refreshTtl);
      }
    }
  }

  /** The token is none of the revoked ones, or is that very token. */
  ghost predicate OnePerJti(steps: seq<Step>, c: Claims) {
    forall k | 0 <= k < |steps| && steps[k].c.jti == c.jti :: steps[k].c == c
  }

  /**
   * Which tokens the gateway accepts, in terms of what its users have done: exactly the
   * signed, unexpired ones that were never logged out and that the last logout-all to arrive
   * does not cover.
   */
  lemma AcceptedIff(cfg: Config, steps: seq<Step>, n: nat, c: Claims, signed: bool, at: nat)
    requires Fits(cfg) && WellTimed(cfg, steps) && n <= |steps| && (n > 0 ==> at >= steps[n - 1].at)
    requires signed ==> Issued(cfg, c) && OnePerJti(steps, c)
    ensures ResolveAuth(Run(cfg, steps, n), c, signed, at) == Accepted <==>
      && signed && !Expired(c, at)
      && (forall k | 0 <= k < n :: steps[k].c.jti != c.jti)
      && !CutOff(steps, n, c)
  {
    VerdictIff(cfg, steps, n, c, signed, at);
    CutOffMeaning(steps, n, c);
  }

  /**
   * The whole verdict: which of the three refusals a token gets. Logging out one token comes
   * before the cutoff; expiry comes before both.
   */
  lemma VerdictIff(cfg: Config, steps: seq<Step>, n: nat, c: Claims, signed: bool, at: nat)
    requires Fits(cfg) && WellTimed(cfg, steps) && n <= |steps| && (n > 0 ==> at >= steps[n - 1].at)
    requires signed ==> Issued(cfg, c) && OnePerJti(steps, c)
    ensures var live := signed && c.exp > (at / 1000) as real;
      var loggedOut := exists k | 0 <= k < n :: steps[k].c.jti == c.jti;
      var cutOff := exists k | 0 <= k < n ::
        && steps[k].LogoutAllStep? && steps[k].c.user == c.user && c.iat < steps[k].now / 1000
        && forall j | k < j < n :: !(steps[j].LogoutAllStep? && steps[j].c.user == c.user);
      ResolveAuth(Run(cfg, steps, n), c, signed, at) ==
        if !live then InvalidOrExpired
        else if loggedOut then TokenRevoked
        else if cutOff then SessionRevoked
        else Accepted
  {
    var s := Run(cfg, steps, n);
    CutOffMeaning(steps, n, c);
    if signed && !Expired(c, at) {
      if k :| 0 <= k < n && steps[k].c.jti == c.jti {
        LogoutIsFinal(cfg, steps, k, n, steps[n - 1].at, signed);
        assert Expired(c, at) || Present(s.denied, c.jti, at);
      } else {
        if c.jti in s.denied { DeniedWereRevoked(cfg, steps, n, c.jti); }
        LastArrivalDecides(cfg, steps, n, c, at);
      }
    }
  }

  lemma {:induction false} CutOffMeaning(steps: seq<Step>, n: nat, c: Claims)
    requires n <= |steps|
    ensures CutOff(steps, n, c) <==> exists k | 0 <= k < n ::
      && steps[k].LogoutAllStep? && steps[k].c.user == c.user && c.iat < steps[k].now / 1000
      && forall j | k < j < n :: !(steps[j].LogoutAllStep? && steps[j].c.user == c.user)
  {
    if n > 0 { CutOffMeaning(steps, n - 1, c); }
  }

  lemma StepKeepsCutoff(cfg: Config, s: Store, user: nat, cutoff: nat, from: nat, step: Step)
    requires Fits(cfg) && CutsOff(cfg, s, user, cutoff, from) && from <= step.at && step.now <= step.at
    requires step.LogoutAllStep? && step.c.user == user ==> cutoff <= Seconds(step.now)
    ensures CutsOff(cfg, Apply(cfg, s, step), user, cutoff, step.at)
  {
    if step.LogoutAllStep? && step.c.user == user {
      LogoutAllCutsOff(cfg, s, user, cutoff, step);
    } else {
      assert Apply(cfg, s, step).cutoffs.Keys == s.cutoffs.Keys + if step.LogoutAllStep? then {step.c.user} else {};
      assert user in s.cutoffs ==> Apply(cfg, s, step).cutoffs[user] == s.cutoffs[user];
    }
  }

  lemma LogoutAllCutsOff(cfg: Config, s: Store, user: nat, cutoff: nat, step: Step)
    requires Fits(cfg) && step.LogoutAllStep? && step.c.user == user
    requires step.now <= step.at && cutoff <= Seconds(step.now)
    ensures CutsOff(cfg, Apply(cfg, s, step), user, cutoff, step.at)
  {
    CutoffOutlivesTokens(cfg, s, user, cutoff, step.now, step.at);
    assert Apply(cfg, s, step).cutoffs == BeforeDenial(cfg, s, step).cutoffs;
  }

  /**
   * After a logout-all in second c, every token of the user issued before second c stays
   * rejected for good, unless a logout-all that read an earlier second arrives after it.
   */
  lemma {:induction false} LogoutAllIsFinal(cfg: Config, steps: seq<Step>, k: nat, n: nat)
    requires Fits(cfg) && WellTimed(cfg, steps) && k < n <= |steps| && steps[k].LogoutAllStep?
    requires forall j | k < j < n && steps[j].LogoutAllStep? && steps[j].c.user == steps[k].c.user ::
      Seconds(steps[j].now) >= Seconds(steps[k].now)
    ensures CutsOff(cfg, Run(cfg, steps, n), steps[k].c.user, Seconds(steps[k].now), steps[n - 1].at)
  {
    if k == n - 1 {
      LogoutAllCutsOff(cfg, Run(cfg, steps, k), steps[k].c.user, Seconds(steps[k].now), steps[k]);
    } else {
      LogoutAllIsFinal(cfg, steps, k, n - 1);
      var user, cutoff := steps[k].c.user, Seconds(steps[k].now);
      StepKeepsCutoff(cfg, Run(cfg, steps, n - 1), user, cutoff, steps[n - 2].at, steps[n - 1]);
    }
  }

  /**
   * Overtaking un-revokes: B reads second 2 and arrives first, A read second 1 and arrives
   * last. A token issued in second 1 is rejected after B and accepted again after A.
   */
  lemma OvertakenLogoutAll(cfg: Config, a: Claims, b: Claims, c: Claims)
    requires cfg.accessTtl >= 2 && cfg.refreshTtl >= 1
    requires Issued(cfg, a) && Issued(cfg, b) && Issued(cfg, c) && a.user == b.user == c.user
    requires a.jti != b.jti && c.jti != a.jti && c.jti != b.jti && c.iat == 1
    ensures var steps := [LogoutAllStep(b, 2000, 2001), LogoutAllStep(a, 1999, 2002)];
      && WellTimed(cfg, steps)
      && ResolveAuth(Run(cfg, steps, 1), c, true, 2001) == SessionRevoked
      && ResolveAuth(Run(cfg, steps, 2), c, true, 2002) == Accepted
  {
    var steps := [LogoutAllStep(b, 2000, 2001), LogoutAllStep(a, 1999, 2002)];
    var one, two := Run(cfg, steps, 1), Run(cfg, steps, 2);
    assert Run(cfg, steps, 0) == Store(map[], map[]);
    assert one == LogoutAll(cfg, Store(map[], map[]), b, 2000, 2001);
    assert two == LogoutAll(cfg, one, a, 1999, 2002);
    KeepWholeSeconds(2, cfg.refreshTtl, 2001);
    KeepWholeSeconds(1, cfg.refreshTtl, 2002);
    assert c.jti !in one.denied && c.jti !in two.denied;
    assert one.cutoffs[c.user].value == 2 && two.cutoffs[c.user].value == 1;
  }

  lemma CutOffIsRejected(cfg: Config, s: Store, c: Claims, cutoff: nat, from: nat, signed: bool, at: nat)
    requires CutsOff(cfg, s, c.user, cutoff, from) && Issued(cfg, c) && c.iat < cutoff && at >= from
    ensures ResolveAuth(s, c, signed, at) != Accepted
  {
  }

  /**
   * The lifetimes must fit: a logout-all holds until the last token it covers expires, for
   * every token and clock, exactly when the access lifetime, with the lag of signing, is at
   * most one second longer than the refresh lifetime. The configuration does not check this.
   */
  lemma LifetimesFitIff(cfg: Config)
    requires cfg.refreshTtl >= 1
    ensures Fits(cfg) <==>
      forall s, user, now: nat, at: nat | now <= at ::
        CutsOff(cfg, RevokeUserTokensBefore(s, user, Seconds(now), cfg.refreshTtl, at), user, Seconds(now), at)
  {
    if Fits(cfg) {
      forall s, user, now: nat, at: nat | now <= at
        ensures CutsOff(cfg, RevokeUserTokensBefore(s, user, Seconds(now), cfg.refreshTtl, at), user, Seconds(now), at)
      {
        CutoffOutlivesTokens(cfg, s, user, Seconds(now), now, at);
      }
    } else {
      var s := Store(map[], map[]);
      var c := Claims(0, 0, 0, (cfg.accessTtl + cfg.signingLag) as real);
      var at: nat := 1000;
      var later := at + 1000 * cfg.refreshTtl;
      var s' := RevokeUserTokensBefore(s, 0, Seconds(at), cfg.refreshTtl, at);
      KeepWholeSeconds(Seconds(at), cfg.refreshTtl, at);
      assert !Present(s'.cutoffs, 0, later);
      assert Seconds(later) == 1 + cfg.refreshTtl;
      assert Issued(cfg, c) && c.iat < Seconds(at) && !Expired(c, later);
      assert !CutsOff(cfg, s', 0, Seconds(at), at);
    }
  }

  /**
   * Right after a logout-all in second c, a signed, unexpired token of the user that is not
   * denylisted is accepted exactly when it was issued in second c or later: the cutoff
   * second itself is not covered.
   */
  lemma CutoffSecondNotCovered(cfg: Config, s: Store, caller: Claims, c: Claims, now: nat, at: nat)
    requires cfg.refreshTtl >= 1 && c.user == caller.user && !Expired(c, at)
    requires !Present(LogoutAll(cfg, s, caller, now, at).denied, c.jti, at)
    ensures ResolveAuth(LogoutAll(cfg, s, caller, now, at), c, true, at) == Accepted <==> c.iat >= Seconds(now)
  {
    KeepWholeSeconds(Seconds(now), cfg.refreshTtl, at);
  }

  // ---- The store ---------------------------------------------------------------------------

  lemma {:induction false} RunOfPrefix(cfg: Config, steps: seq<Step>, step: Step, n: nat)
    requires n <= |steps|
    ensures Run(cfg, steps + [step], n) == Run(cfg, steps, n)
  {
    if n > 0 {
      RunOfPrefix(cfg, steps, step, n - 1);
    }
  }

  /** What the arrival of one more revocation does. */
  lemma Arrival(cfg: Config, steps: seq<Step>, step: Step)
    requires WellTimed(cfg, steps + [step])
    ensures var n, s := |steps|, Run(cfg, steps, |steps|);
      && Run(cfg, steps + [step], n + 1) == Apply(cfg, s, step)
      && Denies(Apply(cfg, s, step), step.c, step.at)
      && (Fits(cfg) && step.LogoutAllStep? ==>
            CutsOff(cfg, Apply(cfg, s, step), step.c.user, Seconds(step.now), step.at))
  {
    var n := |steps|;
    assert (steps + [step])[n] == step;
    RunOfPrefix(cfg, steps, step, n);
    StepDenies(cfg, Run(cfg, steps, n), step);
    if Fits(cfg) && step.LogoutAllStep? {
      LogoutAllCutsOff(cfg, Run(cfg, steps, n), step.c.user, Seconds(step.now), step);
    }
  }

  /** The Redis keys, and the revocations that made them. */
  class RevocationStore {
    const config: Config
    var denied: map<nat, Entry>
    var cutoffs: map<nat, Entry>
    ghost var history: seq<Step>

    function Contents(): Store
      reads this
    {
      Store(denied, cutoffs)
    }

    ghost predicate Valid()
      reads this
    {
      WellTimed(config, history) && Contents() == Run(config, history, |history|)
    }

    /** The revocation can be the next to arrive. */
    ghost predicate Arrives(step: Step)
      reads this
    {
      WellTimed(config, history + [step])
    }

    constructor (config: Config)
      ensures Valid() && this.config == config && history == []
    {
      this.config, denied, cutoffs, history := config, map[], map[], [];
    }

    method RevokeToken(jti: nat, ttl: real, at: nat)
      modifies this`denied
      ensures Contents() == RevokeAccessToken(old(Contents()), jti, ttl, at)
    {
      denied := denied[jti := Keep(1, ttl, at)];
    }

    /** From its arrival on the token is denied; nothing else changes. */
    method LogoutToken(c: Claims, now: nat, at: nat)
      requires Valid() && Arrives(LogoutStep(c, now, at))
      modifies this`denied, this`history
      ensures Valid() && history == old(history) + [LogoutStep(c, now, at)]
      ensures Denies(Contents(), c, at)
      ensures denied - {c.jti} == old(denied) - {c.jti}
    {
      hide WellTimed, Run, Denies;
      Arrival(config, history, LogoutStep(c, now, at));
      DenylistToken(c, now, at);
      history := history + [LogoutStep(c, now, at)];
    }

    method DenylistToken(c: Claims, now: nat, at: nat)
      modifies this`denied
      ensures Contents() == Logout(old(Contents()), c.jti, c.exp, now, at)
    {
      var ttl := c.exp - Seconds(now) as real;
      if ttl > 0.0 { RevokeToken(c.jti, ttl, at); }
    }

    /** From its arrival on the caller's token is denied and all earlier ones of the user are cut off. */
    method LogoutEverywhere(c: Claims, now: nat, at: nat)
      requires Valid() && Arrives(LogoutAllStep(c, now, at))
      modifies this`denied, this`cutoffs, this`history
      ensures Valid() && history == old(history) + [LogoutAllStep(c, now, at)]
      ensures Denies(Contents(), c, at)
      ensures Fits(config) ==> CutsOff(config, Contents(), c.user, Seconds(now), at)
      ensures denied - {c.jti} == old(denied) - {c.jti} && cutoffs - {c.user} == old(cutoffs) - {c.user}
    {
      hide WellTimed, Run, Denies, CutsOff, Fits;
      Arrival(config, history, LogoutAllStep(c, now, at));
      cutoffs := cutoffs[c.user := Keep(Seconds(now), config.refreshTtl as real, at)];
      DenylistToken(c, now, at);
      history := history + [LogoutAllStep(c, now, at)];
    }

    /** Accepted are exactly the live tokens that no revocation so far concerns. */
    method Authenticate(c: Claims, signed: bool, at: nat) returns (v: Verdict)
      requires Valid() && (history != [] ==> at >= history[|history| - 1].at)
      requires signed ==> Issued(config, c) && OnePerJti(history, c)
      ensures v == ResolveAuth(Contents(), c, signed, at)
      ensures v == Accepted ==> forall k | 0 <= k < |history| :: history[k].c.jti != c.jti
      ensures Fits(config) ==>
        (v == Accepted <==>
          && signed && !Expired(c, at)
          && (forall k | 0 <= k < |history| :: history[k].c.jti != c.jti)
          && !CutOff(history, |history|, c))
    {
      if Fits(config) { AcceptedIff(config, history, |history|, c, signed, at); }
      if k :| 0 <= k < |history| && history[k].c.jti == c.jti && signed {
        LogoutIsFinal(config, history, k, |history|, at, signed);
      }
      if !signed || Expired(c, at) { return InvalidOrExpired; }
      if Present(denied, c.jti, at) { return TokenRevoked; }
      if Present(cutoffs, c.user, at) && c.iat < cutoffs[c.user].value { return SessionRevoked; }
      return Accepted;
    }
  }
}
