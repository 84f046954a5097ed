/** Nearest enrolled faces within a course roster, the query read as its meaning. */
module FaceSearch {
  import opened FaceEmbedding

  datatype Enrolled = Enrolled(student: nat, vector: Vector)
  datatype Match = Match(student: nat, similarity: real)

  /** The distance operator fails on a row of another length; only rows on the roster reach it. */
  predicate SameDimensions(rows: seq<Enrolled>, roster: set<nat>, n: nat) {
    forall i | 0 <= i < |rows| && rows[i].student in roster :: |rows[i].vector| == n
  }

  /** The cosine distance to a zero vector is not a number, so where one is computed neither side may be zero. */
  ghost predicate NonZero(rows: seq<Enrolled>, roster: set<nat>, query: Vector) {
    forall i | 0 <= i < |rows| && rows[i].student in roster ::
      Dot(rows[i].vector, rows[i].vector) != 0.0 && Dot(query, query) != 0.0
  }

  /** The join: one candidate per stored embedding of a student on the roster. */
  function Candidates(sqrt: real -> real, rows: seq<Enrolled>, roster: set<nat>, query: Vector): seq<Match>
    requires IsSqrt(sqrt) && SameDimensions(rows, roster, |query|)
  {
    if rows == [] then []
    else
      var init, last := rows[..|rows| - 1], rows[|rows| - 1];
      Candidates(sqrt, init, roster, query)
      + if last.student in roster then [Match(last.student, Cosine(sqrt, last.vector, query))] else []
  }

  /** Position of the closest candidate. */
  function Best(cs: seq<Match>): (b: nat)
    requires cs != []
    ensures b < |cs| && forall i | 0 <= i < |cs| :: cs[i].similarity <= cs[b].similarity
  {
    if |cs| == 1 then 0
    else
      var n := |cs| - 1;
      var b := Best(cs[..n]);
      assert forall i | 0 <= i < n :: cs[..n][i] == cs[i];
      if cs[n].similarity > cs[b].similarity then n else b
  }

  /** ORDER BY distance LIMIT `limit`. */
  function Nearest(cs: seq<Match>, limit: nat): seq<Match> {
    if limit == 0 || cs == [] then []
    else
      var b := Best(cs);
      [cs[b]] + Nearest(cs[..b] + cs[b + 1..], limit - 1)
  }

  function SearchNearestInCourse(sqrt: real -> real, rows: seq<Enrolled>, roster: set<nat>, query: Vector,
                                 limit: nat := 1): seq<Match>
    requires IsSqrt(sqrt) && SameDimensions(rows, roster, |query|) && NonZero(rows, roster, query)
  {
    Nearest(Candidates(sqrt, rows, roster, query), limit)
  }

  /** Positions of the rows of students on the roster, in table order. */
  function RosterRows(rows: seq<Enrolled>, roster: set<nat>): seq<nat> {
    if rows == [] then []
    else RosterRows(rows[..|rows| - 1], roster) + if rows[|rows| - 1].student in roster then [|rows| - 1] else []
  }

  /** These are the positions of all roster rows, in order. */
  ghost predicate ArePositions(at: seq<nat>, rows: seq<Enrolled>, roster: set<nat>) {
    && (forall k | 0 <= k < |at| :: at[k] < |rows| && rows[at[k]].student in roster)
    && (forall k, l | 0 <= k < l < |at| :: at[k] < at[l])
    && (forall i: nat | i < |rows| && rows[i].student in roster :: i in at)
  }

  lemma {:induction false} RosterRowsMeaning(rows: seq<Enrolled>, roster: set<nat>)
    ensures ArePositions(RosterRows(rows, roster), rows, roster)
  {
    if rows != [] {
      hide ArePositions;
      RosterRowsMeaning(rows[..|rows| - 1], roster);
      OneMoreRow(RosterRows(rows[..|rows| - 1], roster), rows, roster);
    }
  }

  lemma OneMoreRow(before: seq<nat>, rows: seq<Enrolled>, roster: set<nat>)
    requires rows != [] && ArePositions(before, rows[..|rows| - 1], roster)
    ensures var last := |rows| - 1;
      ArePositions(before + if rows[last].student in roster then [last] else [], rows, roster)
  {
    var n := |rows| - 1;
    assert forall i: nat | i < n :: rows[..n][i] == rows[i];
    assert forall k | 0 <= k < |before| :: rows[..n][before[k]] == rows[before[k]];
    var at := before + if rows[n].student in roster then [n] else [];
    assert forall k | 0 <= k < |before| :: at[k] == before[k];
    assert rows[n].student in roster ==> at[|before|] == n;
    forall i: nat | i < |rows| && rows[i].student in roster ensures i in at {
      if i < n {
        assert i in before;
      }
    }
  }

  /** Candidate `k` is the match of the `k`-th roster row. */
  lemma {:induction false} CandidateAt(sqrt: real -> real, rows: seq<Enrolled>, roster: set<nat>, query: Vector, k: nat)
    requires IsSqrt(sqrt) && SameDimensions(rows, roster, |query|) && k < |RosterRows(rows, roster)|
    ensures |Candidates(sqrt, rows, roster, query)| == |RosterRows(rows, roster)|
    ensures var i := RosterRows(rows, roster)[k];
      && i < |rows| && rows[i].student in roster
      && Candidates(sqrt, rows, roster, query)[k] == Match(rows[i].student, Cosine(sqrt, rows[i].vector, query))
  {
    hide IsSqrt, Cosine;
    CandidateCount(sqrt, rows, roster, query);
    var init := rows[..|rows| - 1];
    CandidateCount(sqrt, init, roster, query);
    if k < |RosterRows(init, roster)| {
      CandidateAt(sqrt, init, roster, query, k);
    }
  }

  lemma {:induction false} CandidateCount(sqrt: real -> real, rows: seq<Enrolled>, roster: set<nat>, query: Vector)
    requires IsSqrt(sqrt) && SameDimensions(rows, roster, |query|)
    ensures |Candidates(sqrt, rows, roster, query)| == |RosterRows(rows, roster)|
  {
    hide IsSqrt, Cosine;
    if rows != [] {
      CandidateCount(sqrt, rows[..|rows| - 1], roster, query);
    }
  }

  /** The rows of students on the roster, in table order, are the candidates: each once, with its similarity. */
  lemma CandidatesMeaning(sqrt: real -> real, rows: seq<Enrolled>, roster: set<nat>, query: Vector)
    returns (at: seq<nat>)
    requires IsSqrt(sqrt) && SameDimensions(rows, roster, |query|)
    ensures var cs := Candidates(sqrt, rows, roster, query);
      && |at| == |cs|
      && (forall k | 0 <= k < |at| ::
            && at[k] < |rows| && rows[at[k]].student in roster
            && cs[k] == Match(rows[at[k]].student, Cosine(sqrt, rows[at[k]].vector, query)))
      && (forall k, l | 0 <= k < l < |at| :: at[k] < at[l])
      && (forall i: nat | i < |rows| && rows[i].student in roster :: i in at)
  {
    hide IsSqrt, Cosine, Candidates, RosterRows;
    at := RosterRows(rows, roster);
    RosterRowsMeaning(rows, roster);
    CandidateCount(sqrt, rows, roster, query);
    forall k | 0 <= k < |at|
      ensures Candidates(sqrt, rows, roster, query)[k]
           == Match(rows[at[k]].student, Cosine(sqrt, rows[at[k]].vector, query))
    {
      CandidateAt(sqrt, rows, roster, query, k);
    }
  }

  /** The candidates a query with this limit does not return. */
  ghost function LeftOut(cs: seq<Match>, limit: nat): seq<Match> {
    if limit == 0 || cs == [] then cs
    else
      var b := Best(cs);
      LeftOut(cs[..b] + cs[b + 1..], limit - 1)
  }

  ghost predicate AtMost(cs: seq<Match>, bound: real) { forall i | 0 <= i < |cs| :: cs[i].similarity <= bound }

  /** `r` and `left` together are the candidates; `r` is in order, and nothing left out is closer. */
  ghost predicate Selects(cs: seq<Match>, r: seq<Match>, left: seq<Match>, limit: nat) {
    && |r| == (if limit <= |cs| then limit else |cs|)
    && multiset(cs) == multiset(r) + multiset(left)
    && InOrder(r, left)
  }

  ghost predicate InOrder(r: seq<Match>, left: seq<Match>) {
    forall i | 0 <= i < |r| :: AtMost(r[i..], r[i].similarity) && AtMost(left, r[i].similarity)
  }

  /**
   * The result is a selection of the candidates, as many as asked for and available, in
   * order of falling similarity, and no candidate left out is closer than one returned.
   */
  lemma {:induction false} NearestMeaning(cs: seq<Match>, limit: nat)
    ensures Selects(cs, Nearest(cs, limit), LeftOut(cs, limit), limit)
  {
    hide Selects, AtMost, Nearest, LeftOut;
    NearestStep(cs, limit);
    if limit == 0 || cs == [] {
      SelectsNone(cs, limit);
    } else {
      var b := Best(cs);
      var rest := cs[..b] + cs[b + 1..];
      NearestMeaning(rest, limit - 1);
      RemoveOne(cs, b);
      BestFirst(cs, cs[b], rest, Nearest(rest, limit - 1), LeftOut(rest, limit - 1), limit);
    }
  }

  lemma NearestStep(cs: seq<Match>, limit: nat)
    ensures limit == 0 || cs == [] ==> Nearest(cs, limit) == [] && LeftOut(cs, limit) == cs
    ensures limit > 0 && cs != [] ==>
      var b := Best(cs);
      var rest := cs[..b] + cs[b + 1..];
      && AtMost(cs, cs[b].similarity)
      && Nearest(cs, limit) == [cs[b]] + Nearest(rest, limit - 1) && LeftOut(cs, limit) == LeftOut(rest, limit - 1)
  {
  }

  lemma SelectsNone(cs: seq<Match>, limit: nat)
    requires limit == 0 || cs == []
    ensures Selects(cs, [], cs, limit)
  {
  }

  lemma RemoveOne(cs: seq<Match>, b: nat)
    requires b < |cs|
    ensures multiset(cs) == multiset{cs[b]} + multiset(cs[..b] + cs[b + 1..])
  {
    assert cs == cs[..b] + [cs[b]] + cs[b + 1..];
  }

  lemma PartAtMost(cs: seq<Match>, part: seq<Match>, bound: real)
    requires multiset(part) <= multiset(cs) && AtMost(cs, bound)
    ensures AtMost(part, bound)
  {
    forall i | 0 <= i < |part| ensures part[i].similarity <= bound {
      assert part[i] in multiset(part) && part[i] in cs;
    }
  }

  lemma BestFirst(cs: seq<Match>, best: Match, rest: seq<Match>, tail: seq<Match>, left: seq<Match>, limit: nat)
    requires limit > 0 && multiset(cs) == multiset{best} + multiset(rest) && |cs| == |rest| + 1
    requires AtMost(cs, best.similarity) && Selects(rest, tail, left, limit - 1)
    ensures Selects(cs, [best] + tail, left, limit)
  {
    var r := [best] + tail;
    assert multiset(r) == multiset{best} + multiset(tail);
    PartAtMost(cs, left, best.similarity);
    PartAtMost(cs, r, best.similarity);
    InOrderCons(best, tail, left);
  }

  lemma InOrderCons(best: Match, tail: seq<Match>, left: seq<Match>)
    requires InOrder(tail, left) && AtMost([best] + tail, best.similarity) && AtMost(left, best.similarity)
    ensures InOrder([best] + tail, left)
  {
    hide AtMost;
    var r := [best] + tail;
    assert r[0..] == r;
    forall i | 0 < i < |r| ensures AtMost(r[i..], r[i].similarity) && AtMost(left, r[i].similarity) {
      assert r[i] == tail[i - 1] && r[i..] == tail[i - 1..];
    }
  }

  /** With limit 1: nothing exactly when no roster student has a face, otherwise a closest face. */
  lemma ClosestFace(sqrt: real -> real, rows: seq<Enrolled>, roster: set<nat>, query: Vector)
    requires IsSqrt(sqrt) && SameDimensions(rows, roster, |query|) && NonZero(rows, roster, query)
    ensures var r := SearchNearestInCourse(sqrt, rows, roster, query, 1);
      && |r| <= 1
      && (r == [] <==> forall i | 0 <= i < |rows| :: rows[i].student !in roster)
      && (r != [] ==>
            && (exists i | 0 <= i < |rows| ::
                  rows[i].student in roster && r[0] == Match(rows[i].student, Cosine(sqrt, rows[i].vector, query)))
            && (forall i | 0 <= i < |rows| && rows[i].student in roster ::
                  Cosine(sqrt, rows[i].vector, query) <= r[0].similarity)
            && -1.0 <= r[0].similarity <= 1.0)
  {
    hide IsSqrt, Cosine, Candidates;
    var at := CandidatesMeaning(sqrt, rows, roster, query);
    var cs := Candidates(sqrt, rows, roster, query);
    NearestMeaning(cs, 1);
    if cs != [] {
      var b := Best(cs);
      var r := SearchNearestInCourse(sqrt, rows, roster, query, 1);
      assert r[0] == cs[b];
      forall i | 0 <= i < |rows| && rows[i].student in roster
        ensures Cosine(sqrt, rows[i].vector, query) <= r[0].similarity
      {
        var k :| 0 <= k < |at| && at[k] == i;
        assert cs[k].similarity <= cs[b].similarity;
      }
      CosineRange(sqrt, rows[at[b]].vector, query);
    }
  }
}
