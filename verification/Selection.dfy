/** Which upstream a request goes to, and where a failed one is tried again (load-balancer/main.go). */
module Selection {
  import opened Sequences

  datatype Metrics = Metrics(activeConns: int, remoteConns: real, latency: real, cpu: real)

  /**
   * What one pick reads of an upstream: its health, its metrics when the maxima are taken, and its metrics when it is
   * scored. They change while the pick runs, so the two readings are unrelated.
   */
  datatype Stats = Stats(healthy: bool, seen: Metrics, scored: Metrics)

  datatype Weights = Weights(conn: real, lat: real, cpu: real)

  datatype Maxima = Maxima(conns: real, lat: real, cpu: real)

  function Max(a: real, b: real): (r: real)
    ensures r >= a && r >= b && (r == a || r == b)
  {
    if b > a then b else a
  }

  /** The larger of the balancer's own count and the one the upstream reports. */
  function Conns(x: Metrics): (r: real)
    ensures r >= x.activeConns as real && r >= x.remoteConns
    ensures r == x.activeConns as real || r == x.remoteConns
  {
    Max(x.activeConns as real, x.remoteConns)
  }

  function Normalize(val: real, maxVal: real): (r: real)
    ensures 0.0 <= r <= 1.0
  {
    if maxVal <= 0.0 then 0.0
    else
      var n := val / maxVal;
      if n < 0.0 then 0.0 else if n > 1.0 then 1.0 else n
  }

  /** What one metric contributes to a score. */
  function Part(weight: real, val: real, maxVal: real): real {
    weight * Normalize(val, maxVal)
  }

  function Score(w: Weights, x: Metrics, m: Maxima): real {
    Part(w.conn, Conns(x), m.conns) + Part(w.lat, x.latency, m.lat) + Part(w.cpu, x.cpu, m.cpu)
  }

  /** The upstreams a pick considers: not the excluded one, and only healthy ones if there are any. */
  predicate Candidate(b: seq<Stats>, exclude: Option<nat>, i: nat) {
    && i < |b| && Some(i) != exclude
    && (b[i].healthy || forall k: nat :: k < |b| && Some(k) != exclude ==> !b[k].healthy)
  }

  /** Each maximum over the candidates, but at least 1. */
  ghost predicate AreMaxima(b: seq<Stats>, exclude: Option<nat>, m: Maxima) {
    && m.conns >= 1.0 && m.lat >= 1.0 && m.cpu >= 1.0
    && (forall i: nat :: Candidate(b, exclude, i) ==>
          Conns(b[i].seen) <= m.conns && b[i].seen.latency <= m.lat && b[i].seen.cpu <= m.cpu)
    && (m.conns == 1.0 || exists i: nat :: Candidate(b, exclude, i) && Conns(b[i].seen) == m.conns)
    && (m.lat == 1.0 || exists i: nat :: Candidate(b, exclude, i) && b[i].seen.latency == m.lat)
    && (m.cpu == 1.0 || exists i: nat :: Candidate(b, exclude, i) && b[i].seen.cpu == m.cpu)
  }

  /** The first candidate of least score. */
  ghost predicate FirstBest(w: Weights, b: seq<Stats>, exclude: Option<nat>, m: Maxima, i: nat) {
    && Candidate(b, exclude, i)
    && (forall k: nat :: Candidate(b, exclude, k) ==> Score(w, b[i].scored, m) <= Score(w, b[k].scored, m))
    && (forall k: nat :: Candidate(b, exclude, k) && k < i ==> Score(w, b[i].scored, m) < Score(w, b[k].scored, m))
  }

  /** The contract of a pick, for any list of upstreams. */
  ghost predicate Picked(w: Weights, b: seq<Stats>, exclude: Option<nat>, r: Option<nat>) {
    && (r.None? <==> b == [])
    && (r.Some? ==>
          if exists i: nat :: Candidate(b, exclude, i)
          then exists m :: AreMaxima(b, exclude, m) && FirstBest(w, b, exclude, m, r.value)
          else r.value == 0)
  }

  // -------------------------------------------------------------------------
  // The pick
  // -------------------------------------------------------------------------

  ghost predicate Ascending(s: seq<nat>) {
    forall i, j :: 0 <= i < j < |s| ==> s[i] < s[j]
  }

  /** The candidate list: the healthy ones, or everything not excluded, in the order of the list. */
  method Candidates(b: seq<Stats>, exclude: Option<nat>) returns (c: seq<nat>)
    ensures Ascending(c) && forall i: nat :: i in c <==> Candidate(b, exclude, i)
  {
    c := [];
    for i := 0 to |b|
      invariant Ascending(c) && forall j :: 0 <= j < |c| ==> c[j] < i
      invariant forall k: nat :: k in c <==> k < i && Some(k) != exclude && b[k].healthy
    {
      if Some(i) != exclude && b[i].healthy {
        c := c + [i];
      }
    }
    if c == [] {
      for i := 0 to |b|
        invariant Ascending(c) && forall j :: 0 <= j < |c| ==> c[j] < i
        invariant forall k: nat :: k in c <==> k < i && Some(k) != exclude
      {
        if Some(i) != exclude {
          c := c + [i];
        }
      }
    } else {
      assert c[0] in c;
    }
  }

  method FindMaxima(b: seq<Stats>, exclude: Option<nat>, c: seq<nat>) returns (m: Maxima)
    requires forall i: nat :: i in c <==> Candidate(b, exclude, i)
    ensures AreMaxima(b, exclude, m)
  {
    m := Maxima(1.0, 1.0, 1.0);
    for k := 0 to |c|
      invariant m.conns >= 1.0 && m.lat >= 1.0 && m.cpu >= 1.0
      invariant forall i: nat :: i < k ==> c[i] in c
      invariant forall i: nat :: i < k ==>
        Conns(b[c[i]].seen) <= m.conns && b[c[i]].seen.latency <= m.lat && b[c[i]].seen.cpu <= m.cpu
      invariant m.conns == 1.0 || exists i: nat :: Candidate(b, exclude, i) && Conns(b[i].seen) == m.conns
      invariant m.lat == 1.0 || exists i: nat :: Candidate(b, exclude, i) && b[i].seen.latency == m.lat
      invariant m.cpu == 1.0 || exists i: nat :: Candidate(b, exclude, i) && b[i].seen.cpu == m.cpu
    {
      assert c[k] in c;
      var x := b[c[k]].seen;
      m := Maxima(Max(m.conns, Conns(x)), Max(m.lat, x.latency), Max(m.cpu, x.cpu));
    }
    forall i: nat | Candidate(b, exclude, i)
      ensures Conns(b[i].seen) <= m.conns && b[i].seen.latency <= m.lat && b[i].seen.cpu <= m.cpu
    {
      var k :| 0 <= k < |c| && c[k] == i;
    }
  }

  method PickExcluding(w: Weights, b: seq<Stats>, exclude: Option<nat>) returns (r: Option<nat>)
    ensures Picked(w, b, exclude, r)
  {
    var c := Candidates(b, exclude);
    if c == [] {
      if |b| > 0 {
        return Some(0);
      }
      return None;
    }
    assert c[0] in c;
    var m := FindMaxima(b, exclude, c);
    if |c| == 1 {
      assert forall i: nat :: i in c ==> i == c[0];
      assert FirstBest(w, b, exclude, m, c[0]);
      return Some(c[0]);
    }
    var best: nat := 0;
    for k := 1 to |c|
      invariant best < k && c[best] in c
      invariant forall i: nat :: i < k ==> c[i] in c && Score(w, b[c[best]].scored, m) <= Score(w, b[c[i]].scored, m)
      invariant forall i: nat :: i < best ==> c[i] in c && Score(w, b[c[best]].scored, m) < Score(w, b[c[i]].scored, m)
    {
      assert c[k] in c;
      if Score(w, b[c[k]].scored, m) < Score(w, b[c[best]].scored, m) {
        best := k;
      }
    }
    assert FirstBest(w, b, exclude, m, c[best]) by {
      forall x: nat | Candidate(b, exclude, x)
        ensures Score(w, b[c[best]].scored, m) <= Score(w, b[x].scored, m)
        ensures x < c[best] ==> Score(w, b[c[best]].scored, m) < Score(w, b[x].scored, m)
      {
        var i: nat :| i < |c| && c[i] == x;
      }
    }
    r := Some(c[best]);
  }

  // -------------------------------------------------------------------------
  // What every pick guarantees
  // -------------------------------------------------------------------------

  /** Healthy and not excluded whenever some upstream is; not excluded whenever another exists at all. */
  lemma PickAvoidsUnhealthy(w: Weights, b: seq<Stats>, exclude: Option<nat>, r: Option<nat>, k: nat)
    requires Picked(w, b, exclude, r) && k < |b| && Some(k) != exclude
    ensures r.Some? && r.value < |b| && r != exclude
    ensures b[k].healthy ==> b[r.value].healthy
  {
    if b[k].healthy {
      assert Candidate(b, exclude, k);
    } else if h: nat :| h < |b| && Some(h) != exclude && b[h].healthy {
      assert Candidate(b, exclude, h);
    } else {
      assert Candidate(b, exclude, k);
    }
  }

  lemma MaximaAreDetermined(b: seq<Stats>, exclude: Option<nat>, m: Maxima, m': Maxima)
    requires AreMaxima(b, exclude, m) && AreMaxima(b, exclude, m')
    ensures m == m'
  {
  }

  lemma FirstBestIsDetermined(w: Weights, b: seq<Stats>, exclude: Option<nat>, m: Maxima, i: nat, j: nat)
    requires FirstBest(w, b, exclude, m, i) && FirstBest(w, b, exclude, m, j)
    ensures i == j
  {
  }

  /** A list and an exclusion determine the maxima, the scores and the pick. */
  lemma PickIsDetermined(w: Weights, b: seq<Stats>, exclude: Option<nat>, r: Option<nat>, r': Option<nat>)
    requires Picked(w, b, exclude, r) && Picked(w, b, exclude, r')
    ensures r == r'
  {
    if i: nat :| Candidate(b, exclude, i) {
      var m :| AreMaxima(b, exclude, m) && FirstBest(w, b, exclude, m, r.value);
      var m' :| AreMaxima(b, exclude, m') && FirstBest(w, b, exclude, m', r'.value);
      MaximaAreDetermined(b, exclude, m, m');
      FirstBestIsDetermined(w, b, exclude, m, r.value, r'.value);
    }
  }

  lemma WeighRange(k: real, x: real)
    requires k >= 0.0 && 0.0 <= x <= 1.0
    ensures 0.0 <= k * x <= k
  {
  }

  lemma PartRange(k: real, x: real, top: real)
    requires k >= 0.0
    ensures 0.0 <= Part(k, x, top) <= k
  {
    WeighRange(k, Normalize(x, top));
  }

  /** With weights that are not negative a score lies between 0 and their sum. */
  lemma ScoreRange(w: Weights, x: Metrics, m: Maxima)
    requires w.conn >= 0.0 && w.lat >= 0.0 && w.cpu >= 0.0
    ensures 0.0 <= Score(w, x, m) <= w.conn + w.lat + w.cpu
  {
    PartRange(w.conn, Conns(x), m.conns);
    PartRange(w.lat, x.latency, m.lat);
    PartRange(w.cpu, x.cpu, m.cpu);
  }

  /** Normalizing keeps the order, strictly as long as the smaller value is below the maximum. */
  lemma NormalizeMonotone(x: real, y: real, top: real)
    requires 0.0 <= x <= y && top >= 1.0
    ensures Normalize(x, top) <= Normalize(y, top)
    ensures x < y && x < top ==> Normalize(x, top) < Normalize(y, top)
  {
    if x < top {
      assert x / top < 1.0;
    }
  }

  lemma WeighMonotone(k: real, x: real, y: real)
    requires k > 0.0
    ensures x <= y ==> k * x <= k * y
    ensures x < y ==> k * x < k * y
  {
  }

  lemma PartMonotone(k: real, x: real, y: real, top: real)
    requires k > 0.0 && 0.0 <= x <= y && top >= 1.0
    ensures Part(k, x, top) <= Part(k, y, top)
    ensures x < y && x < top ==> Part(k, x, top) < Part(k, y, top)
  {
    NormalizeMonotone(x, y, top);
    WeighMonotone(k, Normalize(x, top), Normalize(y, top));
  }

  predicate NoNegatives(x: Metrics) {
    Conns(x) >= 0.0 && x.latency >= 0.0 && x.cpu >= 0.0
  }

  /** x is at least as good as y on all three metrics and better on one. */
  predicate Dominates(x: Metrics, y: Metrics) {
    && Conns(x) <= Conns(y) && x.latency <= y.latency && x.cpu <= y.cpu
    && (Conns(x) < Conns(y) || x.latency < y.latency || x.cpu < y.cpu)
  }

  /** Some metric exceeds its maximum, so that normalizing clips it. */
  predicate Beyond(y: Metrics, m: Maxima) {
    Conns(y) > m.conns || y.latency > m.lat || y.cpu > m.cpu
  }

  /** Where x is better than y, both are beyond the maxima. */
  predicate BetterBeyond(x: Metrics, y: Metrics, m: Maxima) {
    && (Conns(x) < Conns(y) ==> m.conns <= Conns(x))
    && (x.latency < y.latency ==> m.lat <= x.latency)
    && (x.cpu < y.cpu ==> m.cpu <= x.cpu)
  }

  lemma DominatorScoresLess(w: Weights, x: Metrics, y: Metrics, m: Maxima)
    requires w.conn > 0.0 && w.lat > 0.0 && w.cpu > 0.0
    requires NoNegatives(x) && Dominates(x, y) && !BetterBeyond(x, y, m)
    requires m.conns >= 1.0 && m.lat >= 1.0 && m.cpu >= 1.0
    ensures Score(w, x, m) < Score(w, y, m)
  {
    PartMonotone(w.conn, Conns(x), Conns(y), m.conns);
    PartMonotone(w.lat, x.latency, y.latency, m.lat);
    PartMonotone(w.cpu, x.cpu, y.cpu, m.cpu);
  }

  lemma DominatorScoresNoMore(w: Weights, x: Metrics, y: Metrics, m: Maxima)
    requires w.conn > 0.0 && w.lat > 0.0 && w.cpu > 0.0
    requires NoNegatives(x) && Dominates(x, y)
    requires m.conns >= 1.0 && m.lat >= 1.0 && m.cpu >= 1.0
    ensures Score(w, x, m) <= Score(w, y, m)
  {
    PartMonotone(w.conn, Conns(x), Conns(y), m.conns);
    PartMonotone(w.lat, x.latency, y.latency, m.lat);
    PartMonotone(w.cpu, x.cpu, y.cpu, m.cpu);
  }

  /**
   * A candidate that dominates the pick, as scored, stands after it in the list and is better only where both are
   * beyond the maxima, so the pick has a metric that is clipped.
   */
  lemma PickIsUndominated(w: Weights, b: seq<Stats>, exclude: Option<nat>, r: Option<nat>, k: nat, m: Maxima)
    requires w.conn > 0.0 && w.lat > 0.0 && w.cpu > 0.0
    requires Picked(w, b, exclude, r) && Candidate(b, exclude, k) && NoNegatives(b[k].scored)
    requires AreMaxima(b, exclude, m)
    ensures r.Some? && r.value < |b|
    ensures var x, y := b[k].scored, b[r.value].scored;
      Dominates(x, y) ==> r.value < k && BetterBeyond(x, y, m) && Beyond(y, m)
  {
    var m' :| AreMaxima(b, exclude, m') && FirstBest(w, b, exclude, m', r.value);
    MaximaAreDetermined(b, exclude, m, m');
    if Dominates(b[k].scored, b[r.value].scored) {
      DominatorScoresNoMore(w, b[k].scored, b[r.value].scored, m);
      if !BetterBeyond(b[k].scored, b[r.value].scored, m) {
        DominatorScoresLess(w, b[k].scored, b[r.value].scored, m);
      }
    }
  }

  function Least(x: real, y: real): real {
    if x < y then x else y
  }

  /** A reading with everything beyond the maxima lowered to them. */
  function Capped(y: Metrics, m: Maxima): Metrics {
    Metrics(0, Least(Conns(y), m.conns), Least(y.latency, m.lat), Least(y.cpu, m.cpu))
  }

  lemma PartCapped(k: real, v: real, top: real)
    requires top >= 1.0
    ensures Part(k, Least(v, top), top) == Part(k, v, top)
  {
    if v > top {
      PartSaturates(k, v, top);
      PartSaturates(k, top, top);
    }
  }

  lemma CappedScoresAlike(w: Weights, y: Metrics, m: Maxima)
    requires m.conns >= 1.0 && m.lat >= 1.0 && m.cpu >= 1.0 && NoNegatives(y)
    ensures NoNegatives(Capped(y, m)) && Score(w, Capped(y, m), m) == Score(w, y, m)
    ensures Dominates(Capped(y, m), y) <==> Beyond(y, m)
  {
    assert Conns(Capped(y, m)) == Least(Conns(y), m.conns);
    PartCapped(w.conn, Conns(y), m.conns);
    PartCapped(w.lat, y.latency, m.lat);
    PartCapped(w.cpu, y.cpu, m.cpu);
  }

  /** The same pick with x as the second reading of upstream k. */
  function Rescored(b: seq<Stats>, k: nat, x: Metrics): seq<Stats>
    requires k < |b|
  {
    b[k := b[k].(scored := x)]
  }

  lemma RescoredCandidates(b: seq<Stats>, exclude: Option<nat>, k: nat, x: Metrics, m: Maxima)
    requires k < |b| && AreMaxima(b, exclude, m)
    ensures forall i: nat :: Candidate(Rescored(b, k, x), exclude, i) <==> Candidate(b, exclude, i)
    ensures AreMaxima(Rescored(b, k, x), exclude, m)
  {
    var b' := Rescored(b, k, x);
    forall i: nat
      ensures Candidate(b', exclude, i) <==> Candidate(b, exclude, i)
    {
      assert forall j: nat :: j < |b| ==> b'[j].healthy == b[j].healthy;
    }
    assert forall i: nat :: i < |b| ==> b'[i].seen == b[i].seen;
  }

  /** A later candidate that scores no better does not change the pick. */
  lemma RescoredLater(w: Weights, b: seq<Stats>, exclude: Option<nat>, r: nat, k: nat, x: Metrics, m: Maxima)
    requires FirstBest(w, b, exclude, m, r) && Candidate(b, exclude, k) && r < k && AreMaxima(b, exclude, m)
    requires Score(w, x, m) >= Score(w, b[r].scored, m)
    ensures Picked(w, Rescored(b, k, x), exclude, Some(r))
  {
    RescoredCandidates(b, exclude, k, x, m);
    assert FirstBest(w, Rescored(b, k, x), exclude, m, r);
  }

  /** Candidate k, read as x when it is scored, dominates the pick r and is not picked. */
  ghost predicate PassedOver(w: Weights, b: seq<Stats>, exclude: Option<nat>, r: nat, k: nat, x: Metrics)
    requires r < |b| && k < |b|
  {
    NoNegatives(x) && Dominates(x, b[r].scored) && Picked(w, Rescored(b, k, x), exclude, Some(r))
  }

  /** With any candidate at all, the pick is the first candidate of least score under the maxima. */
  lemma PickIsFirstBest(w: Weights, b: seq<Stats>, exclude: Option<nat>, r: nat, k: nat, m: Maxima)
    requires AreMaxima(b, exclude, m) && Candidate(b, exclude, k)
    ensures Picked(w, b, exclude, Some(r)) <==> FirstBest(w, b, exclude, m, r)
  {
    if Picked(w, b, exclude, Some(r)) {
      var m' :| AreMaxima(b, exclude, m') && FirstBest(w, b, exclude, m', r);
      MaximaAreDetermined(b, exclude, m, m');
    }
  }

  /**
   * Another candidate can be passed over although it dominates the pick exactly when it stands after the pick and some
   * metric of the pick is beyond the maxima that the first loop has found.
   */
  lemma DominatedExact(w: Weights, b: seq<Stats>, exclude: Option<nat>, r: nat, k: nat, m: Maxima)
    requires w.conn > 0.0 && w.lat > 0.0 && w.cpu > 0.0
    requires AreMaxima(b, exclude, m) && FirstBest(w, b, exclude, m, r) && Candidate(b, exclude, k) && k != r
    ensures (exists x :: PassedOver(w, b, exclude, r, k, x))
      <==> r < k && NoNegatives(b[r].scored) && Beyond(b[r].scored, m)
  {
    var y := b[r].scored;
    if x :| PassedOver(w, b, exclude, r, k, x) {
      RescoredCandidates(b, exclude, k, x, m);
      PickIsUndominated(w, Rescored(b, k, x), exclude, Some(r), k, m);
    }
    if r < k && NoNegatives(y) && Beyond(y, m) {
      CappedScoresAlike(w, y, m);
      RescoredLater(w, b, exclude, r, k, Capped(y, m), m);
      assert PassedOver(w, b, exclude, r, k, Capped(y, m));
    }
  }

  lemma PartSaturates(k: real, x: real, top: real)
    requires x >= top > 0.0
    ensures Part(k, x, top) == k
  {
    assert x / top >= 1.0 && Normalize(x, top) == 1.0;
  }

  /** Connection counts that have outgrown the maximum all count alike. */
  lemma ScoreSaturates(w: Weights, x: Metrics, y: Metrics, m: Maxima)
    requires Conns(x) >= m.conns > 0.0 && Conns(y) >= m.conns && x.latency == y.latency && x.cpu == y.cpu
    ensures Score(w, x, m) == Score(w, y, m)
  {
    PartSaturates(w.conn, Conns(x), m.conns);
    PartSaturates(w.conn, Conns(y), m.conns);
  }

  lemma TieGoesToFirst(w: Weights, b: seq<Stats>, m: Maxima)
    requires |b| == 2 && b[0].healthy && b[1].healthy && AreMaxima(b, None, m)
    requires Score(w, b[0].scored, m) == Score(w, b[1].scored, m)
    ensures Candidate(b, None, 1) && Picked(w, b, None, Some(0))
  {
    assert Candidate(b, None, 0);
    assert FirstBest(w, b, None, m, 0);
  }

  /** An upstream with n connections, otherwise idle. */
  function Loaded(n: nat): Metrics {
    Metrics(n, 0.0, 10.0, 0.0)
  }

  /** A closed case, for any weights: both loads rise after the maxima are taken, and the busier upstream is picked. */
  lemma RisenPickIsDominated(w: Weights, n: nat, k: nat)
    requires 1 <= n < k
    ensures var b := [Stats(true, Loaded(0), Loaded(k)), Stats(true, Loaded(0), Loaded(n))];
      && Picked(w, b, None, Some(0))
      && Candidate(b, None, 1) && NoNegatives(b[1].scored) && Dominates(b[1].scored, b[0].scored)
  {
    var b := [Stats(true, Loaded(0), Loaded(k)), Stats(true, Loaded(0), Loaded(n))];
    var m := Maxima(1.0, 10.0, 1.0);
    assert Candidate(b, None, 0) && b[0].seen.latency == m.lat;
    assert AreMaxima(b, None, m);
    ScoreSaturates(w, Loaded(k), Loaded(n), m);
    TieGoesToFirst(w, b, m);
  }

  // -------------------------------------------------------------------------
  // The pick written out
  // -------------------------------------------------------------------------

  /** A reading as far as it counts: none counts below 0 or beyond its maximum. */
  function Clamped(v: real, top: real): (r: real)
    ensures 0.0 <= v <= top ==> r == v
    ensures top >= 0.0 ==> 0.0 <= r <= top
  {
    if v < 0.0 then 0.0 else if v > top then top else v
  }

  /** By how much u counts more than v for a metric of weight k. */
  function Share(k: real, u: real, v: real, top: real): real
    requires top > 0.0
  {
    k * ((Clamped(u, top) - Clamped(v, top)) / top)
  }

  /** How much worse x is than y, each metric relative to its maximum and times its own weight. */
  function Excess(w: Weights, x: Metrics, y: Metrics, m: Maxima): real
    requires m.conns > 0.0 && m.lat > 0.0 && m.cpu > 0.0
  {
    Share(w.conn, Conns(x), Conns(y), m.conns) + Share(w.lat, x.latency, y.latency, m.lat)
    + Share(w.cpu, x.cpu, y.cpu, m.cpu)
  }

  lemma NormalizeIsClamped(v: real, top: real)
    requires top > 0.0
    ensures Normalize(v, top) == Clamped(v, top) / top
  {
    if v > top {
      assert v / top > 1.0;
    } else if v < 0.0 {
      assert v / top < 0.0;
    } else {
      assert 0.0 <= v / top <= 1.0;
    }
  }

  lemma DivideDifference(a: real, b: real, top: real)
    requires top > 0.0
    ensures (a - b) / top == a / top - b / top
  {
  }

  lemma WeighDifference(k: real, a: real, b: real)
    ensures k * (a - b) == k * a - k * b
  {
  }

  lemma PartDifference(k: real, u: real, v: real, top: real)
    requires top > 0.0
    ensures Part(k, u, top) - Part(k, v, top) == Share(k, u, v, top)
  {
    NormalizeIsClamped(u, top);
    NormalizeIsClamped(v, top);
    DivideDifference(Clamped(u, top), Clamped(v, top), top);
    WeighDifference(k, Normalize(u, top), Normalize(v, top));
  }

  lemma ScoreDifference(w: Weights, x: Metrics, y: Metrics, m: Maxima)
    requires m.conns > 0.0 && m.lat > 0.0 && m.cpu > 0.0
    ensures Score(w, x, m) - Score(w, y, m) == Excess(w, x, y, m)
  {
    PartDifference(w.conn, Conns(x), Conns(y), m.conns);
    PartDifference(w.lat, x.latency, y.latency, m.lat);
    PartDifference(w.cpu, x.cpu, y.cpu, m.cpu);
  }

  /** No candidate is better than r, and none before r as good. */
  ghost predicate NoneBetter(w: Weights, b: seq<Stats>, exclude: Option<nat>, m: Maxima, r: nat)
    requires m.conns > 0.0 && m.lat > 0.0 && m.cpu > 0.0
  {
    && Candidate(b, exclude, r)
    && forall k: nat :: Candidate(b, exclude, k) ==>
         Excess(w, b[k].scored, b[r].scored, m) >= 0.0
         && (k < r ==> Excess(w, b[k].scored, b[r].scored, m) > 0.0)
  }

  /** Whatever the weights and readings, the pick is the first candidate that no other undercuts in the weighted sum. */
  lemma PickWrittenOut(w: Weights, b: seq<Stats>, exclude: Option<nat>, r: nat, k: nat, m: Maxima)
    requires AreMaxima(b, exclude, m) && Candidate(b, exclude, k)
    ensures Picked(w, b, exclude, Some(r)) <==> NoneBetter(w, b, exclude, m, r)
  {
    PickIsFirstBest(w, b, exclude, r, k, m);
    FirstBestWrittenOut(w, b, exclude, r, m);
  }

  lemma FirstBestWrittenOut(w: Weights, b: seq<Stats>, exclude: Option<nat>, r: nat, m: Maxima)
    requires m.conns > 0.0 && m.lat > 0.0 && m.cpu > 0.0
    ensures FirstBest(w, b, exclude, m, r) <==> NoneBetter(w, b, exclude, m, r)
  {
    forall k: nat | Candidate(b, exclude, k) && Candidate(b, exclude, r)
      ensures Score(w, b[k].scored, m) - Score(w, b[r].scored, m) == Excess(w, b[k].scored, b[r].scored, m)
    {
      ScoreDifference(w, b[k].scored, b[r].scored, m);
    }
  }

  datatype Metric = ByConns | ByLatency | ByCpu

  function Reading(x: Metrics, metric: Metric): real {
    match metric
    case ByConns => Conns(x)
    case ByLatency => x.latency
    case ByCpu => x.cpu
  }

  /** Only the weight of this metric is not 0. */
  predicate OnlyWeight(w: Weights, metric: Metric) {
    match metric
    case ByConns => w.conn > 0.0 && w.lat == 0.0 && w.cpu == 0.0
    case ByLatency => w.conn == 0.0 && w.lat > 0.0 && w.cpu == 0.0
    case ByCpu => w.conn == 0.0 && w.lat == 0.0 && w.cpu > 0.0
  }

  /** r is the first candidate on which a metric is least. */
  ghost predicate FirstLeast(b: seq<Stats>, exclude: Option<nat>, metric: Metric, r: nat) {
    && Candidate(b, exclude, r)
    && forall k: nat :: Candidate(b, exclude, k) ==>
         Reading(b[r].scored, metric) <= Reading(b[k].scored, metric)
         && (k < r ==> Reading(b[r].scored, metric) < Reading(b[k].scored, metric))
  }

  predicate Within(x: Metrics, m: Maxima) {
    NoNegatives(x) && !Beyond(x, m)
  }

  lemma SignOfQuotient(d: real, top: real)
    requires top > 0.0
    ensures (d / top >= 0.0 <==> d >= 0.0) && (d / top > 0.0 <==> d > 0.0)
  {
  }

  lemma SignOfProduct(k: real, q: real)
    requires k > 0.0
    ensures (k * q >= 0.0 <==> q >= 0.0) && (k * q > 0.0 <==> q > 0.0)
  {
  }

  lemma ShareSign(k: real, u: real, v: real, top: real)
    requires top > 0.0 && 0.0 <= u <= top && 0.0 <= v <= top
    ensures k == 0.0 ==> Share(k, u, v, top) == 0.0
    ensures k > 0.0 ==> (Share(k, u, v, top) >= 0.0 <==> v <= u) && (Share(k, u, v, top) > 0.0 <==> v < u)
  {
    SignOfQuotient(u - v, top);
    if k > 0.0 {
      SignOfProduct(k, (u - v) / top);
    }
  }

  lemma LoneExcess(w: Weights, x: Metrics, y: Metrics, m: Maxima, metric: Metric)
    requires m.conns > 0.0 && m.lat > 0.0 && m.cpu > 0.0 && Within(x, m) && Within(y, m) && OnlyWeight(w, metric)
    ensures Excess(w, x, y, m) >= 0.0 <==> Reading(y, metric) <= Reading(x, metric)
    ensures Excess(w, x, y, m) > 0.0 <==> Reading(y, metric) < Reading(x, metric)
  {
    ShareSign(w.conn, Conns(x), Conns(y), m.conns);
    ShareSign(w.lat, x.latency, y.latency, m.lat);
    ShareSign(w.cpu, x.cpu, y.cpu, m.cpu);
  }

  /** Each weight goes with its metric: where it counts alone, the pick is the first candidate least in that metric. */
  lemma LoneWeightPick(w: Weights, b: seq<Stats>, exclude: Option<nat>, r: nat, k: nat, m: Maxima, metric: Metric)
    requires AreMaxima(b, exclude, m) && Candidate(b, exclude, k) && OnlyWeight(w, metric)
    requires forall i: nat :: Candidate(b, exclude, i) ==> Within(b[i].scored, m)
    ensures Picked(w, b, exclude, Some(r)) <==> FirstLeast(b, exclude, metric, r)
  {
    PickWrittenOut(w, b, exclude, r, k, m);
    forall i: nat | Candidate(b, exclude, i) && Candidate(b, exclude, r)
      ensures Excess(w, b[i].scored, b[r].scored, m) >= 0.0
        <==> Reading(b[r].scored, metric) <= Reading(b[i].scored, metric)
      ensures Excess(w, b[i].scored, b[r].scored, m) > 0.0
        <==> Reading(b[r].scored, metric) < Reading(b[i].scored, metric)
    {
      LoneExcess(w, b[i].scored, b[r].scored, m, metric);
    }
  }

  lemma ShareReversed(k: real, u: real, v: real, top: real)
    requires top > 0.0
    ensures Share(k, u, v, top) == -Share(k, v, u, top)
  {
    var a, c := Clamped(u, top), Clamped(v, top);
    DivideDifference(a, c, top);
    DivideDifference(c, a, top);
    WeighDifference(k, a / top, c / top);
    WeighDifference(k, c / top, a / top);
  }

  lemma ExcessReversed(w: Weights, x: Metrics, y: Metrics, m: Maxima)
    requires m.conns > 0.0 && m.lat > 0.0 && m.cpu > 0.0
    ensures Excess(w, x, y, m) == -Excess(w, y, x, m)
  {
    ShareReversed(w.conn, Conns(x), Conns(y), m.conns);
    ShareReversed(w.lat, x.latency, y.latency, m.lat);
    ShareReversed(w.cpu, x.cpu, y.cpu, m.cpu);
  }

  /** A difference relative to its maximum, times a weight. */
  function Gap(k: real, u: real, v: real, top: real): real
    requires top > 0.0
  {
    k * ((u - v) / top)
  }

  lemma ShareWithin(k: real, u: real, v: real, top: real)
    requires top > 0.0 && 0.0 <= u <= top && 0.0 <= v <= top
    ensures Share(k, u, v, top) == Gap(k, u, v, top)
  {
  }

  lemma ExcessWithin(w: Weights, x: Metrics, y: Metrics, m: Maxima)
    requires m.conns > 0.0 && m.lat > 0.0 && m.cpu > 0.0 && Within(x, m) && Within(y, m)
    ensures Excess(w, x, y, m)
      == Gap(w.conn, Conns(x), Conns(y), m.conns) + Gap(w.lat, x.latency, y.latency, m.lat)
         + Gap(w.cpu, x.cpu, y.cpu, m.cpu)
  {
    ShareWithin(w.conn, Conns(x), Conns(y), m.conns);
    ShareWithin(w.lat, x.latency, y.latency, m.lat);
    ShareWithin(w.cpu, x.cpu, y.cpu, m.cpu);
  }

  lemma LaterOfTwoBy(w: Weights, b: seq<Stats>, exclude: Option<nat>, i: nat, k: nat, m: Maxima)
    requires AreMaxima(b, exclude, m) && i < k < |b|
    requires forall j: nat :: Candidate(b, exclude, j) <==> j == i || j == k
    ensures Picked(w, b, exclude, Some(k)) <==> Excess(w, b[k].scored, b[i].scored, m) < 0.0
  {
    assert Candidate(b, exclude, i) && Candidate(b, exclude, k);
    PickWrittenOut(w, b, exclude, k, k, m);
    ExcessReversed(w, b[k].scored, b[i].scored, m);
    ExcessReversed(w, b[k].scored, b[k].scored, m);
  }

  /** Of two candidates within the maxima the later is picked exactly when its weighted sum is less. */
  lemma LaterOfTwo(w: Weights, b: seq<Stats>, exclude: Option<nat>, i: nat, k: nat, m: Maxima)
    requires AreMaxima(b, exclude, m) && i < k < |b|
    requires forall j: nat :: Candidate(b, exclude, j) <==> j == i || j == k
    requires Within(b[i].scored, m) && Within(b[k].scored, m)
    ensures var x, y := b[k].scored, b[i].scored;
      var gap := Gap(w.conn, Conns(x), Conns(y), m.conns) + Gap(w.lat, x.latency, y.latency, m.lat)
        + Gap(w.cpu, x.cpu, y.cpu, m.cpu);
      Picked(w, b, exclude, Some(k)) <==> gap < 0.0
  {
    LaterOfTwoBy(w, b, exclude, i, k, m);
    ExcessWithin(w, b[k].scored, b[i].scored, m);
  }

  // -------------------------------------------------------------------------
  // Failover
  // -------------------------------------------------------------------------

  /**
   * A request already routed to `primary`: one attempt there and, if it fails, one on another upstream. The flags tell
   * how the attempts would end, `b` is what is known when the second upstream is picked.
   */
  method RoundTrip(w: Weights, b: seq<Stats>, primary: nat, firstOk: bool, secondOk: bool)
    returns (attempts: seq<nat>, ok: bool)
    requires primary < |b|
    ensures 1 <= |attempts| <= 2 && attempts[0] == primary
    ensures |attempts| == 2 <==> !firstOk && |b| >= 2
    ensures |attempts| == 2 ==>
      attempts[1] < |b| && attempts[1] != primary && Picked(w, b, Some(primary), Some(attempts[1]))
    ensures |attempts| == 2 && (exists k: nat :: k < |b| && k != primary && b[k].healthy) ==> b[attempts[1]].healthy
    ensures ok == if |attempts| == 2 then secondOk else firstOk
  {
    attempts, ok := [primary], firstOk;
    if firstOk {
      return;
    }
    var alt := PickExcluding(w, b, Some(primary));
    if |b| >= 2 {
      var other: nat := if primary == 0 then 1 else 0;
      PickAvoidsUnhealthy(w, b, Some(primary), alt, other);
      if k: nat :| k < |b| && k != primary && b[k].healthy {
        PickAvoidsUnhealthy(w, b, Some(primary), alt, k);
      }
    }
    if alt.None? || alt.value == primary {
      assert |b| == 1;
      return;
    }
    attempts, ok := [primary, alt.value], secondOk;
  }
}
