/** The bounded, deduplicated in-memory feed of one backend (server/store.py). */
module FeedCache {
  import opened Sequences

  datatype Entry = Entry(id: string, username: string, text: string, room: string, timestamp: int)

  /** A message on its way into the cache; "" and 0 stand for a missing or falsy field. */
  datatype Message = Message(
    id: string, username: string, clientName: string, text: string, msg: string, room: string, timestamp: int)

  /** The deque length and the extra room the id set is given. */
  datatype Bounds = Bounds(size: nat, slack: nat)

  const FEED_BOUNDS := Bounds(20000, 2000)

  datatype Cache = Cache(entries: seq<Entry>, ids: set<string>)

  const EMPTY := Cache([], {})

  function Or(a: string, b: string): string {
    if a != "" then a else b
  }

  function Clip(s: string, n: nat): string {
    if |s| <= n then s else s[..n]
  }

  /** The nine-field record the cache keeps, without its constant and repeated fields. */
  function Compact(room: string, m: Message, nowMs: int): (e: Entry)
    ensures e.id == m.id && 1 <= |e.username| <= 100 && |e.text| <= 2000 && 1 <= |e.room| <= 24
    ensures 1 <= |m.username| <= 100 ==> e.username == m.username
    ensures 1 <= |m.text| <= 2000 ==> e.text == m.text
    ensures 1 <= |room| <= 24 ==> e.room == room
    ensures m.username == m.clientName == "" ==> e.username == "Anonymous"
    ensures e.timestamp in {m.timestamp, nowMs} && (m.timestamp != 0 ==> e.timestamp == m.timestamp)
  {
    Entry(
      m.id,
      Clip(Or(m.username, Or(m.clientName, "Anonymous")), 100),
      Clip(Or(m.text, m.msg), 2000),
      Clip(Or(room, Or(m.room, "general")), 24),
      if m.timestamp != 0 then m.timestamp else nowMs)
  }

  /** h is s, or its first n characters when it is longer. */
  predicate IsHead(h: string, s: string, n: nat) {
    h <= s && |h| == if |s| <= n then |s| else n
  }

  /** Which of the message's fields is stored in each place, from its start as far as it fits. */
  lemma CompactFields(room: string, m: Message, nowMs: int)
    ensures var e := Compact(room, m, nowMs);
      && (m.username != "" ==> IsHead(e.username, m.username, 100))
      && (m.username == "" && m.clientName != "" ==> IsHead(e.username, m.clientName, 100))
      && (m.username == "" && m.clientName == "" ==> e.username == "Anonymous")
      && (m.text != "" ==> IsHead(e.text, m.text, 2000)) && (m.text == "" ==> IsHead(e.text, m.msg, 2000))
      && (room != "" ==> IsHead(e.room, room, 24))
      && (room == "" && m.room != "" ==> IsHead(e.room, m.room, 24))
      && (room == "" && m.room == "" ==> e.room == "general")
      && e.id == m.id && e.timestamp == if m.timestamp == 0 then nowMs else m.timestamp
  {
  }

  /** Storing a stored entry again, at any later time, changes none of its fields. */
  lemma CompactIsStable(room: string, m: Message, t1: int, t2: int)
    ensures var e := Compact(room, m, t1);
      e.timestamp != 0 ==>
        Compact(e.room, Message(e.id, e.username, e.username, e.text, e.text, e.room, e.timestamp), t2) == e
  {
  }

  function IdsOf(s: seq<Entry>): set<string> {
    set e | e in s :: e.id
  }

  predicate Overflows(b: Bounds, c: Cache, e: Entry) {
    e.id !in c.ids && |c.ids| + 1 > b.size + b.slack
  }

  /** The section under the cache lock: the rebuilt set holds the ids already in the deque, not the new one. */
  function Insert(b: Bounds, c: Cache, e: Entry): Cache {
    if e.id in c.ids then c
    else
      Cache(
        LastN(c.entries + [e], b.size),
        if Overflows(b, c, e) then IdsOf(c.entries) else c.ids + {e.id})
  }

  function Put(b: Bounds, c: Cache, room: string, m: Message, nowMs: int): Cache {
    if m.id == "" then c else Insert(b, c, Compact(room, m, nowMs))
  }

  /** The cache after a sequence of insertions. */
  function Run(b: Bounds, es: seq<Entry>): Cache {
    if es == [] then EMPTY else Insert(b, Run(b, es[..|es| - 1]), es[|es| - 1])
  }

  // -------------------------------------------------------------------------
  // The run with its history
  // -------------------------------------------------------------------------

  /** A run, the messages it admitted, the admissions that rebuilt the id set, and the rebuild iterations. */
  datatype Trace = Trace(cache: Cache, admitted: seq<Entry>, rebuilds: seq<nat>, work: nat)

  function Observe(b: Bounds, t: Trace, e: Entry): Trace {
    if e.id in t.cache.ids then t
    else
      var rebuilt := Overflows(b, t.cache, e);
      Trace(
        Insert(b, t.cache, e),
        t.admitted + [e],
        if rebuilt then t.rebuilds + [|t.admitted|] else t.rebuilds,
        if rebuilt then t.work + |t.cache.entries| else t.work)
  }

  function History(b: Bounds, es: seq<Entry>): Trace {
    if es == [] then Trace(EMPTY, [], [], 0) else Observe(b, History(b, es[..|es| - 1]), es[|es| - 1])
  }

  /** The first position of the admitted log that is still in the deque. */
  function WindowStart(b: Bounds, t: Trace): nat {
    if |t.admitted| <= b.size then 0 else |t.admitted| - b.size
  }

  ghost predicate SpacedBy(s: seq<nat>, gap: nat) {
    forall i, j :: 0 <= i < j < |s| ==> s[i] + gap <= s[j]
  }

  ghost predicate RebuildHistory(b: Bounds, t: Trace) {
    && SpacedBy(t.rebuilds, b.slack + 1)
    && (forall p :: p in t.rebuilds ==> p < |t.admitted|)
    && (t.rebuilds != [] ==> |t.cache.ids| <= b.size + |t.admitted| - 1 - t.rebuilds[|t.rebuilds| - 1])
  }

  ghost predicate KnownOrPending(b: Bounds, t: Trace) {
    forall p :: WindowStart(b, t) <= p < |t.admitted| ==>
      t.admitted[p].id in t.cache.ids || (t.rebuilds != [] && p == t.rebuilds[|t.rebuilds| - 1])
  }

  /** A repeated id was first admitted by the last rebuild before its second admission. */
  ghost predicate RepeatsFollowRebuilds(b: Bounds, t: Trace) {
    forall p, q :: WindowStart(b, t) <= p < q < |t.admitted| && t.admitted[p].id == t.admitted[q].id ==>
      p in t.rebuilds && forall r :: r in t.rebuilds && r < q ==> r <= p
  }

  ghost predicate TraceInv(b: Bounds, t: Trace) {
    && t.cache.entries == LastN(t.admitted, b.size)
    && |t.cache.ids| <= b.size + b.slack
    && RebuildHistory(b, t)
    && KnownOrPending(b, t)
    && RepeatsFollowRebuilds(b, t)
  }

  lemma IdsSize(s: seq<Entry>)
    ensures |IdsOf(s)| <= |s|
  {
    if s == [] {
    } else {
      var init := s[..|s| - 1];
      IdsSize(init);
      assert s == init + [s[|s| - 1]];
      assert IdsOf(s) == IdsOf(init) + {s[|s| - 1].id};
    }
  }

  lemma ObserveKeepsRebuildHistory(b: Bounds, t: Trace, e: Entry)
    requires RebuildHistory(b, t) && |t.cache.ids| <= b.size + b.slack && |t.cache.entries| <= b.size
    requires e.id !in t.cache.ids
    ensures RebuildHistory(b, Observe(b, t, e))
    ensures |Observe(b, t, e).cache.ids| <= b.size + b.slack
  {
    IdsSize(t.cache.entries);
    if Overflows(b, t.cache, e) {
      SpacedAppend(t.rebuilds, b.slack + 1, |t.admitted|);
    }
  }

  lemma SpacedAppend(s: seq<nat>, gap: nat, x: nat)
    requires SpacedBy(s, gap) && (s != [] ==> s[|s| - 1] + gap <= x)
    ensures SpacedBy(s + [x], gap)
  {
  }

  lemma ObserveKeepsKnown(b: Bounds, t: Trace, e: Entry)
    requires t.cache.entries == LastN(t.admitted, b.size) && KnownOrPending(b, t)
    requires e.id !in t.cache.ids
    ensures KnownOrPending(b, Observe(b, t, e))
  {
  }

  lemma LastIsLargest(s: seq<nat>, gap: nat)
    requires SpacedBy(s, gap) && s != []
    ensures forall r :: r in s ==> r <= s[|s| - 1]
  {
  }

  lemma ObserveKeepsRepeats(b: Bounds, t: Trace, e: Entry)
    requires RebuildHistory(b, t) && KnownOrPending(b, t) && RepeatsFollowRebuilds(b, t)
    requires e.id !in t.cache.ids
    ensures RepeatsFollowRebuilds(b, Observe(b, t, e))
  {
    var t' := Observe(b, t, e);
    forall p, q | WindowStart(b, t') <= p < q < |t'.admitted| && t'.admitted[p].id == t'.admitted[q].id
      ensures p in t'.rebuilds && forall r :: r in t'.rebuilds && r < q ==> r <= p
    {
      if q == |t.admitted| {
        assert p == t.rebuilds[|t.rebuilds| - 1];
        LastIsLargest(t.rebuilds, b.slack + 1);
      } else {
        assert t.admitted[p].id == t.admitted[q].id;
      }
    }
  }

  lemma ObserveKeepsInv(b: Bounds, t: Trace, e: Entry)
    requires TraceInv(b, t)
    ensures TraceInv(b, Observe(b, t, e))
  {
    if e.id !in t.cache.ids {
      LastNAppend(t.admitted, e, b.size);
      ObserveKeepsRebuildHistory(b, t, e);
      ObserveKeepsKnown(b, t, e);
      ObserveKeepsRepeats(b, t, e);
    }
  }

  lemma {:induction false} HistoryInv(b: Bounds, es: seq<Entry>)
    ensures TraceInv(b, History(b, es))
    ensures History(b, es).cache == Run(b, es)
  {
    if es == [] {
    } else {
      HistoryInv(b, es[..|es| - 1]);
      ObserveKeepsInv(b, History(b, es[..|es| - 1]), es[|es| - 1]);
    }
  }

  // -------------------------------------------------------------------------
  // What the code as written guarantees, over every sequence of puts
  // -------------------------------------------------------------------------

  function Copies(s: seq<Entry>, id: string): set<nat> {
    set i: nat | 0 <= i < |s| && s[i].id == id
  }

  /** Every id of the deque is in the id set, with at most one exception that then occurs once. */
  ghost predicate OneAbsentAtMost(c: Cache) {
    && (forall x, y :: x in IdsOf(c.entries) - c.ids && y in IdsOf(c.entries) - c.ids ==> x == y)
    && (forall x :: x in IdsOf(c.entries) - c.ids ==> |Copies(c.entries, x)| == 1)
  }

  lemma {:induction false} DedupAsWritten(b: Bounds, es: seq<Entry>)
    ensures Run(b, es).entries == LastN(History(b, es).admitted, b.size)
    ensures |Run(b, es).ids| <= b.size + b.slack
    ensures OneAbsentAtMost(Run(b, es))
    ensures forall id :: |Copies(Run(b, es).entries, id)| <= 2
  {
    HistoryInv(b, es);
    AbsentIdIsPending(b, History(b, es));
    forall id
      ensures |Copies(Run(b, es).entries, id)| <= 2
    {
      AtMostTwoCopies(b, History(b, es), id);
    }
  }

  /** No id that was put is refused outright: each is admitted at least once. */
  lemma {:induction false} EveryIdAdmitted(b: Bounds, es: seq<Entry>)
    ensures IdsOf(History(b, es).admitted) == IdsOf(es)
  {
    if es == [] {
    } else {
      var init, last := es[..|es| - 1], es[|es| - 1];
      EveryIdAdmitted(b, init);
      KnownWereAdmitted(b, init);
      assert es == init + [last];
      IdsAppend(init, last);
      IdsAppend(History(b, init).admitted, last);
    }
  }

  lemma {:induction false} KnownWereAdmitted(b: Bounds, es: seq<Entry>)
    ensures History(b, es).cache.ids <= IdsOf(History(b, es).admitted)
  {
    if es == [] {
    } else {
      var t, last := History(b, es[..|es| - 1]), es[|es| - 1];
      KnownWereAdmitted(b, es[..|es| - 1]);
      HistoryInv(b, es[..|es| - 1]);
      IdsAppend(t.admitted, last);
      WindowIdsAdmitted(t.admitted, b.size);
    }
  }

  lemma WindowIdsAdmitted(s: seq<Entry>, n: nat)
    ensures IdsOf(LastN(s, n)) <= IdsOf(s)
  {
  }

  lemma AbsentIdIsPending(b: Bounds, t: Trace)
    requires t.cache.entries == LastN(t.admitted, b.size) && KnownOrPending(b, t)
    ensures OneAbsentAtMost(t.cache)
  {
    forall x | x in IdsOf(t.cache.entries) - t.cache.ids
      ensures t.rebuilds != []
      ensures Copies(t.cache.entries, x) == {t.rebuilds[|t.rebuilds| - 1] - WindowStart(b, t)}
    {
      AbsentIdPosition(b, t, x);
    }
  }

  lemma AbsentIdPosition(b: Bounds, t: Trace, x: string)
    requires t.cache.entries == LastN(t.admitted, b.size) && KnownOrPending(b, t)
    requires x in IdsOf(t.cache.entries) - t.cache.ids
    ensures t.rebuilds != []
    ensures Copies(t.cache.entries, x) == {t.rebuilds[|t.rebuilds| - 1] - WindowStart(b, t)}
  {
  }

  lemma ThreePositions(s: set<nat>) returns (lo: nat, mid: nat, hi: nat)
    requires |s| > 2
    ensures lo in s && mid in s && hi in s && lo < mid < hi
  {
    var x := Pick(s);
    var y := Pick(s - {x});
    var z := Pick(s - {x} - {y});
    lo := if x < y && x < z then x else if y < z then y else z;
    hi := if x > y && x > z then x else if y > z then y else z;
    mid := x + y + z - lo - hi;
  }

  /** Two copies of one id: the first is a rebuild, and the last rebuild before the second. */
  lemma RepeatIsRebuilt(b: Bounds, t: Trace, id: string, i: nat, j: nat)
    requires t.cache.entries == LastN(t.admitted, b.size) && RepeatsFollowRebuilds(b, t)
    requires i < j && i in Copies(t.cache.entries, id) && j in Copies(t.cache.entries, id)
    ensures WindowStart(b, t) + i in t.rebuilds
    ensures forall r :: r in t.rebuilds && r < WindowStart(b, t) + j ==> r <= WindowStart(b, t) + i
  {
  }

  lemma AtMostTwoCopies(b: Bounds, t: Trace, id: string)
    requires t.cache.entries == LastN(t.admitted, b.size) && RepeatsFollowRebuilds(b, t)
    ensures |Copies(t.cache.entries, id)| <= 2
  {
    if |Copies(t.cache.entries, id)| > 2 {
      var lo, mid, hi := ThreePositions(Copies(t.cache.entries, id));
      RepeatIsRebuilt(b, t, id, mid, hi);
      RepeatIsRebuilt(b, t, id, lo, hi);
    }
  }

  // -------------------------------------------------------------------------
  // What the rebuilds cost, and how many ids they let repeat
  // -------------------------------------------------------------------------

  function Excess(n: nat, size: nat): nat {
    if n > size then n - size else 0
  }

  /** Rebuilds, weighted by slack+1, and the ids beyond size are paid for by the admissions. */
  ghost predicate Paid(b: Bounds, t: Trace) {
    && |t.rebuilds| * (b.slack + 1) + Excess(|t.cache.ids|, b.size) <= |t.admitted|
    && t.work <= |t.rebuilds| * b.size
  }

  lemma ObserveKeepsPaid(b: Bounds, t: Trace, e: Entry)
    requires Paid(b, t) && |t.cache.ids| <= b.size + b.slack && |t.cache.entries| <= b.size
    ensures Paid(b, Observe(b, t, e))
  {
    if Overflows(b, t.cache, e) {
      IdsSize(t.cache.entries);
      MulStep(|t.rebuilds|, b.slack + 1);
      MulStep(|t.rebuilds|, b.size);
    }
  }

  lemma {:induction false} RebuildPotential(b: Bounds, es: seq<Entry>)
    ensures Paid(b, History(b, es))
  {
    if es == [] {
    } else {
      RebuildPotential(b, es[..|es| - 1]);
      HistoryInv(b, es[..|es| - 1]);
      ObserveKeepsPaid(b, History(b, es[..|es| - 1]), es[|es| - 1]);
    }
  }

  /** Rebuilds are slack+1 admissions apart, so their total cost is size/(slack+1) iterations per admission. */
  lemma RebuildsAreRare(b: Bounds, es: seq<Entry>)
    ensures SpacedBy(History(b, es).rebuilds, b.slack + 1)
    ensures History(b, es).work * (b.slack + 1) <= b.size * |History(b, es).admitted|
  {
    HistoryInv(b, es);
    RebuildPotential(b, es);
    var t := History(b, es);
    WorkBound(t.work, |t.rebuilds|, |t.admitted|, b.slack + 1, b.size);
  }

  lemma WorkBound(work: nat, r: nat, m: nat, g: nat, size: nat)
    requires r * g <= m && work <= r * size
    ensures work * g <= size * m
  {
  }

  lemma MulLeft(x: nat, y: nat, k: nat)
    requires x <= y
    ensures x * k <= y * k
  {
  }

  /** The ids that occur more than once in the deque. */
  function Repeated(s: seq<Entry>): set<string> {
    set i: nat, j: nat | i < j < |s| && s[i].id == s[j].id :: s[i].id
  }

  /** At any moment at most (size + slack) / (slack + 1) ids are duplicated in the deque. */
  lemma FewRepeatedIds(b: Bounds, es: seq<Entry>)
    ensures |Repeated(Run(b, es).entries)| * (b.slack + 1) <= b.size + b.slack
  {
    HistoryInv(b, es);
    var t := History(b, es);
    RepeatedIdsFitRebuilds(b, t);
    RecentRebuilds(b, t);
    MulLeft(|Repeated(t.cache.entries)|, |RecentRebuildSet(b, t)|, b.slack + 1);
  }

  function RecentRebuildSet(b: Bounds, t: Trace): set<nat> {
    set p | p in t.rebuilds && WindowStart(b, t) <= p
  }

  lemma RepeatedIdsFitRebuilds(b: Bounds, t: Trace)
    requires t.cache.entries == LastN(t.admitted, b.size) && RepeatsFollowRebuilds(b, t)
    ensures |Repeated(t.cache.entries)| <= |RecentRebuildSet(b, t)|
  {
    var idAt := (p: nat) => if p < |t.admitted| then t.admitted[p].id else "";
    var named := set p | p in RecentRebuildSet(b, t) :: idAt(p);
    forall x | x in Repeated(t.cache.entries)
      ensures x in named
    {
      var p := RepeatedIdHasRebuild(b, t, x);
      assert p in RecentRebuildSet(b, t) && idAt(p) == x;
    }
    SubsetSize(Repeated(t.cache.entries), named);
    ImageSize(RecentRebuildSet(b, t), idAt);
  }

  lemma RepeatedIdHasRebuild(b: Bounds, t: Trace, x: string) returns (p: nat)
    requires t.cache.entries == LastN(t.admitted, b.size) && RepeatsFollowRebuilds(b, t)
    requires x in Repeated(t.cache.entries)
    ensures p in t.rebuilds && WindowStart(b, t) <= p < |t.admitted| && t.admitted[p].id == x
  {
    var i: nat, j: nat :| i < j < |t.cache.entries| && t.cache.entries[i].id == t.cache.entries[j].id == x;
    RepeatIsRebuilt(b, t, x, i, j);
    assert t.admitted[WindowStart(b, t) + i] == t.cache.entries[i];
    p := WindowStart(b, t) + i;
  }

  lemma SubsetSize<T>(a: set<T>, b: set<T>)
    requires a <= b
    ensures |a| <= |b|
  {
    assert b == a + (b - a);
  }

  lemma RecentRebuilds(b: Bounds, t: Trace)
    requires RebuildHistory(b, t)
    ensures |RecentRebuildSet(b, t)| * (b.slack + 1) <= b.size + b.slack
  {
    var recent := RecentRebuildSet(b, t);
    forall p, q | p in recent && q in recent && p < q
      ensures p + b.slack + 1 <= q
    {
      var i :| 0 <= i < |t.rebuilds| && t.rebuilds[i] == p;
      var j :| 0 <= j < |t.rebuilds| && t.rebuilds[j] == q;
      assert i < j;
    }
    SpacedSetSize(recent, WindowStart(b, t), |t.admitted|, b.slack + 1);
  }

  /** With the deployed sizes at most ten ids are duplicated. */
  lemma TenRepeatedIds(es: seq<Entry>)
    ensures |Repeated(Run(FEED_BOUNDS, es).entries)| <= 10
  {
    FewRepeatedIds(FEED_BOUNDS, es);
  }

  // -------------------------------------------------------------------------
  // When the cache meets its specification: the last messages of the first-occurrence log
  // -------------------------------------------------------------------------

  /** The specification: each id counts once, where it first occurs. */
  function FirstOccurrences(es: seq<Entry>): seq<Entry> {
    if es == [] then []
    else
      var init, last := es[..|es| - 1], es[|es| - 1];
      if last.id in IdsOf(init) then FirstOccurrences(init) else FirstOccurrences(init) + [last]
  }

  ghost predicate DistinctIds(s: seq<Entry>) {
    forall i, j :: 0 <= i < j < |s| ==> s[i].id != s[j].id
  }

  lemma IdsAppend(s: seq<Entry>, e: Entry)
    ensures IdsOf(s + [e]) == IdsOf(s) + {e.id}
  {
  }

  lemma {:induction false} FirstOccurrencesAreDistinct(es: seq<Entry>)
    ensures DistinctIds(FirstOccurrences(es))
    ensures IdsOf(FirstOccurrences(es)) == IdsOf(es)
  {
    if es == [] {
    } else {
      var init, last := es[..|es| - 1], es[|es| - 1];
      FirstOccurrencesAreDistinct(init);
      assert es == init + [last];
      IdsAppend(init, last);
      IdsAppend(FirstOccurrences(init), last);
      if last.id !in IdsOf(init) {
        assert forall e :: e in FirstOccurrences(init) ==> e.id in IdsOf(init);
      }
    }
  }

  /** While no more than size+slack ids have been seen, the cache is its specification. */
  lemma {:induction false} WithinCapacity(b: Bounds, es: seq<Entry>)
    requires |IdsOf(es)| <= b.size + b.slack
    ensures Run(b, es) == Cache(LastN(FirstOccurrences(es), b.size), IdsOf(es))
    ensures DistinctIds(Run(b, es).entries)
  {
    FirstOccurrencesAreDistinct(es);
    if es == [] {
    } else {
      var init, last := es[..|es| - 1], es[|es| - 1];
      assert es == init + [last];
      IdsAppend(init, last);
      SubsetSize(IdsOf(init), IdsOf(es));
      WithinCapacity(b, init);
      LastNAppend(FirstOccurrences(init), last, b.size);
    }
  }

  ghost function Listing(ids: set<string>): (es: seq<Entry>)
    ensures |es| == |ids| && DistinctIds(es) && IdsOf(es) == ids
  {
    if |ids| == 0 then []
    else
      var x :| x in ids;
      var rest := Listing(ids - {x});
      ListingGrows(rest, ids - {x}, x);
      rest + [Entry(x, "", "", "", 0)]
  }

  lemma ListingGrows(rest: seq<Entry>, ids: set<string>, x: string)
    requires |rest| == |ids| && DistinctIds(rest) && IdsOf(rest) == ids && x !in ids
    ensures DistinctIds(rest + [Entry(x, "", "", "", 0)])
    ensures IdsOf(rest + [Entry(x, "", "", "", 0)]) == ids + {x}
  {
  }

  lemma {:induction false} DistinctIsOwnFirstOccurrences(es: seq<Entry>)
    requires DistinctIds(es)
    ensures FirstOccurrences(es) == es && |IdsOf(es)| == |es|
  {
    if es == [] {
    } else {
      var init, last := es[..|es| - 1], es[|es| - 1];
      DistinctIsOwnFirstOccurrences(init);
      assert es == init + [last];
      IdsAppend(init, last);
      assert last.id !in IdsOf(init);
    }
  }

  /** The run that overflows the id set once, whose last id the rebuilt set does not contain. */
  lemma OverflowRun(b: Bounds, d: seq<Entry>)
    requires DistinctIds(d) && |d| == b.size + b.slack + 1
    ensures FirstOccurrences(d) == d
    ensures Run(b, d) == Cache(LastN(d, b.size), IdsOf(LastN(d[..|d| - 1], b.size)))
    ensures d[|d| - 1].id !in Run(b, d).ids
  {
    var init, last := d[..|d| - 1], d[|d| - 1];
    DistinctIsOwnFirstOccurrences(d);
    DistinctIsOwnFirstOccurrences(init);
    WithinCapacity(b, init);
    LastNAppend(init, last, b.size);
    assert d == init + [last];
    assert last.id !in IdsOf(init);
  }

  lemma DistinctEntries(ids: set<string>, n: nat) returns (d: seq<Entry>)
    requires n <= |ids|
    ensures DistinctIds(d) && |d| == n && IdsOf(d) <= ids
  {
    d := Listing(ids)[..n];
    assert forall e :: e in d ==> e in Listing(ids);
  }

  lemma WindowEnd(s: seq<Entry>, x: Entry, n: nat)
    requires 1 <= n
    ensures |LastN(s + [x], n)| >= 1
    ensures LastN(s + [x], n)[|LastN(s + [x], n)| - 1] == x
    ensures |s| >= 1 && n >= 2 ==>
      |LastN(s + [x], n)| >= 2 && LastN(s + [x], n)[|LastN(s + [x], n)| - 2] == s[|s| - 1]
  {
  }

  /** One id too many: the newest message of the overflowing run is admitted twice. */
  lemma BeyondCapacity(b: Bounds, ids: set<string>) returns (es: seq<Entry>)
    requires b.size >= 2 && |ids| > b.size + b.slack
    ensures IdsOf(es) <= ids
    ensures Run(b, es).entries != LastN(FirstOccurrences(es), b.size)
  {
    var d := DistinctEntries(ids, b.size + b.slack + 1);
    var init, last := d[..|d| - 1], d[|d| - 1];
    OverflowRun(b, d);
    assert d == init + [last];
    IdsAppend(init, last);
    IdsAppend(d, last);
    es := d + [last];
    assert es[..|es| - 1] == d;
    LastNAppend(d, last, b.size);
    WindowEnd(d, last, b.size);
    WindowEnd(init, last, b.size);
    assert Run(b, es).entries == LastN(d + [last], b.size);
    assert FirstOccurrences(es) == d;
  }

  /** The cache meets its specification on every run over a set of ids exactly when the set fits size+slack. */
  lemma DedupExact(b: Bounds, ids: set<string>)
    requires b.size >= 2
    ensures (forall es | IdsOf(es) <= ids :: Run(b, es).entries == LastN(FirstOccurrences(es), b.size))
      <==> |ids| <= b.size + b.slack
  {
    if |ids| <= b.size + b.slack {
      forall es | IdsOf(es) <= ids
        ensures Run(b, es).entries == LastN(FirstOccurrences(es), b.size)
      {
        SubsetSize(IdsOf(es), ids);
        WithinCapacity(b, es);
      }
    } else {
      var es := BeyondCapacity(b, ids);
    }
  }

  /** As deployed: the last 20,000 messages of the first-occurrence log, on all runs over at most 22,000 ids. */
  lemma DeployedExact(ids: set<string>)
    ensures (forall es | IdsOf(es) <= ids :: Run(FEED_BOUNDS, es).entries == LastN(FirstOccurrences(es), 20000))
      <==> |ids| <= 22000
  {
    DedupExact(FEED_BOUNDS, ids);
  }

  /** The second put of a message is a no-op exactly when the first did not rebuild the id set around a new id. */
  lemma SecondPutExact(b: Bounds, c: Cache, e: Entry)
    requires b.size >= 1
    ensures Insert(b, Insert(b, c, e), e) == Insert(b, c, e)
      <==> !Overflows(b, c, e) || e.id in IdsOf(c.entries)
  {
    var once := Insert(b, c, e);
    if e.id !in once.ids {
      assert e in once.entries by { assert once.entries[|once.entries| - 1] == e; }
      assert e.id in Insert(b, once, e).ids;
    }
  }

  // -------------------------------------------------------------------------
  // The order the comments intend: keep the new id across the rebuild
  // -------------------------------------------------------------------------

  function InsertKeeping(b: Bounds, c: Cache, e: Entry): Cache {
    if e.id in c.ids then c
    else
      Cache(
        LastN(c.entries + [e], b.size),
        (if Overflows(b, c, e) then IdsOf(c.entries) else c.ids) + {e.id})
  }

  function RunKeeping(b: Bounds, es: seq<Entry>): Cache {
    if es == [] then EMPTY else InsertKeeping(b, RunKeeping(b, es[..|es| - 1]), es[|es| - 1])
  }

  /** With the new id kept no id is ever repeated, and putting anything in the deque again changes nothing. */
  lemma {:induction false} KeepingNeverRepeats(b: Bounds, es: seq<Entry>)
    ensures DistinctIds(RunKeeping(b, es).entries)
    ensures forall e: Entry :: e.id in IdsOf(RunKeeping(b, es).entries) ==>
      InsertKeeping(b, RunKeeping(b, es), e) == RunKeeping(b, es)
  {
    KeepingKnows(b, es);
  }

  lemma {:induction false} KeepingKnows(b: Bounds, es: seq<Entry>)
    ensures DistinctIds(RunKeeping(b, es).entries)
    ensures IdsOf(RunKeeping(b, es).entries) <= RunKeeping(b, es).ids
  {
    if es == [] {
    } else {
      var c, e := RunKeeping(b, es[..|es| - 1]), es[|es| - 1];
      KeepingKnows(b, es[..|es| - 1]);
      KeepingStep(b, c, e);
    }
  }

  lemma KeepingStep(b: Bounds, c: Cache, e: Entry)
    requires DistinctIds(c.entries) && IdsOf(c.entries) <= c.ids
    ensures DistinctIds(InsertKeeping(b, c, e).entries)
    ensures IdsOf(InsertKeeping(b, c, e).entries) <= InsertKeeping(b, c, e).ids
  {
  }

  /** Even so an evicted id is forgotten: the first-occurrence log is met exactly up to size+slack ids. */
  lemma KeepingExact(b: Bounds, ids: set<string>)
    requires b.size >= 1 && b.slack >= 1
    ensures (forall es | IdsOf(es) <= ids :: RunKeeping(b, es).entries == LastN(FirstOccurrences(es), b.size))
      <==> |ids| <= b.size + b.slack
  {
    if |ids| <= b.size + b.slack {
      forall es | IdsOf(es) <= ids
        ensures RunKeeping(b, es).entries == LastN(FirstOccurrences(es), b.size)
      {
        SubsetSize(IdsOf(es), ids);
        WithinCapacity(b, es);
        KeepingAgrees(b, es);
      }
    } else {
      var es := KeepingForgets(b, ids);
    }
  }

  lemma KeepingForgets(b: Bounds, ids: set<string>) returns (es: seq<Entry>)
    requires b.size >= 1 && b.slack >= 1 && |ids| > b.size + b.slack
    ensures IdsOf(es) <= ids
    ensures RunKeeping(b, es).entries != LastN(FirstOccurrences(es), b.size)
  {
    var d := DistinctEntries(ids, b.size + b.slack + 1);
    var init, last, first := d[..|d| - 1], d[|d| - 1], d[0];
    assert d == init + [last];
    OverflowRun(b, d);
    KeepingAfterOverflow(b, d);
    IdsAppend(d, first);
    es := d + [first];
    assert es[..|es| - 1] == d;
    ForgottenPut(b, init, last, first);
  }

  lemma ForgottenPut(b: Bounds, init: seq<Entry>, last: Entry, first: Entry)
    requires b.size >= 1
    requires first in init + [last] && first != last
    requires FirstOccurrences(init + [last]) == init + [last]
    requires RunKeeping(b, init + [last]).entries == LastN(init + [last], b.size)
    requires first.id !in RunKeeping(b, init + [last]).ids
    ensures RunKeeping(b, init + [last] + [first]).entries
      != LastN(FirstOccurrences(init + [last] + [first]), b.size)
  {
  }

  lemma KeepingAfterOverflow(b: Bounds, d: seq<Entry>)
    requires DistinctIds(d) && |d| == b.size + b.slack + 1 && b.slack >= 1
    ensures RunKeeping(b, d).entries == LastN(d, b.size)
    ensures d[0].id !in RunKeeping(b, d).ids
  {
    var init, last := d[..|d| - 1], d[|d| - 1];
    assert DistinctIds(init) && d[0] == init[0] && d[0].id != last.id;
    NotInTail(init, b.size);
    KeepingBeforeOverflow(b, d);
    assert RunKeeping(b, d) == InsertKeeping(b, RunKeeping(b, init), last);
    LastNAppend(init, last, b.size);
    assert d == init + [last];
  }

  lemma KeepingBeforeOverflow(b: Bounds, d: seq<Entry>)
    requires DistinctIds(d) && |d| == b.size + b.slack + 1
    ensures RunKeeping(b, d[..|d| - 1]).entries == LastN(d[..|d| - 1], b.size)
    ensures Overflows(b, RunKeeping(b, d[..|d| - 1]), d[|d| - 1])
  {
    var init := d[..|d| - 1];
    DistinctIsOwnFirstOccurrences(init);
    KeepingAgrees(b, init);
    WithinCapacity(b, init);
    assert d[|d| - 1].id !in IdsOf(init);
  }

  lemma NotInTail(s: seq<Entry>, n: nat)
    requires DistinctIds(s) && n < |s|
    ensures s[0].id !in IdsOf(LastN(s, n))
  {
  }

  lemma {:induction false} KeepingAgrees(b: Bounds, es: seq<Entry>)
    requires |IdsOf(es)| <= b.size + b.slack
    ensures RunKeeping(b, es) == Run(b, es)
  {
    if es == [] {
    } else {
      var init := es[..|es| - 1];
      assert es == init + [es[|es| - 1]];
      IdsAppend(init, es[|es| - 1]);
      SubsetSize(IdsOf(init), IdsOf(es));
      KeepingAgrees(b, init);
      WithinCapacity(b, init);
    }
  }
}
