/** In which order the publications of one node stand in the feeds of all nodes. */
module FeedOrder {
  import opened Sequences
  import opened FeedCache
  import opened GossipLink
  import opened Cluster
  import GossipStorm

  ghost predicate IsAt(pub: seq<Publication>, x: nat, e: Entry) {
    x < |pub| && pub[x].id == e.id
  }

  /** The entries of `pub` that es holds, once each and in the order they were published. */
  ghost predicate InLogOrder(pub: seq<Publication>, es: seq<Entry>) {
    forall a, c, x: nat, y: nat :: 0 <= a < c < |es| && IsAt(pub, x, es[a]) && IsAt(pub, y, es[c]) ==> x < y
  }

  /** None of them was published at position lim or later. */
  ghost predicate Before(pub: seq<Publication>, es: seq<Entry>, lim: nat) {
    forall a, x: nat :: 0 <= a < |es| && IsAt(pub, x, es[a]) ==> x < lim
  }

  ghost predicate SameId(s: State, i: nat, x: nat, j: nat, y: nat) {
    && i < |s.nodes| && j < |s.nodes| && x < |s.nodes[i].published| && y < |s.nodes[j].published|
    && s.nodes[i].published[x].id == s.nodes[j].published[y].id
  }

  /** No id that node i published is published again, by any node. */
  ghost predicate PublishedOnce(s: State, i: nat) {
    forall x, j, y :: SameId(s, i, x, j, y) ==> i == j && x == y
  }

  /** There is at most one queue from i to j. */
  ghost predicate OneLink(s: State, i: nat, j: nat) {
    forall l, m ::
      (0 <= l < |s.links| && 0 <= m < |s.links|
       && s.links[l].src == s.links[m].src == i && s.links[l].dst == s.links[m].dst == j
       ==> l == m)
  }

  // -------------------------------------------------------------------------
  // One cache
  // -------------------------------------------------------------------------

  lemma WindowOrder(pub: seq<Publication>, es: seq<Entry>, n: nat, lim: nat)
    requires InLogOrder(pub, es) && Before(pub, es, lim)
    ensures InLogOrder(pub, LastN(es, n)) && Before(pub, LastN(es, n), lim)
  {
    var from := if |es| <= n then 0 else |es| - n;
    var window := LastN(es, n);
    forall a, c, x: nat, y: nat | 0 <= a < c < |window| && IsAt(pub, x, window[a]) && IsAt(pub, y, window[c])
      ensures x < y
    {
      assert window[a] == es[from + a] && window[c] == es[from + c];
    }
    forall a, x: nat | 0 <= a < |window| && IsAt(pub, x, window[a])
      ensures x < lim
    {
      assert window[a] == es[from + a];
    }
  }

  ghost predicate AllDistinct(pub: seq<Publication>) {
    forall x: nat, z: nat :: x < z < |pub| ==> pub[x].id != pub[z].id
  }

  /** A later publication of the same node. */
  lemma InsertLater(b: Bounds, c: Cache, e: Entry, pub: seq<Publication>, lim: nat, y: nat)
    requires InLogOrder(pub, c.entries) && Before(pub, c.entries, lim) && lim <= y && IsAt(pub, y, e)
    requires AllDistinct(pub)
    ensures InLogOrder(pub, Insert(b, c, e).entries) && Before(pub, Insert(b, c, e).entries, y + 1)
  {
    forall x: nat | IsAt(pub, x, e)
      ensures x == y
    {
    }
    assert InLogOrder(pub, c.entries + [e]) && Before(pub, c.entries + [e], y + 1);
    WindowOrder(pub, c.entries + [e], b.size, y + 1);
  }

  /** A publication of another node. */
  lemma InsertOther(b: Bounds, c: Cache, e: Entry, pub: seq<Publication>)
    requires InLogOrder(pub, c.entries) && forall x: nat :: !IsAt(pub, x, e)
    ensures InLogOrder(pub, Insert(b, c, e).entries)
  {
    assert InLogOrder(pub, c.entries + [e]);
    assert Before(pub, c.entries + [e], |pub|);
    WindowOrder(pub, c.entries + [e], b.size, |pub|);
  }

  lemma {:induction false} ReceiveOther(
      b: Bounds, c: Cache, me: string, items: seq<Packet>, nows: seq<int>, pub: seq<Publication>)
    requires |items| <= |nows| && InLogOrder(pub, c.entries)
    requires forall k: nat, x: nat :: k < |items| && x < |pub| ==> items[k].body.id != pub[x].id
    ensures InLogOrder(pub, Receive(b, c, me, items, nows).entries)
  {
    if items == [] {
    } else {
      var n := |items| - 1;
      ReceiveOther(b, c, me, items[..n], nows, pub);
      InsertOther(b, Receive(b, c, me, items[..n], nows),
                  Compact(items[n].body.room, CanonicalForm(items[n].body), nows[n]), pub);
    }
  }

  /** at[k] is where the body of the k-th packet stands in the log. */
  ghost predicate TakenAt(pub: seq<Publication>, items: seq<Packet>, at: seq<nat>) {
    && |at| == |items|
    && (forall k :: 0 <= k < |at| ==> at[k] < |pub| && items[k].body == pub[at[k]])
    && (forall k, m :: 0 <= k < m < |at| ==> at[k] < at[m])
  }

  /** The first log position behind those of a batch. */
  function Behind(at: seq<nat>, lim: nat): nat {
    if at == [] then lim else at[|at| - 1] + 1
  }

  lemma TakenInit(pub: seq<Publication>, items: seq<Packet>, at: seq<nat>, n: nat, lim: nat)
    requires TakenAt(pub, items, at) && |items| == n + 1 && lim <= at[0]
    ensures TakenAt(pub, items[..n], at[..n]) && Behind(at[..n], lim) <= at[n]
    ensures at[n] < |pub| && items[n].body == pub[at[n]] && (n > 0 ==> lim <= at[..n][0])
  {
  }

  lemma {:induction false} ReceiveLater(
      b: Bounds, c: Cache, me: string, items: seq<Packet>, nows: seq<int>, pub: seq<Publication>, at: seq<nat>,
      lim: nat)
    requires |items| <= |nows| && InLogOrder(pub, c.entries) && Before(pub, c.entries, lim)
    requires TakenAt(pub, items, at) && (at != [] ==> lim <= at[0]) && AllDistinct(pub)
    ensures InLogOrder(pub, Receive(b, c, me, items, nows).entries)
    ensures Before(pub, Receive(b, c, me, items, nows).entries, Behind(at, lim))
  {
    if items == [] {
    } else {
      var n := |items| - 1;
      TakenInit(pub, items, at, n, lim);
      ReceiveLater(b, c, me, items[..n], nows, pub, at[..n], lim);
      var c' := Receive(b, c, me, items[..n], nows);
      if items[n].origin != me {
        var e := Compact(items[n].body.room, CanonicalForm(items[n].body), nows[n]);
        if e.id != "" {
          InsertLater(b, c', e, pub, Behind(at[..n], lim), at[n]);
        }
      }
    }
  }

  // -------------------------------------------------------------------------
  // One step of the cluster
  // -------------------------------------------------------------------------

  /** Whatever was rebuilt or evicted, a cache holds known ids only. */
  lemma EntriesAreKnown(b: Bounds, s: State, j: nat, e: Entry)
    requires CachesInv(b, s) && j < |s.nodes| && e in s.nodes[j].cache.entries
    ensures e.id in KnownIds(s, j)
  {
    assert NodeIsRun(b, s, j);
    var es :| RunsTo(b, es, s.nodes[j].cache, KnownIds(s, j));
    DedupAsWritten(b, es);
    EveryIdAdmitted(b, es);
  }

  ghost predicate LogsExtend(s: State, s': State) {
    && |s.nodes| == |s'.nodes|
    && forall i :: 0 <= i < |s.nodes| ==> s.nodes[i].published <= s'.nodes[i].published
  }

  lemma OnceBefore(s: State, s': State, i: nat)
    requires LogsExtend(s, s') && PublishedOnce(s', i)
    ensures PublishedOnce(s, i)
  {
    forall x: nat, j: nat, y: nat | SameId(s, i, x, j, y)
      ensures i == j && x == y
    {
      assert SameId(s', i, x, j, y);
    }
  }

  lemma OnceDistinct(s: State, i: nat)
    requires i < |s.nodes| && PublishedOnce(s, i)
    ensures AllDistinct(s.nodes[i].published)
  {
    forall x: nat, z: nat | x < z < |s.nodes[i].published|
      ensures s.nodes[i].published[x].id != s.nodes[i].published[z].id
    {
      assert !SameId(s, i, x, i, z);
    }
  }

  /** What another node published has none of i's ids. */
  lemma OnceElsewhere(s: State, i: nat, j: nat, p: Publication)
    requires i < |s.nodes| && j < |s.nodes| && i != j && PublishedOnce(s, i) && p in s.nodes[j].published
    ensures forall x: nat :: x < |s.nodes[i].published| ==> s.nodes[i].published[x].id != p.id
  {
    var y :| 0 <= y < |s.nodes[j].published| && s.nodes[j].published[y] == p;
    forall x: nat | x < |s.nodes[i].published|
      ensures s.nodes[i].published[x].id != p.id
    {
      assert !SameId(s, i, x, j, y);
    }
  }

  ghost predicate Ordered(s: State, i: nat, j: nat)
    requires i < |s.nodes| && j < |s.nodes|
  {
    InLogOrder(s.nodes[i].published, s.nodes[j].cache.entries)
  }

  /** An id that is published now has not been known to anyone before. */
  lemma NewIdUnknown(b: Bounds, s: State, ev: Cluster.Event, j: nat)
    requires Inv(b, s) && Enabled(s, ev) && ev.Publish? && PublishedOnce(Next(b, s, ev), ev.i) && j < |s.nodes|
    ensures ev.p.id !in KnownIds(s, j)
  {
    var s' := Next(b, s, ev);
    var last := |s.nodes[ev.i].published|;
    KnownWithin(s, j);
    PublishedIdsExact(s.nodes, ev.p.id);
    if n :| 0 <= n < |s.nodes| && ev.p.id in IdsIn(s.nodes[n].published) {
      IdsInExact(s.nodes[n].published, ev.p.id);
      var y :| 0 <= y < |s.nodes[n].published| && s.nodes[n].published[y].id == ev.p.id;
      assert SameId(s', ev.i, last, n, y);
    }
  }

  lemma PublishOrder(b: Bounds, s: State, ev: Cluster.Event, i: nat, j: nat)
    requires Inv(b, s) && Enabled(s, ev) && ev.Publish? && i < |s.nodes| && j < |s.nodes|
    requires PublishedOnce(Next(b, s, ev), i) && Ordered(s, i, j)
    ensures Ordered(Next(b, s, ev), i, j)
  {
    var s' := Next(b, s, ev);
    var pub, pub' := s.nodes[i].published, s'.nodes[i].published;
    var c := s.nodes[j].cache;
    if ev.i == i {
      NewIdUnknown(b, s, ev, j);
      forall a, x: nat | 0 <= a < |c.entries| && IsAt(pub', x, c.entries[a])
        ensures IsAt(pub, x, c.entries[a])
      {
        EntriesAreKnown(b, s, j, c.entries[a]);
      }
      assert InLogOrder(pub', c.entries) && Before(pub', c.entries, |pub|);
      if i == j {
        OnceDistinct(s', i);
        InsertLater(b, c, Compact(ev.p.room, LocalForm(ev.p), ev.now), pub', |pub|, |pub|);
      }
    } else if ev.i == j {
      OnceElsewhere(s', i, j, s'.nodes[j].published[|s.nodes[j].published|]);
      InsertOther(b, c, Compact(ev.p.room, LocalForm(ev.p), ev.now), pub);
    }
  }

  /** Another node's log is untouched by the persistence of an own publication; an own one must not be put again. */
  lemma PersistOrder(b: Bounds, s: State, ev: Cluster.Event, i: nat, j: nat)
    requires Inv(b, s) && Enabled(s, ev) && ev.Persist? && i < |s.nodes| && j < |s.nodes|
    requires PublishedOnce(s, i) && Ordered(s, i, j)
    requires i == j ==> |KnownIds(s, j)| <= b.size + b.slack
    ensures Ordered(Next(b, s, ev), i, j)
  {
    if ev.i == j {
      var p, c := s.nodes[j].pending[ev.k], s.nodes[j].cache;
      if i == j {
        assert NodeIsRun(b, s, j);
        RunWithinCapacity(b, c, KnownIds(s, j));
        IdsInExact(s.nodes[j].published, p.id);
      } else {
        OnceElsewhere(s, i, j, p);
        InsertOther(b, c, Compact(p.room, CanonicalForm(p), ev.now), s.nodes[i].published);
      }
    }
  }

  /** Where the packets of a link stand in its source's log, applied ones first. */
  lemma LinkPositions(s: State, l: nat) returns (at: seq<nat>)
    requires LinksInv(s) && l < |s.links|
    ensures s.links[l].src < |s.nodes|
    ensures TakenAt(s.nodes[s.links[l].src].published, s.links[l].applied + s.links[l].inflight, at)
  {
    var lk := s.links[l];
    assert LinkOk(s, l);
    var pub := s.nodes[lk.src].published;
    var all: seq<nat> :| Embeds(all, lk.applied + lk.inflight + lk.queue, lk.sent);
    at := all[..|lk.applied + lk.inflight|];
    forall k | 0 <= k < |at|
      ensures at[k] < |pub| && (lk.applied + lk.inflight)[k].body == pub[at[k]]
    {
      assert (lk.applied + lk.inflight + lk.queue)[k] == (lk.applied + lk.inflight)[k];
      assert lk.sent[at[k]] == PacketsOf(s.nodes[lk.src])[at[k]];
    }
  }

  /** What j knows of i's publications, it has applied from the one link between them. */
  lemma KnownFromLink(s: State, l: nat, j: nat, x: nat)
    requires LinksInv(s) && l < |s.links| && s.links[l].src < |s.nodes| && s.links[l].dst == j < |s.nodes|
    requires s.links[l].src != j && OneLink(s, s.links[l].src, j) && PublishedOnce(s, s.links[l].src)
    requires x < |s.nodes[s.links[l].src].published|
    requires s.nodes[s.links[l].src].published[x].id in KnownIds(s, j)
    ensures exists pk :: pk in s.links[l].applied && pk.body.id == s.nodes[s.links[l].src].published[x].id
  {
    var i := s.links[l].src;
    var id := s.nodes[i].published[x].id;
    IdsInExact(s.nodes[j].published, id);
    if p :| p in s.nodes[j].published && p.id == id {
      OnceElsewhere(s, i, j, p);
    }
    AppliedIdsExact(s.links, j, s.nodes[j].server, id);
    var m :| 0 <= m < |s.links| && s.links[m].dst == j && id in BodyIds(s.links[m].applied, s.nodes[j].server);
    BodyIdsExact(s.links[m].applied, s.nodes[j].server, id);
    var pk :| pk in s.links[m].applied && pk.origin != s.nodes[j].server && pk.body.id == id;
    InflightPublished(s, m, pk);
    if s.links[m].src != i {
      OnceElsewhere(s, i, s.links[m].src, pk.body);
    }
    assert m == l;
  }

  /** A batch from i holds publications later than all of i's that j has. */
  lemma BatchIsLater(b: Bounds, s: State, l: nat, j: nat) returns (at: seq<nat>, lim: nat)
    requires Inv(b, s) && l < |s.links| && s.links[l].src < |s.nodes| && s.links[l].dst == j < |s.nodes|
    requires s.links[l].src != j && OneLink(s, s.links[l].src, j) && PublishedOnce(s, s.links[l].src)
    requires s.links[l].inflight != []
    ensures TakenAt(s.nodes[s.links[l].src].published, s.links[l].inflight, at) && lim == at[0]
    ensures Before(s.nodes[s.links[l].src].published, s.nodes[j].cache.entries, lim)
  {
    var lk := s.links[l];
    var pub, es := s.nodes[lk.src].published, s.nodes[j].cache.entries;
    var all := LinkPositions(s, l);
    var n := |lk.applied|;
    at := all[n..];
    forall k | 0 <= k < |at|
      ensures at[k] < |pub| && lk.inflight[k].body == pub[at[k]]
    {
      assert (lk.applied + lk.inflight)[n + k] == lk.inflight[k];
    }
    lim := at[0];
    forall a, x: nat | 0 <= a < |es| && IsAt(pub, x, es[a])
      ensures x < lim
    {
      EntriesAreKnown(b, s, j, es[a]);
      KnownFromLink(s, l, j, x);
      var pk :| pk in lk.applied && pk.body.id == pub[x].id;
      var q :| 0 <= q < n && lk.applied[q] == pk;
      assert (lk.applied + lk.inflight)[q] == lk.applied[q];
      assert SameId(s, lk.src, x, lk.src, all[q]);
    }
  }

  lemma DeliverOrder(b: Bounds, s: State, ev: Cluster.Event, i: nat, j: nat)
    requires Inv(b, s) && Enabled(s, ev) && ev.Deliver? && i < |s.nodes| && j < |s.nodes|
    requires PublishedOnce(s, i) && Ordered(s, i, j) && (i != j ==> OneLink(s, i, j))
    ensures Ordered(Next(b, s, ev), i, j)
  {
    var lk := s.links[ev.l];
    var pub, nd := s.nodes[i].published, s.nodes[j];
    if lk.dst == j {
      assert LinkOk(s, ev.l);
      forall k | 0 <= k < |lk.inflight|
        ensures lk.inflight[k].origin == s.nodes[lk.src].server
        ensures lk.inflight[k].body in s.nodes[lk.src].published
      {
        InflightPublished(s, ev.l, lk.inflight[k]);
      }
      if lk.src == j {
        GossipStorm.OwnPacketsIgnored(b, nd.cache, nd.server, lk.inflight, ev.nows);
      } else if lk.src == i {
        OnceDistinct(s, i);
        var at, lim := BatchIsLater(b, s, ev.l, j);
        ReceiveLater(b, nd.cache, nd.server, lk.inflight, ev.nows, pub, at, lim);
      } else {
        forall k: nat, x: nat | k < |lk.inflight| && x < |pub|
          ensures lk.inflight[k].body.id != pub[x].id
        {
          OnceElsewhere(s, i, lk.src, lk.inflight[k].body);
        }
        ReceiveOther(b, nd.cache, nd.server, lk.inflight, ev.nows, pub);
      }
    }
  }

  // -------------------------------------------------------------------------
  // Every run
  // -------------------------------------------------------------------------

  lemma KnownGrows(b: Bounds, s: State, ev: Cluster.Event, j: nat)
    requires Enabled(s, ev) && j < |s.nodes|
    ensures KnownIds(s, j) <= KnownIds(Next(b, s, ev), j) && LogsExtend(s, Next(b, s, ev))
  {
    match ev {
      case Publish(i, p, now) => PublishIds(b, s, ev);
      case Deliver(l, nows) => DeliverIds(b, s, ev);
      case _ => QuietIds(b, s, ev);
    }
  }

  /**
   * The publications of node i stand in the feed of node j in the order they were published, once each, whatever is
   * lost, dropped or evicted in between; in i's own feed as long as it knows at most size+slack ids.
   */
  lemma {:induction false} FeedKeepsOrder(b: Bounds, s0: State, evs: seq<Cluster.Event>, i: nat, j: nat)
    requires Initial(s0) && i < |s0.nodes| && j < |s0.nodes| && (i != j ==> OneLink(s0, i, j))
    requires |Play(b, s0, evs).nodes| == |s0.nodes| && PublishedOnce(Play(b, s0, evs), i)
    requires i == j ==> |KnownIds(Play(b, s0, evs), j)| <= b.size + b.slack
    ensures Ordered(Play(b, s0, evs), i, j)
  {
    if evs == [] {
    } else {
      var init, ev := evs[..|evs| - 1], evs[|evs| - 1];
      var s := Play(b, s0, init);
      NodesFixed(b, s0, init);
      PlayInv(b, s0, init);
      if Enabled(s, ev) {
        KnownGrows(b, s, ev, j);
        SubsetSize(KnownIds(s, j), KnownIds(Next(b, s, ev), j));
        OnceBefore(s, Next(b, s, ev), i);
        FeedKeepsOrder(b, s0, init, i, j);
        StepKeepsOrder(b, s, ev, i, j);
      } else {
        FeedKeepsOrder(b, s0, init, i, j);
      }
    }
  }

  lemma StepKeepsOrder(b: Bounds, s: State, ev: Cluster.Event, i: nat, j: nat)
    requires Inv(b, s) && Enabled(s, ev) && i < |s.nodes| && j < |s.nodes|
    requires PublishedOnce(s, i) && PublishedOnce(Next(b, s, ev), i) && Ordered(s, i, j)
    requires i != j ==> OneLink(s, i, j)
    requires i == j ==> |KnownIds(s, j)| <= b.size + b.slack
    ensures Ordered(Next(b, s, ev), i, j)
  {
    match ev {
      case Publish(n, p, now) => PublishOrder(b, s, ev, i, j);
      case Persist(n, k, now) => PersistOrder(b, s, ev, i, j);
      case Deliver(l, nows) => DeliverOrder(b, s, ev, i, j);
      case _ =>
    }
  }

  // -------------------------------------------------------------------------
  // A node's own feed beyond its capacity
  // -------------------------------------------------------------------------

  function Publishes(j: nat, ps: seq<Publication>): seq<Cluster.Event> {
    seq(|ps|, k requires 0 <= k < |ps| => Cluster.Event.Publish(j, ps[k], 1))
  }

  function Stored(ps: seq<Publication>): seq<Entry> {
    seq(|ps|, k requires 0 <= k < |ps| => Compact(ps[k].room, LocalForm(ps[k]), 1))
  }

  /** Node j has published ps, and nothing else has happened. */
  ghost predicate OnlyPublished(b: Bounds, s: State, j: nat, ps: seq<Publication>) {
    && j < |s.nodes| && s.nodes[j] == Node(s.nodes[j].server, Run(b, Stored(ps)), ps, ps)
    && (forall i :: 0 <= i < |s.nodes| && i != j ==> s.nodes[i].published == [])
    && (forall l :: 0 <= l < |s.links| ==> s.links[l].applied == [])
  }

  lemma PublishNext(b: Bounds, s: State, j: nat, ps: seq<Publication>, p: Publication)
    requires OnlyPublished(b, s, j, ps) && Publishable(p)
    ensures OnlyPublished(b, Next(b, s, Cluster.Event.Publish(j, p, 1)), j, ps + [p])
  {
    var es := Stored(ps) + [Compact(p.room, LocalForm(p), 1)];
    assert Stored(ps + [p]) == es;
    assert es[..|es| - 1] == Stored(ps);
  }

  lemma {:induction false} PlayPublishes(b: Bounds, s0: State, j: nat, ps: seq<Publication>)
    requires Initial(s0) && j < |s0.nodes| && forall p :: p in ps ==> Publishable(p)
    ensures OnlyPublished(b, Play(b, s0, Publishes(j, ps)), j, ps)
  {
    if ps == [] {
    } else {
      var n := |ps| - 1;
      PlayPublishes(b, s0, j, ps[..n]);
      PublishNext(b, Play(b, s0, Publishes(j, ps[..n])), j, ps[..n], ps[n]);
      assert Publishes(j, ps)[..n] == Publishes(j, ps[..n]);
      assert ps == ps[..n] + [ps[n]];
    }
  }

  lemma TwiceBreaksOrder(pub: seq<Publication>, es: seq<Entry>, x: nat)
    requires |es| >= 2 && IsAt(pub, x, es[|es| - 2]) && IsAt(pub, x, es[|es| - 1])
    ensures !InLogOrder(pub, es)
  {
  }

  /** With j's ids published once each and none known but `ids`, its own publications are in order in its feed. */
  ghost predicate OwnFeedInOrder(b: Bounds, s0: State, evs: seq<Cluster.Event>, j: nat, ids: set<string>) {
    var s := Play(b, s0, evs);
    j < |s.nodes| && PublishedOnce(s, j) && KnownIds(s, j) <= ids ==> Ordered(s, j, j)
  }

  /** The last of size+slack+1 distinct entries is not recognized when it is put again. */
  lemma PutTwice(b: Bounds, d: seq<Entry>, e: Entry)
    requires DistinctIds(d) && |d| == b.size + b.slack + 1 && b.size >= 2 && e.id == d[|d| - 1].id
    ensures var es := Insert(b, Run(b, d), e).entries;
      |es| >= 2 && es[|es| - 2].id == es[|es| - 1].id == e.id
  {
    OverflowRun(b, d);
    LastNAppend(d, e, b.size);
    WindowEnd(d, e, b.size);
  }

  lemma LastPersisted(b: Bounds, nd: Node, ps: seq<Publication>, d: seq<Entry>)
    requires DistinctIds(d) && |d| == |ps| == b.size + b.slack + 1 && b.size >= 2
    requires d[|d| - 1].id == ps[|ps| - 1].id != "" && nd.cache == Run(b, d) && nd.pending == ps
    ensures !InLogOrder(ps, PersistAt(b, nd, |ps| - 1, 1).cache.entries)
  {
    var n := |ps| - 1;
    var e := Compact(ps[n].room, CanonicalForm(ps[n]), 1);
    var es := Insert(b, Run(b, d), e).entries;
    PutTwice(b, d, e);
    assert IsAt(ps, n, es[|es| - 2]) && IsAt(ps, n, es[|es| - 1]);
    TwiceBreaksOrder(ps, es, n);
    assert PersistAt(b, nd, n, 1).cache.entries == es;
  }

  lemma OnlyPublishedIds(b: Bounds, s: State, j: nat, ps: seq<Publication>, ids: set<string>)
    requires OnlyPublished(b, s, j, ps) && DistinctIds(Stored(ps)) && forall p :: p in ps ==> p.id in ids
    ensures PublishedOnce(s, j) && KnownIds(s, j) <= ids
  {
    forall x: nat, i: nat, y: nat | SameId(s, j, x, i, y)
      ensures i == j && x == y
    {
      assert Stored(ps)[x].id == Stored(ps)[y].id;
    }
    NothingApplied(s.links, j, s.nodes[j].server);
    forall id | id in IdsIn(ps)
      ensures id in ids
    {
      IdsInExact(ps, id);
    }
  }

  lemma DistinctPublications(ids: set<string>, n: nat) returns (ps: seq<Publication>)
    requires n <= |ids| && "" !in ids
    ensures |ps| == n && DistinctIds(Stored(ps)) && forall p :: p in ps ==> Publishable(p) && p.id in ids
  {
    var d := DistinctEntries(ids, n);
    ps := seq(|d|, k requires 0 <= k < |d| => Publication(d[k].id, "u", "t", "r", 1));
    forall k | 0 <= k < |ps|
      ensures ps[k].id in ids && Stored(ps)[k].id == d[k].id
    {
      assert d[k] in d;
    }
  }

  lemma PersistBreaks(b: Bounds, s: State, j: nat, ps: seq<Publication>, ids: set<string>)
    requires OnlyPublished(b, s, j, ps) && DistinctIds(Stored(ps)) && |ps| == b.size + b.slack + 1 && b.size >= 2
    requires forall p :: p in ps ==> Publishable(p) && p.id in ids
    ensures Enabled(s, Persist(j, |ps| - 1, 1))
    ensures var s' := Next(b, s, Persist(j, |ps| - 1, 1));
      PublishedOnce(s', j) && KnownIds(s', j) <= ids && !Ordered(s', j, j)
  {
    var ev := Persist(j, |ps| - 1, 1);
    assert ps[|ps| - 1] in ps;
    LastPersisted(b, s.nodes[j], ps, Stored(ps));
    OnlyPublishedIds(b, s, j, ps, ids);
    QuietIds(b, s, ev);
    SameLogsOnce(s, Next(b, s, ev), j);
  }

  /** One id too many, and the last publication stands in the feed twice once it is persisted. */
  lemma OwnFeedBreaks(b: Bounds, s0: State, j: nat, ids: set<string>) returns (evs: seq<Cluster.Event>)
    requires Initial(s0) && j < |s0.nodes| && b.size >= 2 && "" !in ids && |ids| > b.size + b.slack
    ensures !OwnFeedInOrder(b, s0, evs, j, ids)
  {
    var ps := DistinctPublications(ids, b.size + b.slack + 1);
    PlayPublishes(b, s0, j, ps);
    PersistBreaks(b, Play(b, s0, Publishes(j, ps)), j, ps, ids);
    evs := Publishes(j, ps) + [Persist(j, |ps| - 1, 1)];
    assert evs[..|evs| - 1] == Publishes(j, ps);
  }

  lemma SameLogsOnce(s: State, s': State, i: nat)
    requires PublishedOnce(s, i) && |s.nodes| == |s'.nodes|
    requires forall k :: 0 <= k < |s.nodes| ==> s'.nodes[k].published == s.nodes[k].published
    ensures PublishedOnce(s', i)
  {
    forall x: nat, j: nat, y: nat | SameId(s', i, x, j, y)
      ensures i == j && x == y
    {
      assert SameId(s, i, x, j, y);
    }
  }

  /** A node's own feed is in order on every run over a set of ids exactly when the set has at most size+slack ids. */
  lemma OwnOrderExact(b: Bounds, s0: State, j: nat, ids: set<string>)
    requires Initial(s0) && j < |s0.nodes| && b.size >= 2 && "" !in ids
    ensures (forall evs :: OwnFeedInOrder(b, s0, evs, j, ids)) <==> |ids| <= b.size + b.slack
  {
    if |ids| <= b.size + b.slack {
      forall evs
        ensures OwnFeedInOrder(b, s0, evs, j, ids)
      {
        var s := Play(b, s0, evs);
        NodesFixed(b, s0, evs);
        if PublishedOnce(s, j) && KnownIds(s, j) <= ids {
          SubsetSize(KnownIds(s, j), ids);
          FeedKeepsOrder(b, s0, evs, j, j);
        }
      }
    } else {
      var evs := OwnFeedBreaks(b, s0, j, ids);
    }
  }
}
