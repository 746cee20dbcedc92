/** The replicated feed: nodes that publish, gossip to peers and apply what they receive (app.py, server/store.py). */
module Cluster {
  import opened FeedCache
  import opened GossipLink

  // -------------------------------------------------------------------------
  // The three ways a publication reaches a cache
  // -------------------------------------------------------------------------

  /** The copy the handler caches before it answers. */
  function LocalForm(p: Publication): Message {
    Message(p.id, p.username, p.username, p.text, p.text, p.room, p.timestamp)
  }

  /** The copy the persistence task caches again later, and the one a receiver builds from a gossiped publication. */
  function CanonicalForm(p: Publication): Message {
    var sender := Or(p.username, "Anonymous");
    Message(p.id, sender, sender, p.text, p.text, p.room, p.timestamp)
  }

  predicate Publishable(p: Publication) {
    p.id != "" && p.room != ""
  }

  /** The entry every copy of a publication with a timestamp is stored as. */
  function EntryOf(p: Publication): Entry {
    Compact(p.room, LocalForm(p), 0)
  }

  /** e is p: each field from its start as far as it fits, and a timestamp of p's own unchanged. */
  predicate Stores(e: Entry, p: Publication) {
    && e.id == p.id
    && IsHead(e.username, if p.username == "" then "Anonymous" else p.username, 100)
    && IsHead(e.text, p.text, 2000)
    && (p.room != "" ==> IsHead(e.room, p.room, 24))
    && (p.timestamp != 0 ==> e.timestamp == p.timestamp)
  }

  /** Both copies of a publication are stored as the publication. */
  lemma CopiesStoreIt(p: Publication, now: int)
    ensures Stores(Compact(p.room, LocalForm(p), now), p)
    ensures Stores(Compact(p.room, CanonicalForm(p), now), p)
  {
    CompactFields(p.room, LocalForm(p), now);
    CompactFields(p.room, CanonicalForm(p), now);
  }

  ghost predicate CopiesAgree(p: Publication) {
    forall t1, t2 :: Compact(p.room, LocalForm(p), t1) == Compact(p.room, CanonicalForm(p), t2)
  }

  /** Every copy is stored as the local one, whenever it arrives, exactly when the publication carries a timestamp. */
  lemma CopiesAgreeExact(p: Publication)
    requires Publishable(p)
    ensures CopiesAgree(p) <==> p.timestamp != 0
  {
    assert Or(p.text, p.text) == p.text;
    if p.timestamp == 0 {
      assert Compact(p.room, LocalForm(p), 1).timestamp != Compact(p.room, CanonicalForm(p), 2).timestamp;
    }
  }

  // -------------------------------------------------------------------------
  // The cluster as a step system
  // -------------------------------------------------------------------------

  /** `published` is the node's log; `pending` holds publications whose persistence task has not run yet. */
  datatype Node = Node(server: string, cache: Cache, published: seq<Publication>, pending: seq<Publication>)

  datatype State = State(nodes: seq<Node>, links: seq<Link>)

  datatype Event =
    | Publish(i: nat, p: Publication, now: int)
    | Persist(i: nat, k: nat, now: int)
    | Batch(l: nat, n: nat)
    | Deliver(l: nat, nows: seq<int>)
    | Lose(l: nat)

  /** One received packet: the node's own is skipped, every other one is cached, and nothing is sent on. */
  function ReceiveOne(b: Bounds, c: Cache, me: string, x: Packet, now: int): Cache {
    if x.origin == me then c else FeedCache.Put(b, c, x.body.room, CanonicalForm(x.body), now)
  }

  function Receive(b: Bounds, c: Cache, me: string, items: seq<Packet>, nows: seq<int>): Cache
    requires |items| <= |nows|
  {
    if items == [] then c
    else
      var n := |items| - 1;
      ReceiveOne(b, Receive(b, c, me, items[..n], nows), me, items[n], nows[n])
  }

  predicate Enabled(s: State, ev: Event) {
    match ev
    case Publish(i, p, _) => i < |s.nodes| && Publishable(p)
    case Persist(i, k, _) => i < |s.nodes| && k < |s.nodes[i].pending|
    case Batch(l, n) => l < |s.links| && CanGather(s.links[l], n)
    case Deliver(l, nows) =>
      l < |s.links| && s.links[l].dst < |s.nodes| && s.links[l].inflight != []
      && |s.links[l].inflight| <= |nows|
    case Lose(l) => l < |s.links| && s.links[l].inflight != []
  }

  function OfferAll(links: seq<Link>, i: nat, x: Packet): seq<Link> {
    seq(|links|, k requires 0 <= k < |links| => if links[k].src == i then Offer(links[k], x) else links[k])
  }

  /** Cached at once, and left to the persistence task. */
  function PublishAt(b: Bounds, nd: Node, p: Publication, now: int): Node {
    Node(nd.server, FeedCache.Put(b, nd.cache, p.room, LocalForm(p), now), nd.published + [p], nd.pending + [p])
  }

  /** The persistence task caches its publication a second time. */
  function PersistAt(b: Bounds, nd: Node, k: nat, now: int): Node
    requires k < |nd.pending|
  {
    var p := nd.pending[k];
    nd.(cache := FeedCache.Put(b, nd.cache, p.room, CanonicalForm(p), now),
        pending := nd.pending[..k] + nd.pending[k + 1..])
  }

  function DeliverAt(b: Bounds, nd: Node, items: seq<Packet>, nows: seq<int>): Node
    requires |items| <= |nows|
  {
    nd.(cache := Receive(b, nd.cache, nd.server, items, nows))
  }

  function Next(b: Bounds, s: State, ev: Event): State
    requires Enabled(s, ev)
  {
    match ev
    case Publish(i, p, now) =>
      State(s.nodes[i := PublishAt(b, s.nodes[i], p, now)], OfferAll(s.links, i, Packet(s.nodes[i].server, p)))
    case Persist(i, k, now) =>
      s.(nodes := s.nodes[i := PersistAt(b, s.nodes[i], k, now)])
    case Batch(l, n) =>
      s.(links := s.links[l := Gather(s.links[l], n)])
    case Deliver(l, nows) =>
      var lk := s.links[l];
      State(s.nodes[lk.dst := DeliverAt(b, s.nodes[lk.dst], lk.inflight, nows)], s.links[l := Delivered(lk)])
    case Lose(l) =>
      s.(links := s.links[l := Failed(s.links[l])])
  }

  /** Any sequence of events from s0; an event that is not enabled does not happen. */
  function Play(b: Bounds, s0: State, evs: seq<Event>): State {
    if evs == [] then s0
    else
      var s := Play(b, s0, evs[..|evs| - 1]);
      if Enabled(s, evs[|evs| - 1]) then Next(b, s, evs[|evs| - 1]) else s
  }

  /** Start-up: empty caches, and the peer queues the configuration gives, whatever they are. */
  ghost predicate Initial(s: State) {
    && (forall i :: 0 <= i < |s.nodes| ==> s.nodes[i] == Node(s.nodes[i].server, EMPTY, [], []))
    && (forall l :: 0 <= l < |s.links| ==>
          && s.links[l].src < |s.nodes| && s.links[l].dst < |s.nodes|
          && s.links[l] == Idle(s.links[l].src, s.links[l].dst))
  }

  // -------------------------------------------------------------------------
  // Invariants of every run
  // -------------------------------------------------------------------------

  function PacketsOf(nd: Node): seq<Packet> {
    seq(|nd.published|, k requires 0 <= k < |nd.published| => Packet(nd.server, nd.published[k]))
  }

  ghost predicate LinkOk(s: State, l: nat)
    requires l < |s.links|
  {
    && s.links[l].src < |s.nodes| && s.links[l].dst < |s.nodes|
    && LinkInv(s.links[l])
    && s.links[l].sent == PacketsOf(s.nodes[s.links[l].src])
  }

  ghost predicate LinksInv(s: State) {
    forall l: nat :: l < |s.links| ==> LinkOk(s, l)
  }

  ghost predicate PendingInv(s: State) {
    forall i, p :: 0 <= i < |s.nodes| && p in s.nodes[i].pending ==> p in s.nodes[i].published
  }

  function IdsIn(ps: seq<Publication>): set<string> {
    if ps == [] then {} else IdsIn(ps[..|ps| - 1]) + {ps[|ps| - 1].id}
  }

  function PublishedIds(nodes: seq<Node>): set<string> {
    if nodes == [] then {} else PublishedIds(nodes[..|nodes| - 1]) + IdsIn(nodes[|nodes| - 1].published)
  }

  /** The ids published anywhere. */
  function AllIds(s: State): set<string> {
    PublishedIds(s.nodes)
  }

  /** The ids of the packets that are not me's own. */
  function BodyIds(items: seq<Packet>, me: string): set<string> {
    if items == [] then {}
    else
      var n := |items| - 1;
      BodyIds(items[..n], me) + if items[n].origin != me then {items[n].body.id} else {}
  }

  function AppliedIds(links: seq<Link>, j: nat, me: string): set<string> {
    if links == [] then {}
    else
      var n := |links| - 1;
      AppliedIds(links[..n], j, me) + if links[n].dst == j then BodyIds(links[n].applied, me) else {}
  }

  /** The ids node j has published itself, or applied from a link. */
  function KnownIds(s: State, j: nat): set<string>
    requires j < |s.nodes|
  {
    IdsIn(s.nodes[j].published) + AppliedIds(s.links, j, s.nodes[j].server)
  }

  lemma {:induction false} IdsInExact(ps: seq<Publication>, id: string)
    ensures id in IdsIn(ps) <==> exists p :: p in ps && p.id == id
  {
    if ps == [] {
    } else {
      var n := |ps| - 1;
      IdsInExact(ps[..n], id);
      assert forall p :: p in ps <==> p in ps[..n] || p == ps[n];
    }
  }

  lemma {:induction false} PublishedIdsExact(nodes: seq<Node>, id: string)
    ensures id in PublishedIds(nodes) <==> exists i :: 0 <= i < |nodes| && id in IdsIn(nodes[i].published)
  {
    if nodes == [] {
    } else {
      PublishedIdsExact(nodes[..|nodes| - 1], id);
    }
  }

  lemma {:induction false} BodyIdsExact(items: seq<Packet>, me: string, id: string)
    ensures id in BodyIds(items, me) <==> exists x :: x in items && x.origin != me && x.body.id == id
  {
    if items == [] {
    } else {
      var n := |items| - 1;
      BodyIdsExact(items[..n], me, id);
      assert forall x :: x in items <==> x in items[..n] || x == items[n];
    }
  }

  lemma {:induction false} AppliedIdsExact(links: seq<Link>, j: nat, me: string, id: string)
    ensures id in AppliedIds(links, j, me)
      <==> exists l :: 0 <= l < |links| && links[l].dst == j && id in BodyIds(links[l].applied, me)
  {
    if links == [] {
    } else {
      AppliedIdsExact(links[..|links| - 1], j, me, id);
    }
  }

  lemma {:induction false} BodyIdsConcat(xs: seq<Packet>, ys: seq<Packet>, me: string)
    ensures BodyIds(xs + ys, me) == BodyIds(xs, me) + BodyIds(ys, me)
  {
    if ys == [] {
      assert xs + ys == xs;
    } else {
      var n := |ys| - 1;
      BodyIdsConcat(xs, ys[..n], me);
      assert (xs + ys)[..|xs + ys| - 1] == xs + ys[..n];
    }
  }

  lemma {:induction false} AppliedIdsSame(links: seq<Link>, links': seq<Link>, j: nat, me: string)
    requires |links| == |links'|
    requires forall l :: 0 <= l < |links| ==> links[l].applied == links'[l].applied && links[l].dst == links'[l].dst
    ensures AppliedIds(links, j, me) == AppliedIds(links', j, me)
  {
    if links == [] {
    } else {
      AppliedIdsSame(links[..|links| - 1], links'[..|links| - 1], j, me);
    }
  }

  lemma {:induction false} AppliedIdsDelivered(links: seq<Link>, l: nat, j: nat, me: string)
    requires l < |links|
    ensures AppliedIds(links[l := Delivered(links[l])], j, me)
      == AppliedIds(links, j, me) + if links[l].dst == j then BodyIds(links[l].inflight, me) else {}
  {
    var n := |links| - 1;
    if l == n {
      assert links[l := Delivered(links[l])][..n] == links[..n];
      BodyIdsConcat(links[l].applied, links[l].inflight, me);
    } else {
      AppliedIdsDelivered(links[..n], l, j, me);
      assert links[l := Delivered(links[l])][..n] == links[..n][l := Delivered(links[l])];
    }
  }

  lemma {:induction false} PublishedIdsSame(nodes: seq<Node>, nodes': seq<Node>)
    requires |nodes| == |nodes'|
    requires forall i :: 0 <= i < |nodes| ==> nodes[i].published == nodes'[i].published
    ensures PublishedIds(nodes) == PublishedIds(nodes')
  {
    if nodes == [] {
    } else {
      PublishedIdsSame(nodes[..|nodes| - 1], nodes'[..|nodes| - 1]);
    }
  }

  lemma {:induction false} PublishedIdsGrow(nodes: seq<Node>, i: nat, nd: Node, p: Publication)
    requires i < |nodes| && nd.published == nodes[i].published + [p]
    ensures PublishedIds(nodes[i := nd]) == PublishedIds(nodes) + {p.id}
    ensures IdsIn(nd.published) == IdsIn(nodes[i].published) + {p.id}
  {
    var n := |nodes| - 1;
    assert nd.published[..|nd.published| - 1] == nodes[i].published;
    if i == n {
      assert nodes[i := nd][..n] == nodes[..n];
    } else {
      PublishedIdsGrow(nodes[..n], i, nd, p);
      assert nodes[i := nd][..n] == nodes[..n][i := nd];
    }
  }

  /** c is the cache of some sequence of puts whose ids are exactly `ids`. */
  ghost predicate IsRun(b: Bounds, c: Cache, ids: set<string>) {
    exists es :: RunsTo(b, es, c, ids)
  }

  ghost predicate RunsTo(b: Bounds, es: seq<Entry>, c: Cache, ids: set<string>) {
    Run(b, es) == c && IdsOf(es) == ids
  }

  ghost predicate NodeIsRun(b: Bounds, s: State, j: nat)
    requires j < |s.nodes|
  {
    IsRun(b, s.nodes[j].cache, KnownIds(s, j))
  }

  ghost predicate CachesInv(b: Bounds, s: State) {
    forall j: nat :: j < |s.nodes| ==> NodeIsRun(b, s, j)
  }

  /** Some node published e's id, and published it as e when it carried a timestamp. */
  ghost predicate Published(s: State, e: Entry) {
    exists i, p :: PublishedAs(s, i, p, e)
  }

  ghost predicate PublishedAs(s: State, i: int, p: Publication, e: Entry) {
    && 0 <= i < |s.nodes| && p in s.nodes[i].published && p.id == e.id && Publishable(p)
    && Stores(e, p) && (p.timestamp != 0 ==> e == EntryOf(p))
  }

  ghost predicate SourcesInv(s: State) {
    && (forall j, e :: 0 <= j < |s.nodes| && e in s.nodes[j].cache.entries ==> Published(s, e))
    && (forall i, p :: 0 <= i < |s.nodes| && p in s.nodes[i].published ==> Publishable(p))
  }

  ghost predicate Inv(b: Bounds, s: State) {
    LinksInv(s) && PendingInv(s) && CachesInv(b, s) && SourcesInv(s)
  }

  lemma LinksStep(b: Bounds, s: State, ev: Event)
    requires LinksInv(s) && Enabled(s, ev)
    ensures LinksInv(Next(b, s, ev))
  {
    var s' := Next(b, s, ev);
    forall l: nat | l < |s.links|
      ensures LinkOk(s', l)
    {
      assert LinkOk(s, l);
      match ev {
        case Publish(i, p, now) =>
          if s.links[l].src == i {
            OfferKeepsInv(s.links[l], Packet(s.nodes[i].server, p));
            assert PacketsOf(s'.nodes[i]) == PacketsOf(s.nodes[i]) + [Packet(s.nodes[i].server, p)];
          }
        case Persist(i, k, now) =>
          assert PacketsOf(s'.nodes[s.links[l].src]) == PacketsOf(s.nodes[s.links[l].src]);
        case Batch(g, n) =>
          if g == l { GatherKeepsInv(s.links[l], n); }
        case Deliver(d, nows) =>
          assert PacketsOf(s'.nodes[s.links[l].src]) == PacketsOf(s.nodes[s.links[l].src]);
          if d == l { DeliveredKeepsInv(s.links[l]); }
        case Lose(d) =>
          if d == l { FailedKeepsInv(s.links[l]); }
      }
    }
  }

  lemma PendingStep(b: Bounds, s: State, ev: Event)
    requires PendingInv(s) && Enabled(s, ev)
    ensures PendingInv(Next(b, s, ev))
  {
  }

  // Sources --------------------------------------------------------------

  lemma PutSources(b: Bounds, c: Cache, room: string, m: Message, now: int, e: Entry)
    requires e in FeedCache.Put(b, c, room, m, now).entries
    ensures e in c.entries || e == Compact(room, m, now)
  {
  }

  lemma {:induction false} ReceiveSources(b: Bounds, c: Cache, me: string, items: seq<Packet>, nows: seq<int>, e: Entry)
    requires |items| <= |nows|
    requires e in Receive(b, c, me, items, nows).entries
    ensures e in c.entries
      || exists k :: 0 <= k < |items| && e == Compact(items[k].body.room, CanonicalForm(items[k].body), nows[k])
  {
    if items == [] {
    } else {
      var n := |items| - 1;
      var c' := Receive(b, c, me, items[..n], nows);
      if items[n].origin != me {
        PutSources(b, c', items[n].body.room, CanonicalForm(items[n].body), nows[n], e);
      }
      if e in c'.entries {
        ReceiveSources(b, c, me, items[..n], nows, e);
      }
    }
  }

  lemma FormIsPublished(s: State, i: nat, p: Publication, now: int)
    requires i < |s.nodes| && p in s.nodes[i].published && Publishable(p)
    ensures Published(s, Compact(p.room, LocalForm(p), now))
    ensures Published(s, Compact(p.room, CanonicalForm(p), now))
  {
    CopiesStoreIt(p, now);
    assert Or(p.text, p.text) == p.text;
    assert PublishedAs(s, i, p, Compact(p.room, LocalForm(p), now));
    assert PublishedAs(s, i, p, Compact(p.room, CanonicalForm(p), now));
  }

  ghost predicate LogsGrow(s: State, s': State) {
    && |s.nodes| == |s'.nodes|
    && forall i, p :: 0 <= i < |s.nodes| && p in s.nodes[i].published ==> p in s'.nodes[i].published
  }

  lemma StillPublished(s: State, s': State, e: Entry)
    requires LogsGrow(s, s') && Published(s, e)
    ensures Published(s', e)
  {
    var i, p :| PublishedAs(s, i, p, e);
    assert PublishedAs(s', i, p, e);
  }

  /** A packet in flight was published by the node its link leaves. */
  lemma InflightPublished(s: State, l: nat, x: Packet)
    requires LinksInv(s) && l < |s.links| && (x in s.links[l].inflight || x in s.links[l].applied)
    ensures s.links[l].src < |s.nodes|
    ensures x.origin == s.nodes[s.links[l].src].server && x.body in s.nodes[s.links[l].src].published
  {
    var lk := s.links[l];
    assert LinkOk(s, l);
    DeliveredKeepsInv(lk);
    AppliedInOrder(Delivered(lk));
    assert x in Delivered(lk).applied;
    var k :| 0 <= k < |lk.sent| && lk.sent[k] == x;
    assert lk.sent[k] == PacketsOf(s.nodes[lk.src])[k];
  }

  lemma CacheSources(s: State, s': State, j: nat, e: Entry)
    requires SourcesInv(s) && LogsGrow(s, s') && j < |s.nodes| && e in s.nodes[j].cache.entries
    ensures Published(s', e)
  {
    StillPublished(s, s', e);
  }

  lemma SourcesStep(b: Bounds, s: State, ev: Event)
    requires LinksInv(s) && PendingInv(s) && SourcesInv(s) && Enabled(s, ev)
    ensures SourcesInv(Next(b, s, ev))
  {
    var s' := Next(b, s, ev);
    assert LogsGrow(s, s');
    forall j, e | 0 <= j < |s'.nodes| && e in s'.nodes[j].cache.entries
      ensures Published(s', e)
    {
      if e in s.nodes[j].cache.entries {
        CacheSources(s, s', j, e);
      } else {
        NewEntryPublished(b, s, ev, j, e);
      }
    }
  }

  lemma NewEntryPublished(b: Bounds, s: State, ev: Event, j: nat, e: Entry)
    requires LinksInv(s) && PendingInv(s) && SourcesInv(s) && Enabled(s, ev)
    requires j < |s.nodes| && e in Next(b, s, ev).nodes[j].cache.entries && e !in s.nodes[j].cache.entries
    ensures Published(Next(b, s, ev), e)
  {
    var s' := Next(b, s, ev);
    match ev {
      case Publish(i, p, now) =>
        PutSources(b, s.nodes[i].cache, p.room, LocalForm(p), now, e);
        assert s'.nodes[i].published[|s.nodes[i].published|] == p;
        FormIsPublished(s', i, p, now);
      case Persist(i, k, now) =>
        var p := s.nodes[i].pending[k];
        PutSources(b, s.nodes[i].cache, p.room, CanonicalForm(p), now, e);
        FormIsPublished(s', i, p, now);
      case Deliver(l, nows) =>
        DeliveredEntryPublished(b, s, ev, j, e);
      case _ =>
    }
  }

  lemma DeliveredEntryPublished(b: Bounds, s: State, ev: Event, j: nat, e: Entry)
    requires LinksInv(s) && SourcesInv(s) && Enabled(s, ev) && ev.Deliver?
    requires j < |s.nodes| && e in Next(b, s, ev).nodes[j].cache.entries && e !in s.nodes[j].cache.entries
    ensures Published(Next(b, s, ev), e)
  {
    var lk := s.links[ev.l];
    ReceiveSources(b, s.nodes[j].cache, s.nodes[j].server, lk.inflight, ev.nows, e);
    var k :| 0 <= k < |lk.inflight|
      && e == Compact(lk.inflight[k].body.room, CanonicalForm(lk.inflight[k].body), ev.nows[k]);
    InflightPublished(s, ev.l, lk.inflight[k]);
    FormIsPublished(Next(b, s, ev), lk.src, lk.inflight[k].body, ev.nows[k]);
  }

  // Caches ---------------------------------------------------------------

  lemma PutIsRun(b: Bounds, c: Cache, ids: set<string>, room: string, m: Message, now: int)
    requires IsRun(b, c, ids) && m.id != ""
    ensures IsRun(b, FeedCache.Put(b, c, room, m, now), ids + {m.id})
  {
    var es :| RunsTo(b, es, c, ids);
    var e := Compact(room, m, now);
    IdsAppend(es, e);
    assert (es + [e])[..|es + [e]| - 1] == es;
    assert RunsTo(b, es + [e], FeedCache.Put(b, c, room, m, now), ids + {m.id});
  }

  ghost predicate Named(items: seq<Packet>) {
    forall k :: 0 <= k < |items| ==> items[k].body.id != ""
  }

  lemma UnionRegroup<T>(x: set<T>, y: set<T>, z: set<T>)
    ensures x + y + z == x + (y + z)
  {
  }

  lemma ReceiveOneIsRun(b: Bounds, c: Cache, ids: set<string>, me: string, x: Packet, now: int)
    requires IsRun(b, c, ids) && x.body.id != ""
    ensures IsRun(b, ReceiveOne(b, c, me, x, now), ids + if x.origin != me then {x.body.id} else {})
  {
    if x.origin != me {
      PutIsRun(b, c, ids, x.body.room, CanonicalForm(x.body), now);
    } else {
      assert ids + {} == ids;
    }
  }

  lemma {:induction false} ReceiveIsRun(
      b: Bounds, c: Cache, ids: set<string>, me: string, items: seq<Packet>, nows: seq<int>)
    requires |items| <= |nows| && IsRun(b, c, ids) && Named(items)
    ensures IsRun(b, Receive(b, c, me, items, nows), ids + BodyIds(items, me))
  {
    if items == [] {
      assert ids + BodyIds(items, me) == ids;
    } else {
      var n := |items| - 1;
      var c', ids' := Receive(b, c, me, items[..n], nows), ids + BodyIds(items[..n], me);
      ReceiveIsRun(b, c, ids, me, items[..n], nows);
      ReceiveOneIsRun(b, c', ids', me, items[n], nows[n]);
      UnionRegroup(ids, BodyIds(items[..n], me), if items[n].origin != me then {items[n].body.id} else {});
    }
  }

  lemma KnownWithin(s: State, j: nat)
    requires LinksInv(s) && j < |s.nodes|
    ensures KnownIds(s, j) <= AllIds(s)
  {
    forall id | id in KnownIds(s, j)
      ensures id in AllIds(s)
    {
      PublishedIdsExact(s.nodes, id);
      if id !in IdsIn(s.nodes[j].published) {
        AppliedIdsExact(s.links, j, s.nodes[j].server, id);
        var l :| 0 <= l < |s.links| && s.links[l].dst == j && id in BodyIds(s.links[l].applied, s.nodes[j].server);
        BodyIdsExact(s.links[l].applied, s.nodes[j].server, id);
        var x :| x in s.links[l].applied && x.body.id == id;
        InflightPublished(s, l, x);
        IdsInExact(s.nodes[s.links[l].src].published, id);
      }
    }
  }

  lemma PublishIds(b: Bounds, s: State, ev: Event)
    requires Enabled(s, ev) && ev.Publish?
    ensures AllIds(Next(b, s, ev)) == AllIds(s) + {ev.p.id}
    ensures forall j :: 0 <= j < |s.nodes| ==>
      KnownIds(Next(b, s, ev), j) == KnownIds(s, j) + if j == ev.i then {ev.p.id} else {}
  {
    var s' := Next(b, s, ev);
    PublishedIdsGrow(s.nodes, ev.i, s'.nodes[ev.i], ev.p);
    forall j | 0 <= j < |s.nodes|
      ensures AppliedIds(s'.links, j, s.nodes[j].server) == AppliedIds(s.links, j, s.nodes[j].server)
    {
      AppliedIdsSame(s.links, s'.links, j, s.nodes[j].server);
    }
  }

  lemma DeliverIds(b: Bounds, s: State, ev: Event)
    requires Enabled(s, ev) && ev.Deliver?
    ensures AllIds(Next(b, s, ev)) == AllIds(s)
    ensures forall j :: 0 <= j < |s.nodes| ==>
      KnownIds(Next(b, s, ev), j) == KnownIds(s, j)
        + if j == s.links[ev.l].dst then BodyIds(s.links[ev.l].inflight, s.nodes[j].server) else {}
  {
    PublishedIdsSame(s.nodes, Next(b, s, ev).nodes);
    forall j | 0 <= j < |s.nodes|
      ensures AppliedIds(Next(b, s, ev).links, j, s.nodes[j].server) == AppliedIds(s.links, j, s.nodes[j].server)
        + if j == s.links[ev.l].dst then BodyIds(s.links[ev.l].inflight, s.nodes[j].server) else {}
    {
      AppliedIdsDelivered(s.links, ev.l, j, s.nodes[j].server);
    }
  }

  lemma QuietIds(b: Bounds, s: State, ev: Event)
    requires Enabled(s, ev) && (ev.Persist? || ev.Batch? || ev.Lose?)
    ensures AllIds(Next(b, s, ev)) == AllIds(s)
    ensures forall j :: 0 <= j < |s.nodes| ==> KnownIds(Next(b, s, ev), j) == KnownIds(s, j)
  {
    PublishedIdsSame(s.nodes, Next(b, s, ev).nodes);
    forall j | 0 <= j < |s.nodes|
      ensures AppliedIds(Next(b, s, ev).links, j, s.nodes[j].server) == AppliedIds(s.links, j, s.nodes[j].server)
    {
      AppliedIdsSame(s.links, Next(b, s, ev).links, j, s.nodes[j].server);
    }
  }

  lemma PublishCaches(b: Bounds, s: State, ev: Event)
    requires CachesInv(b, s) && Enabled(s, ev) && ev.Publish?
    ensures CachesInv(b, Next(b, s, ev))
  {
    var s' := Next(b, s, ev);
    PublishIds(b, s, ev);
    forall j: nat | j < |s'.nodes|
      ensures NodeIsRun(b, s', j)
    {
      assert NodeIsRun(b, s, j);
      if j == ev.i {
        PutIsRun(b, s.nodes[j].cache, KnownIds(s, j), ev.p.room, LocalForm(ev.p), ev.now);
      } else {
        assert KnownIds(s', j) == KnownIds(s, j);
      }
    }
  }

  /** The persisted copy brings no new id. */
  lemma PersistCaches(b: Bounds, s: State, ev: Event)
    requires CachesInv(b, s) && Enabled(s, ev) && ev.Persist?
    requires s.nodes[ev.i].pending[ev.k] in s.nodes[ev.i].published && s.nodes[ev.i].pending[ev.k].id != ""
    ensures CachesInv(b, Next(b, s, ev))
  {
    var s' := Next(b, s, ev);
    QuietIds(b, s, ev);
    forall j: nat | j < |s'.nodes|
      ensures NodeIsRun(b, s', j)
    {
      assert NodeIsRun(b, s, j);
      if j == ev.i {
        var p := s.nodes[j].pending[ev.k];
        IdsInExact(s.nodes[j].published, p.id);
        assert KnownIds(s', j) == KnownIds(s, j) + {p.id};
        PutIsRun(b, s.nodes[j].cache, KnownIds(s, j), p.room, CanonicalForm(p), ev.now);
      }
    }
  }

  lemma DeliverCaches(b: Bounds, s: State, ev: Event)
    requires CachesInv(b, s) && Enabled(s, ev) && ev.Deliver? && Named(s.links[ev.l].inflight)
    ensures CachesInv(b, Next(b, s, ev))
  {
    var s' := Next(b, s, ev);
    DeliverIds(b, s, ev);
    forall j: nat | j < |s'.nodes|
      ensures NodeIsRun(b, s', j)
    {
      assert NodeIsRun(b, s, j);
      var nd, items := s.nodes[j], s.links[ev.l].inflight;
      if j == s.links[ev.l].dst {
        assert KnownIds(s', j) == KnownIds(s, j) + BodyIds(items, nd.server);
        assert s'.nodes[j].cache == Receive(b, nd.cache, nd.server, items, ev.nows);
        ReceiveIsRun(b, nd.cache, KnownIds(s, j), nd.server, items, ev.nows);
      } else {
        assert KnownIds(s', j) == KnownIds(s, j);
      }
    }
  }

  lemma OtherCaches(b: Bounds, s: State, ev: Event)
    requires CachesInv(b, s) && Enabled(s, ev) && (ev.Batch? || ev.Lose?)
    ensures CachesInv(b, Next(b, s, ev))
  {
    var s' := Next(b, s, ev);
    QuietIds(b, s, ev);
    forall j: nat | j < |s'.nodes|
      ensures NodeIsRun(b, s', j)
    {
      assert NodeIsRun(b, s, j);
    }
  }

  lemma InflightNamed(s: State, l: nat)
    requires LinksInv(s) && SourcesInv(s) && l < |s.links|
    ensures Named(s.links[l].inflight)
  {
    forall k | 0 <= k < |s.links[l].inflight|
      ensures s.links[l].inflight[k].body.id != ""
    {
      InflightPublished(s, l, s.links[l].inflight[k]);
      assert Publishable(s.links[l].inflight[k].body);
    }
  }

  lemma CachesStep(b: Bounds, s: State, ev: Event)
    requires LinksInv(s) && PendingInv(s) && SourcesInv(s) && CachesInv(b, s) && Enabled(s, ev)
    ensures CachesInv(b, Next(b, s, ev))
  {
    match ev {
      case Publish(i, p, now) =>
        PublishCaches(b, s, ev);
      case Persist(i, k, now) =>
        assert Publishable(s.nodes[i].pending[k]);
        PersistCaches(b, s, ev);
      case Deliver(l, nows) =>
        InflightNamed(s, l);
        DeliverCaches(b, s, ev);
      case _ =>
        OtherCaches(b, s, ev);
    }
  }

  lemma InitialLinks(s: State)
    requires Initial(s)
    ensures LinksInv(s)
  {
    forall l: nat | l < |s.links|
      ensures LinkOk(s, l)
    {
      IdleInv(s.links[l].src, s.links[l].dst);
      assert PacketsOf(s.nodes[s.links[l].src]) == [];
    }
  }

  lemma InitialCaches(b: Bounds, s: State)
    requires Initial(s)
    ensures CachesInv(b, s)
  {
    forall j: nat | j < |s.nodes|
      ensures NodeIsRun(b, s, j)
    {
      NothingApplied(s.links, j, s.nodes[j].server);
      assert RunsTo(b, [], EMPTY, KnownIds(s, j));
    }
  }

  lemma {:induction false} NothingApplied(links: seq<Link>, j: nat, me: string)
    requires forall l :: 0 <= l < |links| ==> links[l].applied == []
    ensures AppliedIds(links, j, me) == {}
  {
    if links == [] {
    } else {
      NothingApplied(links[..|links| - 1], j, me);
    }
  }

  lemma InitialInv(b: Bounds, s: State)
    requires Initial(s)
    ensures Inv(b, s)
  {
    InitialLinks(s);
    InitialCaches(b, s);
  }

  lemma {:induction false} PlayInv(b: Bounds, s0: State, evs: seq<Event>)
    requires Initial(s0)
    ensures Inv(b, Play(b, s0, evs))
  {
    if evs == [] {
      InitialInv(b, s0);
    } else {
      var s, ev := Play(b, s0, evs[..|evs| - 1]), evs[|evs| - 1];
      PlayInv(b, s0, evs[..|evs| - 1]);
      if Enabled(s, ev) {
        LinksStep(b, s, ev);
        PendingStep(b, s, ev);
        SourcesStep(b, s, ev);
        CachesStep(b, s, ev);
      }
    }
  }

  function Happens(b: Bounds, s: State, ev: Event): State {
    if Enabled(s, ev) then Next(b, s, ev) else s
  }

  lemma PlaySnoc(b: Bounds, s0: State, evs: seq<Event>, ev: Event)
    ensures Play(b, s0, evs + [ev]) == Happens(b, Play(b, s0, evs), ev)
  {
    assert (evs + [ev])[..|evs + [ev]| - 1] == evs;
  }

  lemma SameLink(s: State, l: nat, lk: Link)
    requires l < |s.links| && s.links[l] == lk
    ensures s.(links := s.links[l := lk]) == s
  {
    assert s.links[l := lk] == s.links;
  }

  lemma BatchHappens(b: Bounds, s: State, l: nat, n: nat)
    requires l < |s.links|
    ensures Happens(b, s, Event.Batch(l, n)) == s.(links := s.links[l := StepLink(s.links[l], LinkEvent.Batch(n))])
  {
    SameLink(s, l, s.links[l]);
  }

  lemma LoseHappens(b: Bounds, s: State, l: nat)
    requires l < |s.links|
    ensures Happens(b, s, Event.Lose(l)) == s.(links := s.links[l := StepLink(s.links[l], LinkEvent.Lose)])
  {
    if s.links[l].inflight == [] {
      assert Failed(s.links[l]) == s.links[l];
      SameLink(s, l, s.links[l]);
    }
  }

  lemma DeliverHappens(b: Bounds, s: State, l: nat, nows: seq<int>)
    requires l < |s.links| && s.links[l].dst < |s.nodes| && |s.links[l].inflight| <= |nows|
    ensures Happens(b, s, Event.Deliver(l, nows)).links == s.links[l := StepLink(s.links[l], LinkEvent.Deliver)]
  {
    if s.links[l].inflight == [] {
      assert Delivered(s.links[l]) == s.links[l];
      SameLink(s, l, s.links[l]);
    }
  }

  /** At any point of any run the events of a link do to it what they do to a link on its own. */
  lemma LinkStepsAnyTime(b: Bounds, s0: State, evs: seq<Event>, l: nat, n: nat, nows: seq<int>)
    requires Initial(s0) && l < |s0.links|
    ensures var s := Play(b, s0, evs);
      && |s.links| == |s0.links|
      && Play(b, s0, evs + [Event.Batch(l, n)])
         == s.(links := s.links[l := StepLink(s.links[l], LinkEvent.Batch(n))])
      && Play(b, s0, evs + [Event.Lose(l)]) == s.(links := s.links[l := StepLink(s.links[l], LinkEvent.Lose)])
      && (|s.links[l].inflight| <= |nows| ==>
            Play(b, s0, evs + [Event.Deliver(l, nows)]).links
              == s.links[l := StepLink(s.links[l], LinkEvent.Deliver)])
  {
    var s := Play(b, s0, evs);
    PlayInv(b, s0, evs);
    NodesFixed(b, s0, evs);
    assert LinkOk(s, l);
    BatchHappens(b, s, l, n);
    LoseHappens(b, s, l);
    if |s.links[l].inflight| <= |nows| {
      DeliverHappens(b, s, l, nows);
    }
    PlaySnoc(b, s0, evs, Event.Batch(l, n));
    PlaySnoc(b, s0, evs, Event.Lose(l));
    PlaySnoc(b, s0, evs, Event.Deliver(l, nows));
  }

  /** At any point of any run a publication is offered to every link that leaves its node, and to no other. */
  lemma OffersAnyTime(b: Bounds, s0: State, evs: seq<Event>, i: nat, p: Publication, now: int, l: nat)
    requires i < |s0.nodes| && l < |s0.links| && Publishable(p)
    ensures var s, s' := Play(b, s0, evs), Play(b, s0, evs + [Event.Publish(i, p, now)]);
      && |s'.links| == |s.links| == |s0.links| && |s.nodes| == |s0.nodes|
      && s'.links[l] == if s.links[l].src == i
                        then StepLink(s.links[l], LinkEvent.Publish(Packet(s.nodes[i].server, p)))
                        else s.links[l]
  {
    NodesFixed(b, s0, evs);
    PlaySnoc(b, s0, evs, Event.Publish(i, p, now));
  }

  // -------------------------------------------------------------------------
  // What every node's cache keeps, with losses and drops
  // -------------------------------------------------------------------------

  lemma RunKeepsCopiesFew(b: Bounds, c: Cache, ids: set<string>)
    requires IsRun(b, c, ids)
    ensures |c.entries| <= b.size && |c.ids| <= b.size + b.slack
    ensures OneAbsentAtMost(c)
    ensures forall id :: |Copies(c.entries, id)| <= 2
    ensures |Repeated(c.entries)| * (b.slack + 1) <= b.size + b.slack
  {
    var es :| RunsTo(b, es, c, ids);
    DedupAsWritten(b, es);
    FewRepeatedIds(b, es);
  }

  lemma RunWithinCapacity(b: Bounds, c: Cache, ids: set<string>)
    requires IsRun(b, c, ids) && |ids| <= b.size + b.slack
    ensures c.ids == ids && DistinctIds(c.entries)
    ensures |c.entries| == if |ids| <= b.size then |ids| else b.size
    ensures |ids| <= b.size ==> IdsOf(c.entries) == ids
  {
    var es :| RunsTo(b, es, c, ids);
    WithinCapacity(b, es);
    FirstOccurrencesAreDistinct(es);
    DistinctIsOwnFirstOccurrences(FirstOccurrences(es));
  }

  /**
   * The bounds of the single cache hold on every node of every run, whatever is lost, dropped, repeated or reordered:
   * at most two copies of an id, few repeated ids, and none while the node knows no more than size+slack ids.
   */
  lemma NodesStayDeduplicated(b: Bounds, s0: State, evs: seq<Event>, j: nat)
    requires Initial(s0) && j < |s0.nodes|
    ensures var s := Play(b, s0, evs);
      |s.nodes| == |s0.nodes| &&
      var c, known := s.nodes[j].cache, KnownIds(s, j);
      && OneAbsentAtMost(c)
      && (forall id :: |Copies(c.entries, id)| <= 2)
      && |Repeated(c.entries)| * (b.slack + 1) <= b.size + b.slack
      && (|known| <= b.size + b.slack ==>
            && c.ids == known && DistinctIds(c.entries)
            && |c.entries| == if |known| <= b.size then |known| else b.size)
  {
    var s := Play(b, s0, evs);
    PlayInv(b, s0, evs);
    NodesFixed(b, s0, evs);
    assert NodeIsRun(b, s, j);
    RunKeepsCopiesFew(b, s.nodes[j].cache, KnownIds(s, j));
    if |KnownIds(s, j)| <= b.size + b.slack {
      RunWithinCapacity(b, s.nodes[j].cache, KnownIds(s, j));
    }
  }

  /** Every entry of every feed is a publication of some node, with its own name, text, room and timestamp. */
  lemma FeedHoldsPublications(b: Bounds, s0: State, evs: seq<Event>, j: nat, e: Entry)
    requires Initial(s0) && j < |Play(b, s0, evs).nodes| && e in Play(b, s0, evs).nodes[j].cache.entries
    ensures var s := Play(b, s0, evs);
      exists i, p :: 0 <= i < |s.nodes| && p in s.nodes[i].published && Stores(e, p)
  {
    PlayInv(b, s0, evs);
    var s := Play(b, s0, evs);
    assert Published(s, e);
    var i, p :| PublishedAs(s, i, p, e);
  }

  /** While a node knows at most size+slack ids, the put of the persistence task changes nothing. */
  lemma PersistChangesNothing(b: Bounds, s0: State, evs: seq<Event>, i: nat, k: nat, now: int)
    requires Initial(s0)
    requires Enabled(Play(b, s0, evs), Persist(i, k, now))
    requires |KnownIds(Play(b, s0, evs), i)| <= b.size + b.slack
    ensures var s := Play(b, s0, evs);
      Next(b, s, Persist(i, k, now)).nodes[i].cache == s.nodes[i].cache
  {
    var s := Play(b, s0, evs);
    PlayInv(b, s0, evs);
    assert NodeIsRun(b, s, i);
    RunWithinCapacity(b, s.nodes[i].cache, KnownIds(s, i));
    IdsInExact(s.nodes[i].published, s.nodes[i].pending[k].id);
  }

  // -------------------------------------------------------------------------
  // Convergence
  // -------------------------------------------------------------------------

  /** Every queue and every in-flight batch is empty. */
  ghost predicate Quiet(s: State) {
    forall l :: 0 <= l < |s.links| ==> s.links[l].queue == [] && s.links[l].inflight == []
  }

  /** No full queue has dropped a packet and no POST has failed. */
  ghost predicate Lossless(s: State) {
    forall l :: 0 <= l < |s.links| ==> s.links[l].lost == 0 && s.links[l].dropped == 0
  }

  ghost predicate Linked(s: State, i: nat, j: nat) {
    exists l :: 0 <= l < |s.links| && s.links[l].src == i && s.links[l].dst == j
  }

  /** Node i publishes to node j, which does not take i's packets for its own. */
  ghost predicate Hears(s: State, i: nat, j: nat)
    requires i < |s.nodes| && j < |s.nodes|
  {
    Linked(s, i, j) && s.nodes[i].server != s.nodes[j].server
  }

  /** Everything published, by j itself or by a node it hears. */
  ghost predicate Reaches(s: State, id: string, j: nat)
    requires j < |s.nodes|
  {
    exists i :: 0 <= i < |s.nodes| && id in IdsIn(s.nodes[i].published) && (i == j || Hears(s, i, j))
  }

  /**
   * In a quiet state without losses, and with at most `size` ids, each cache holds exactly what its node published or
   * heard, once each, whatever the topology and the server ids.
   */
  lemma QuietCachesExact(b: Bounds, s0: State, evs: seq<Event>, j: nat)
    requires Initial(s0) && j < |s0.nodes|
    ensures var s := Play(b, s0, evs);
      |s.nodes| == |s0.nodes| &&
      (Quiet(s) && Lossless(s) && |AllIds(s)| <= b.size ==>
        && |s.nodes[j].cache.entries| == |IdsOf(s.nodes[j].cache.entries)|
        && forall id :: id in IdsOf(s.nodes[j].cache.entries) <==> Reaches(s, id, j))
  {
    var s := Play(b, s0, evs);
    PlayInv(b, s0, evs);
    NodesFixed(b, s0, evs);
    if Quiet(s) && Lossless(s) && |AllIds(s)| <= b.size {
      assert NodeIsRun(b, s, j);
      KnownWithin(s, j);
      SubsetSize(KnownIds(s, j), AllIds(s));
      RunWithinCapacity(b, s.nodes[j].cache, KnownIds(s, j));
      forall id
        ensures id in KnownIds(s, j) <==> Reaches(s, id, j)
      {
        KnownIsReached(s, id, j);
      }
    }
  }

  lemma KnownIsReached(s: State, id: string, j: nat)
    requires LinksInv(s) && Quiet(s) && Lossless(s) && j < |s.nodes|
    ensures id in KnownIds(s, j) <==> Reaches(s, id, j)
  {
    if id in KnownIds(s, j) && id !in IdsIn(s.nodes[j].published) {
      AppliedIdsExact(s.links, j, s.nodes[j].server, id);
      var l :| 0 <= l < |s.links| && s.links[l].dst == j && id in BodyIds(s.links[l].applied, s.nodes[j].server);
      BodyIdsExact(s.links[l].applied, s.nodes[j].server, id);
      var x :| x in s.links[l].applied && x.origin != s.nodes[j].server && x.body.id == id;
      InflightPublished(s, l, x);
      IdsInExact(s.nodes[s.links[l].src].published, id);
      assert Linked(s, s.links[l].src, j);
      assert Hears(s, s.links[l].src, j);
    }
    if Reaches(s, id, j) {
      var i :| 0 <= i < |s.nodes| && id in IdsIn(s.nodes[i].published) && (i == j || Hears(s, i, j));
      if i != j {
        HeardIsKnown(s, id, i, j);
      }
    }
  }

  lemma HeardIsKnown(s: State, id: string, i: nat, j: nat)
    requires LinksInv(s) && Quiet(s) && Lossless(s) && i < |s.nodes| && j < |s.nodes|
    requires Hears(s, i, j) && id in IdsIn(s.nodes[i].published)
    ensures id in KnownIds(s, j)
  {
    var l :| 0 <= l < |s.links| && s.links[l].src == i && s.links[l].dst == j;
    var lk := s.links[l];
    assert LinkOk(s, l);
    assert lk.applied + lk.inflight + lk.queue == lk.applied;
    IdsInExact(s.nodes[i].published, id);
    var k :| 0 <= k < |s.nodes[i].published| && s.nodes[i].published[k].id == id;
    var x := PacketsOf(s.nodes[i])[k];
    assert x in lk.applied && x.origin != s.nodes[j].server && x.body.id == id;
    BodyIdsExact(lk.applied, s.nodes[j].server, id);
    AppliedIdsExact(s.links, j, s.nodes[j].server, id);
  }

  lemma {:induction false} NodesFixed(b: Bounds, s0: State, evs: seq<Event>)
    ensures var s := Play(b, s0, evs);
      && |s.nodes| == |s0.nodes| && |s.links| == |s0.links|
      && (forall i :: 0 <= i < |s.nodes| ==> s.nodes[i].server == s0.nodes[i].server)
      && (forall l :: 0 <= l < |s.links| ==> s.links[l].src == s0.links[l].src && s.links[l].dst == s0.links[l].dst)
  {
    if evs == [] {
    } else {
      NodesFixed(b, s0, evs[..|evs| - 1]);
    }
  }

  /** Distinct server ids and a queue from every node to every other. */
  ghost predicate FullMesh(s: State) {
    && (forall i, j :: 0 <= i < j < |s.nodes| ==> s.nodes[i].server != s.nodes[j].server)
    && (forall i: nat, j: nat :: i < |s.nodes| && j < |s.nodes| && i != j ==> Linked(s, i, j))
  }

  /** Each id is always published with the same content, and with a timestamp. */
  ghost predicate Consistent(s: State) {
    forall i, j, p, q ::
      (0 <= i < |s.nodes| && 0 <= j < |s.nodes|
       && p in s.nodes[i].published && q in s.nodes[j].published && p.id == q.id
       ==> p == q && p.timestamp != 0)
  }

  lemma MeshedCacheExact(b: Bounds, s0: State, evs: seq<Event>, j: nat)
    requires Initial(s0) && FullMesh(s0) && j < |s0.nodes|
    ensures var s := Play(b, s0, evs);
      |s.nodes| == |s0.nodes| &&
      (Quiet(s) && Lossless(s) ==>
        (IdsOf(s.nodes[j].cache.entries) == AllIds(s) <==> |AllIds(s)| <= b.size))
  {
    var s := Play(b, s0, evs);
    NodesFixed(b, s0, evs);
    QuietCachesExact(b, s0, evs, j);
    PlayInv(b, s0, evs);
    assert NodeIsRun(b, s, j);
    RunKeepsCopiesFew(b, s.nodes[j].cache, KnownIds(s, j));
    IdsSize(s.nodes[j].cache.entries);
    assert FullMesh(s) by {
      MeshKept(s0, s);
    }
    MeshReaches(s, j);
  }

  /**
   * Convergence: in a quiet state without losses every cache holds every published id if and only if they fit the
   * cache, and then consistent publications are stored alike everywhere.
   */
  lemma Convergence(b: Bounds, s0: State, evs: seq<Event>, j: nat, k: nat)
    requires Initial(s0) && FullMesh(s0) && j < |s0.nodes| && k < |s0.nodes|
    ensures var s := Play(b, s0, evs);
      |s.nodes| == |s0.nodes| &&
      (Quiet(s) && Lossless(s) ==>
        && (IdsOf(s.nodes[j].cache.entries) == AllIds(s) <==> |AllIds(s)| <= b.size)
        && (|AllIds(s)| <= b.size && Consistent(s) ==>
              forall e :: e in s.nodes[j].cache.entries <==> e in s.nodes[k].cache.entries))
  {
    var s := Play(b, s0, evs);
    MeshedCacheExact(b, s0, evs, j);
    MeshedCacheExact(b, s0, evs, k);
    if Quiet(s) && Lossless(s) && |AllIds(s)| <= b.size && Consistent(s) {
      PlayInv(b, s0, evs);
      forall e | e in s.nodes[j].cache.entries
        ensures e in s.nodes[k].cache.entries
      {
        SameEntry(s, j, k, e);
      }
      forall e | e in s.nodes[k].cache.entries
        ensures e in s.nodes[j].cache.entries
      {
        SameEntry(s, k, j, e);
      }
    }
  }

  lemma MeshKept(s0: State, s: State)
    requires FullMesh(s0) && |s.nodes| == |s0.nodes| && |s.links| == |s0.links|
    requires forall i :: 0 <= i < |s.nodes| ==> s.nodes[i].server == s0.nodes[i].server
    requires forall l :: 0 <= l < |s.links| ==> s.links[l].src == s0.links[l].src && s.links[l].dst == s0.links[l].dst
    ensures FullMesh(s)
  {
    forall i: nat, j: nat | i < |s.nodes| && j < |s.nodes| && i != j
      ensures Linked(s, i, j)
    {
      assert Linked(s0, i, j);
      var l :| 0 <= l < |s0.links| && s0.links[l].src == i && s0.links[l].dst == j;
      assert s.links[l].src == i;
    }
  }

  lemma MeshReaches(s: State, j: nat)
    requires FullMesh(s) && j < |s.nodes|
    ensures forall id :: id in AllIds(s) <==> Reaches(s, id, j)
  {
    forall id
      ensures id in AllIds(s) <==> Reaches(s, id, j)
    {
      PublishedIdsExact(s.nodes, id);
      if id in AllIds(s) {
        var i :| 0 <= i < |s.nodes| && id in IdsIn(s.nodes[i].published);
        assert i == j || Hears(s, i, j);
      }
    }
  }

  lemma SameEntry(s: State, j: nat, k: nat, e: Entry)
    requires SourcesInv(s) && Consistent(s) && j < |s.nodes| && k < |s.nodes|
    requires e in s.nodes[j].cache.entries && e.id in IdsOf(s.nodes[k].cache.entries)
    ensures e in s.nodes[k].cache.entries
  {
    var f :| f in s.nodes[k].cache.entries && f.id == e.id;
    assert Published(s, e) && Published(s, f);
    var i, p :| PublishedAs(s, i, p, e);
    var i', p' :| PublishedAs(s, i', p', f);
    assert p == p';
  }
}
