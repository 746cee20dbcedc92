/** Gossip never feeds on itself: what a publication costs, and that a cluster left alone falls quiet. */
module GossipStorm {
  import opened FeedCache
  import opened GossipLink
  import opened Cluster

  /** A node that receives its own packets changes nothing. */
  lemma {:induction false} OwnPacketsIgnored(b: Bounds, c: Cache, me: string, items: seq<Packet>, nows: seq<int>)
    requires |items| <= |nows|
    requires forall k :: 0 <= k < |items| ==> items[k].origin == me
    ensures Receive(b, c, me, items, nows) == c
  {
    if items == [] {
    } else {
      OwnPacketsIgnored(b, c, me, items[..|items| - 1], nows);
    }
  }

  function OutDegree(links: seq<Link>, i: nat): nat {
    if links == [] then 0
    else OutDegree(links[..|links| - 1], i) + if links[|links| - 1].src == i then 1 else 0
  }

  function SentTotal(links: seq<Link>): nat {
    if links == [] then 0 else SentTotal(links[..|links| - 1]) + |links[|links| - 1].sent|
  }

  function AppliedTotal(links: seq<Link>): nat {
    if links == [] then 0 else AppliedTotal(links[..|links| - 1]) + |links[|links| - 1].applied|
  }

  function PublishedTotal(nodes: seq<Node>): nat {
    if nodes == [] then 0 else PublishedTotal(nodes[..|nodes| - 1]) + |nodes[|nodes| - 1].published|
  }

  function QueuedWork(links: seq<Link>): nat {
    if links == [] then 0
    else QueuedWork(links[..|links| - 1]) + 2 * |links[|links| - 1].queue| + |links[|links| - 1].inflight|
  }

  function PendingWork(nodes: seq<Node>): nat {
    if nodes == [] then 0 else PendingWork(nodes[..|nodes| - 1]) + |nodes[|nodes| - 1].pending|
  }

  function Work(s: State): nat {
    QueuedWork(s.links) + PendingWork(s.nodes)
  }

  // -------------------------------------------------------------------------
  // Totals after one update
  // -------------------------------------------------------------------------

  lemma {:induction false} LinkTotals(links: seq<Link>, l: nat, lk: Link)
    requires l < |links|
    ensures QueuedWork(links[l := lk]) == QueuedWork(links)
      - 2 * |links[l].queue| - |links[l].inflight| + 2 * |lk.queue| + |lk.inflight|
    ensures SentTotal(links[l := lk]) == SentTotal(links) - |links[l].sent| + |lk.sent|
  {
    var n := |links| - 1;
    if l == n {
      assert links[l := lk][..n] == links[..n];
    } else {
      LinkTotals(links[..n], l, lk);
      assert links[l := lk][..n] == links[..n][l := lk];
    }
  }

  lemma {:induction false} NodeTotals(nodes: seq<Node>, i: nat, nd: Node)
    requires i < |nodes|
    ensures PendingWork(nodes[i := nd]) == PendingWork(nodes) - |nodes[i].pending| + |nd.pending|
    ensures PublishedTotal(nodes[i := nd]) == PublishedTotal(nodes) - |nodes[i].published| + |nd.published|
  {
    var n := |nodes| - 1;
    if i == n {
      assert nodes[i := nd][..n] == nodes[..n];
    } else {
      NodeTotals(nodes[..n], i, nd);
      assert nodes[i := nd][..n] == nodes[..n][i := nd];
    }
  }

  lemma {:induction false} OfferTotals(links: seq<Link>, i: nat, x: Packet)
    ensures SentTotal(OfferAll(links, i, x)) == SentTotal(links) + OutDegree(links, i)
  {
    if links == [] {
    } else {
      var n := |links| - 1;
      OfferTotals(links[..n], i, x);
      assert OfferAll(links, i, x)[..n] == OfferAll(links[..n], i, x);
    }
  }

  // -------------------------------------------------------------------------
  // m publications with at most p peers each cause at most m * p applications
  // -------------------------------------------------------------------------

  ghost predicate PeersAtMost(links: seq<Link>, p: nat) {
    forall i: nat :: OutDegree(links, i) <= p
  }

  lemma {:induction false} OutDegreeSame(links: seq<Link>, links': seq<Link>, i: nat)
    requires |links| == |links'| && forall l :: 0 <= l < |links| ==> links[l].src == links'[l].src
    ensures OutDegree(links, i) == OutDegree(links', i)
  {
    if links == [] {
    } else {
      OutDegreeSame(links[..|links| - 1], links'[..|links| - 1], i);
    }
  }

  lemma PeersStep(b: Bounds, s: State, ev: Cluster.Event, p: nat)
    requires Enabled(s, ev) && PeersAtMost(s.links, p)
    ensures PeersAtMost(Next(b, s, ev).links, p)
  {
    forall i: nat
      ensures OutDegree(Next(b, s, ev).links, i) <= p
    {
      OutDegreeSame(Next(b, s, ev).links, s.links, i);
    }
  }

  lemma SentStep(b: Bounds, s: State, ev: Cluster.Event, p: nat)
    requires Enabled(s, ev) && (ev.Publish? ==> OutDegree(s.links, ev.i) <= p)
    requires SentTotal(s.links) <= PublishedTotal(s.nodes) * p
    ensures SentTotal(Next(b, s, ev).links) <= PublishedTotal(Next(b, s, ev).nodes) * p
  {
    var s' := Next(b, s, ev);
    match ev {
      case Publish(i, q, now) =>
        OfferTotals(s.links, i, Packet(s.nodes[i].server, q));
        NodeTotals(s.nodes, i, s'.nodes[i]);
        assert (PublishedTotal(s.nodes) + 1) * p == PublishedTotal(s.nodes) * p + p;
      case Persist(i, k, now) =>
        NodeTotals(s.nodes, i, s'.nodes[i]);
      case Batch(l, n) =>
        LinkTotals(s.links, l, s'.links[l]);
      case Deliver(l, nows) =>
        NodeTotals(s.nodes, s.links[l].dst, s'.nodes[s.links[l].dst]);
        LinkTotals(s.links, l, s'.links[l]);
      case Lose(l) =>
        LinkTotals(s.links, l, s'.links[l]);
    }
  }

  lemma {:induction false} SentBound(b: Bounds, s0: State, evs: seq<Cluster.Event>, p: nat)
    requires Initial(s0) && PeersAtMost(s0.links, p)
    ensures var s := Play(b, s0, evs);
      PeersAtMost(s.links, p) && SentTotal(s.links) <= PublishedTotal(s.nodes) * p
  {
    if evs == [] {
      NothingSent(s0.links);
    } else {
      SentBound(b, s0, evs[..|evs| - 1], p);
      var s := Play(b, s0, evs[..|evs| - 1]);
      if Enabled(s, evs[|evs| - 1]) {
        PeersStep(b, s, evs[|evs| - 1], p);
        SentStep(b, s, evs[|evs| - 1], p);
      }
    }
  }

  lemma {:induction false} NothingSent(links: seq<Link>)
    requires forall l :: 0 <= l < |links| ==> links[l].sent == []
    ensures SentTotal(links) == 0
  {
    if links == [] {
    } else {
      NothingSent(links[..|links| - 1]);
    }
  }

  lemma {:induction false} AppliedAtMostSent(links: seq<Link>)
    requires forall l :: 0 <= l < |links| ==> |links[l].applied| <= |links[l].sent|
    ensures AppliedTotal(links) <= SentTotal(links)
  {
    if links == [] {
    } else {
      AppliedAtMostSent(links[..|links| - 1]);
    }
  }

  lemma NoGossipStorm(b: Bounds, s0: State, evs: seq<Cluster.Event>, p: nat)
    requires Initial(s0) && PeersAtMost(s0.links, p)
    ensures var s := Play(b, s0, evs);
      AppliedTotal(s.links) <= PublishedTotal(s.nodes) * p
  {
    var s := Play(b, s0, evs);
    SentBound(b, s0, evs, p);
    PlayInv(b, s0, evs);
    forall l: nat | l < |s.links|
      ensures |s.links[l].applied| <= |s.links[l].sent|
    {
      assert LinkOk(s, l);
    }
    AppliedAtMostSent(s.links);
  }

  // -------------------------------------------------------------------------
  // Without new publications the cluster falls quiet
  // -------------------------------------------------------------------------

  /** Every step but a publication leaves less to do. */
  lemma WorkDecreases(b: Bounds, s: State, ev: Cluster.Event)
    requires Enabled(s, ev) && !ev.Publish?
    ensures Work(Next(b, s, ev)) < Work(s)
  {
    var s' := Next(b, s, ev);
    match ev {
      case Persist(i, k, now) =>
        NodeTotals(s.nodes, i, s'.nodes[i]);
      case Batch(l, n) =>
        LinkTotals(s.links, l, s'.links[l]);
      case Deliver(l, nows) =>
        NodeTotals(s.nodes, s.links[l].dst, s'.nodes[s.links[l].dst]);
        LinkTotals(s.links, l, s'.links[l]);
      case Lose(l) =>
        LinkTotals(s.links, l, s'.links[l]);
    }
  }

  /** A step other than a publication exists as long as anything is queued, in flight or pending. */
  lemma WorkCanProceed(s: State) returns (ev: Cluster.Event)
    requires Work(s) > 0
    requires forall l :: 0 <= l < |s.links| ==> s.links[l].dst < |s.nodes|
    ensures Enabled(s, ev) && !ev.Publish? && !ev.Lose?
  {
    if QueuedWork(s.links) > 0 {
      var l := BusyLink(s.links);
      if s.links[l].inflight != [] {
        ev := Cluster.Event.Deliver(l, seq(|s.links[l].inflight|, _ => 0));
      } else {
        ev := Cluster.Event.Batch(l, 1);
      }
    } else {
      var i := BusyNode(s.nodes);
      ev := Cluster.Event.Persist(i, 0, 0);
    }
  }

  lemma {:induction false} BusyLink(links: seq<Link>) returns (l: nat)
    requires QueuedWork(links) > 0
    ensures l < |links| && (links[l].queue != [] || links[l].inflight != [])
  {
    var n := |links| - 1;
    if QueuedWork(links[..n]) > 0 {
      l := BusyLink(links[..n]);
    } else {
      l := n;
    }
  }

  lemma {:induction false} BusyNode(nodes: seq<Node>) returns (i: nat)
    requires PendingWork(nodes) > 0
    ensures i < |nodes| && nodes[i].pending != []
  {
    var n := |nodes| - 1;
    if PendingWork(nodes[..n]) > 0 {
      i := BusyNode(nodes[..n]);
    } else {
      i := n;
    }
  }

  lemma {:induction false} NoWorkIsQuiet(s: State)
    requires Work(s) == 0
    ensures Quiet(s) && forall i :: 0 <= i < |s.nodes| ==> s.nodes[i].pending == []
  {
    forall l | 0 <= l < |s.links|
      ensures s.links[l].queue == [] && s.links[l].inflight == []
    {
      LinkTotals(s.links, l, s.links[l].(queue := [], inflight := []));
    }
    forall i | 0 <= i < |s.nodes|
      ensures s.nodes[i].pending == []
    {
      NodeTotals(s.nodes, i, s.nodes[i].(pending := []));
    }
  }

  /** The events of evs all happen, one after the other, and none is a publication. */
  ghost predicate RunsWithoutPublishing(b: Bounds, s: State, evs: seq<Cluster.Event>) {
    forall k :: 0 <= k < |evs| ==> !evs[k].Publish? && Enabled(Play(b, s, evs[..k]), evs[k])
  }

  /** Left alone, the cluster takes at most Work(s) more steps, and one that cannot step is quiet. */
  lemma {:induction false} FallsQuiet(b: Bounds, s: State, evs: seq<Cluster.Event>)
    requires RunsWithoutPublishing(b, s, evs)
    requires forall l :: 0 <= l < |s.links| ==> s.links[l].dst < |s.nodes|
    ensures |evs| + Work(Play(b, s, evs)) <= Work(s)
    ensures (forall ev: Cluster.Event :: Enabled(Play(b, s, evs), ev) ==> ev.Publish?) ==> Quiet(Play(b, s, evs))
  {
    if evs == [] {
    } else {
      var n := |evs| - 1;
      assert forall k :: 0 <= k < n ==> evs[..n][..k] == evs[..k];
      FallsQuiet(b, s, evs[..n]);
      WorkDecreases(b, Play(b, s, evs[..n]), evs[n]);
    }
    var s' := Play(b, s, evs);
    NodesFixed(b, s, evs);
    if Work(s') == 0 {
      NoWorkIsQuiet(s');
    } else {
      var ev := WorkCanProceed(s');
    }
  }

  // -------------------------------------------------------------------------
  // What has not been lost yet can still arrive everywhere
  // -------------------------------------------------------------------------

  /** The events of evs all happen, one after the other, and none publishes or loses anything. */
  ghost predicate RunsWithoutLoss(b: Bounds, s: State, evs: seq<Cluster.Event>) {
    RunsWithoutPublishing(b, s, evs) && forall k :: 0 <= k < |evs| ==> !evs[k].Lose?
  }

  lemma {:induction false} PlayConcat(b: Bounds, s: State, evs: seq<Cluster.Event>, more: seq<Cluster.Event>)
    ensures Play(b, s, evs + more) == Play(b, Play(b, s, evs), more)
  {
    if more == [] {
      assert evs + more == evs;
    } else {
      var n := |more| - 1;
      PlayConcat(b, s, evs, more[..n]);
      assert (evs + more)[..|evs + more| - 1] == evs + more[..n];
    }
  }

  lemma RunsOn(b: Bounds, s: State, ev: Cluster.Event, rest: seq<Cluster.Event>)
    requires Enabled(s, ev) && !ev.Publish? && !ev.Lose? && RunsWithoutLoss(b, Next(b, s, ev), rest)
    ensures RunsWithoutLoss(b, s, [ev] + rest)
    ensures Play(b, s, [ev] + rest) == Play(b, Next(b, s, ev), rest)
  {
    var evs := [ev] + rest;
    assert Play(b, s, []) == s && [ev][..0] == [];
    assert Play(b, s, [ev]) == Next(b, s, ev);
    PlayConcat(b, s, [ev], rest);
    forall k | 0 <= k < |evs|
      ensures !evs[k].Publish? && Enabled(Play(b, s, evs[..k]), evs[k])
    {
      if k > 0 {
        assert evs[..k] == [ev] + rest[..k - 1];
        PlayConcat(b, s, [ev], rest[..k - 1]);
      }
    }
  }

  /** Nothing new is published and nothing is lost. */
  ghost predicate NothingLost(s: State, s': State) {
    && |s'.nodes| == |s.nodes| && AllIds(s') == AllIds(s) && (Lossless(s) ==> Lossless(s'))
    && forall i :: 0 <= i < |s.nodes| ==> s'.nodes[i].published == s.nodes[i].published
  }

  lemma StepLosesNothing(b: Bounds, s: State, ev: Cluster.Event)
    requires Enabled(s, ev) && !ev.Publish? && !ev.Lose?
    ensures NothingLost(s, Next(b, s, ev))
  {
    PublishedIdsSame(s.nodes, Next(b, s, ev).nodes);
  }

  /** From every state some steps that publish and lose nothing lead to a quiet one without pending work. */
  lemma {:induction false} CanDrain(b: Bounds, s: State) returns (evs: seq<Cluster.Event>)
    requires forall l :: 0 <= l < |s.links| ==> s.links[l].dst < |s.nodes|
    ensures RunsWithoutLoss(b, s, evs)
    ensures Work(Play(b, s, evs)) == 0 && Quiet(Play(b, s, evs)) && NothingLost(s, Play(b, s, evs))
    decreases Work(s)
  {
    if Work(s) == 0 {
      evs := [];
      NoWorkIsQuiet(s);
    } else {
      var ev := WorkCanProceed(s);
      WorkDecreases(b, s, ev);
      StepLosesNothing(b, s, ev);
      var rest := CanDrain(b, Next(b, s, ev));
      RunsOn(b, s, ev, rest);
      evs := [ev] + rest;
    }
  }

  ghost predicate HoldsAll(s: State, j: nat)
    requires j < |s.nodes|
  {
    IdsOf(s.nodes[j].cache.entries) == AllIds(s)
  }

  ghost predicate SameEntries(s: State, j: nat, k: nat)
    requires j < |s.nodes| && k < |s.nodes|
  {
    forall e :: e in s.nodes[j].cache.entries <==> e in s.nodes[k].cache.entries
  }

  /** Every cache holds all published ids exactly when they fit, and then consistent publications are stored alike. */
  ghost predicate Converged(b: Bounds, s: State) {
    && (forall j: nat :: j < |s.nodes| ==> (HoldsAll(s, j) <==> |AllIds(s)| <= b.size))
    && (|AllIds(s)| <= b.size && Consistent(s) ==>
          forall j: nat, k: nat :: j < |s.nodes| && k < |s.nodes| ==> SameEntries(s, j, k))
  }

  lemma QuietConverged(b: Bounds, s0: State, evs: seq<Cluster.Event>)
    requires Initial(s0) && FullMesh(s0) && Quiet(Play(b, s0, evs)) && Lossless(Play(b, s0, evs))
    ensures Converged(b, Play(b, s0, evs))
  {
    var s := Play(b, s0, evs);
    NodesFixed(b, s0, evs);
    forall j: nat | j < |s.nodes|
      ensures HoldsAll(s, j) <==> |AllIds(s)| <= b.size
    {
      Convergence(b, s0, evs, j, j);
    }
    if |AllIds(s)| <= b.size && Consistent(s) {
      forall j: nat, k: nat | j < |s.nodes| && k < |s.nodes|
        ensures SameEntries(s, j, k)
      {
        Convergence(b, s0, evs, j, k);
      }
    }
  }

  /** Every run that has lost nothing yet goes on, without publishing or losing anything, to a converged state. */
  lemma CanConverge(b: Bounds, s0: State, evs: seq<Cluster.Event>) returns (more: seq<Cluster.Event>)
    requires Initial(s0) && FullMesh(s0) && Lossless(Play(b, s0, evs))
    ensures RunsWithoutLoss(b, Play(b, s0, evs), more)
    ensures var s' := Play(b, s0, evs + more);
      Quiet(s') && NothingLost(Play(b, s0, evs), s') && Converged(b, s')
  {
    NodesFixed(b, s0, evs);
    more := CanDrain(b, Play(b, s0, evs));
    PlayConcat(b, s0, evs, more);
    QuietConverged(b, s0, evs + more);
  }

  /** Two nodes with a queue each way. */
  const PAIR := State([Node("a", EMPTY, [], []), Node("b", EMPTY, [], [])], [Idle(0, 1), Idle(1, 0)])

  lemma PairIsMeshed()
    ensures Initial(PAIR) && FullMesh(PAIR)
  {
    assert PAIR.links[0].src == 0 && PAIR.links[0].dst == 1 && Linked(PAIR, 0, 1);
    assert PAIR.links[1].src == 1 && PAIR.links[1].dst == 0 && Linked(PAIR, 1, 0);
    assert PAIR.nodes[0].server[0] != PAIR.nodes[1].server[0];
  }

  lemma PairAfterLoss(b: Bounds, p: Publication)
    requires Publishable(p)
    ensures Play(b, PAIR, [Cluster.Event.Publish(0, p, 1), Cluster.Event.Batch(0, 1), Cluster.Event.Lose(0)])
      == State([PublishAt(b, PAIR.nodes[0], p, 1), PAIR.nodes[1]],
               [Link(0, 1, [], [], [Packet("a", p)], [], 1, 0), Idle(1, 0)])
  {
    var e1, e2, e3 := Cluster.Event.Publish(0, p, 1), Cluster.Event.Batch(0, 1), Cluster.Event.Lose(0);
    var x := Packet("a", p);
    assert [e1][..0] == [] && [e1, e2][..1] == [e1] && [e1, e2, e3][..2] == [e1, e2];
    var s1 := Next(b, PAIR, e1);
    assert s1.nodes == [PublishAt(b, PAIR.nodes[0], p, 1), PAIR.nodes[1]];
    assert s1.links == [Offer(Idle(0, 1), x), Idle(1, 0)];
    assert Play(b, PAIR, [e1]) == s1;
    var s2 := Next(b, s1, e2);
    assert s2.links == [Gather(Offer(Idle(0, 1), x), 1), Idle(1, 0)];
    assert Play(b, PAIR, [e1, e2]) == s2;
    var s3 := Next(b, s2, e3);
    var l2 := s2.links[0];
    assert l2 == Link(0, 1, [], [x], [x], [], 0, 0);
    assert s3.links == [Failed(l2), Idle(1, 0)];
    assert s3.links == [Link(0, 1, [], [], [x], [], 1, 0), Idle(1, 0)];
    assert Play(b, PAIR, [e1, e2, e3]) == s3;
  }

  /** One lost batch, and the cluster is quiet without having converged: the other node has not heard of it. */
  lemma LossDiverges(b: Bounds, p: Publication)
    requires Publishable(p) && b.size >= 1
    ensures Initial(PAIR) && FullMesh(PAIR)
    ensures var s := Play(b, PAIR, [Cluster.Event.Publish(0, p, 1), Cluster.Event.Batch(0, 1), Cluster.Event.Lose(0)]);
      && Quiet(s) && !Lossless(s) && |s.nodes| == 2 && AllIds(s) == {p.id}
      && s.nodes[1].cache == EMPTY && !HoldsAll(s, 1)
  {
    PairIsMeshed();
    PairAfterLoss(b, p);
    var s := Play(b, PAIR, [Cluster.Event.Publish(0, p, 1), Cluster.Event.Batch(0, 1), Cluster.Event.Lose(0)]);
    assert [p][..0] == [] && IdsIn([p]) == {p.id};
    assert s.nodes[..1] == [s.nodes[0]] && s.nodes[..1][..0] == [];
    assert PublishedIds(s.nodes[..1]) == {p.id};
    assert s.links[0].lost == 1;
    assert p.id in AllIds(s) && p.id !in IdsOf(s.nodes[1].cache.entries);
  }
}
