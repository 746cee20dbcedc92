/** What the persistence tasks of the cluster have done, and the log of everything put into a node's feed. */
module Persistence {
  import opened FeedCache
  import opened GossipLink
  import opened Cluster
  import GossipStorm

  // -------------------------------------------------------------------------
  // Each publication is persisted exactly once
  // -------------------------------------------------------------------------

  /** The publications that the persistence tasks of node i have put, in the order they ran. */
  function PersistedBy(b: Bounds, s0: State, evs: seq<Cluster.Event>, i: nat): seq<Publication> {
    if evs == [] then []
    else
      var s, ev := Play(b, s0, evs[..|evs| - 1]), evs[|evs| - 1];
      PersistedBy(b, s0, evs[..|evs| - 1], i)
      + if Enabled(s, ev) && ev.Persist? && ev.i == i then [s.nodes[i].pending[ev.k]] else []
  }

  ghost predicate Accounted(s: State, i: nat, persisted: seq<Publication>)
    requires i < |s.nodes|
  {
    multiset(persisted) + multiset(s.nodes[i].pending) == multiset(s.nodes[i].published)
  }

  lemma RemoveAt(ps: seq<Publication>, k: nat)
    requires k < |ps|
    ensures multiset(ps) == multiset(ps[..k] + ps[k + 1..]) + multiset{ps[k]}
  {
    assert ps == ps[..k] + [ps[k]] + ps[k + 1..];
  }

  lemma StepAccounts(b: Bounds, s: State, ev: Cluster.Event, i: nat, persisted: seq<Publication>)
    requires Enabled(s, ev) && i < |s.nodes| && Accounted(s, i, persisted)
    ensures Accounted(Next(b, s, ev), i,
                      persisted + if ev.Persist? && ev.i == i then [s.nodes[i].pending[ev.k]] else [])
  {
    if ev.Persist? && ev.i == i {
      RemoveAt(s.nodes[i].pending, ev.k);
    } else {
      assert persisted + [] == persisted;
    }
  }

  /** On every run what a node has persisted and what still waits are, together, what it has published, each once. */
  lemma {:induction false} PersistedOnce(b: Bounds, s0: State, evs: seq<Cluster.Event>, i: nat)
    requires Initial(s0) && i < |s0.nodes|
    ensures |Play(b, s0, evs).nodes| == |s0.nodes| && Accounted(Play(b, s0, evs), i, PersistedBy(b, s0, evs, i))
  {
    NodesFixed(b, s0, evs);
    if evs == [] {
    } else {
      var init, ev := evs[..|evs| - 1], evs[|evs| - 1];
      var s := Play(b, s0, init);
      PersistedOnce(b, s0, init, i);
      if Enabled(s, ev) {
        StepAccounts(b, s, ev, i, PersistedBy(b, s0, init, i));
      } else {
        assert PersistedBy(b, s0, init, i) + [] == PersistedBy(b, s0, init, i);
      }
    }
  }

  /** At any point of any run each waiting task can be the next to run, and then it and no other is done. */
  lemma AnyTaskCanRun(b: Bounds, s0: State, evs: seq<Cluster.Event>, i: nat, k: nat, now: int)
    requires i < |Play(b, s0, evs).nodes| && k < |Play(b, s0, evs).nodes[i].pending|
    ensures var s, after := Play(b, s0, evs), evs + [Persist(i, k, now)];
      var s' := Play(b, s0, after);
      && |s'.nodes| == |s.nodes| && s'.links == s.links
      && s'.nodes[i].pending == s.nodes[i].pending[..k] + s.nodes[i].pending[k + 1..]
      && s'.nodes[i].published == s.nodes[i].published
      && PersistedBy(b, s0, after, i) == PersistedBy(b, s0, evs, i) + [s.nodes[i].pending[k]]
      && forall j :: 0 <= j < |s.nodes| && j != i ==> s'.nodes[j] == s.nodes[j]
  {
    var after := evs + [Persist(i, k, now)];
    PlaySnoc(b, s0, evs, Persist(i, k, now));
    assert after[..|after| - 1] == evs;
  }

  /** Where nothing is left to do, every publication has been persisted exactly as often as it was published. */
  lemma IdleMeansPersisted(b: Bounds, s0: State, evs: seq<Cluster.Event>, i: nat)
    requires Initial(s0) && i < |s0.nodes| && GossipStorm.Work(Play(b, s0, evs)) == 0
    ensures |Play(b, s0, evs).nodes| == |s0.nodes|
    ensures multiset(PersistedBy(b, s0, evs, i)) == multiset(Play(b, s0, evs).nodes[i].published)
  {
    PersistedOnce(b, s0, evs, i);
    GossipStorm.NoWorkIsQuiet(Play(b, s0, evs));
  }

  // -------------------------------------------------------------------------
  // The feed of a node is the run of everything put into it
  // -------------------------------------------------------------------------

  /** What a batch puts into the feed of the node `me`: its packets in order, without me's own. */
  function Heard(me: string, items: seq<Packet>, nows: seq<int>): seq<Entry>
    requires |items| <= |nows|
  {
    if items == [] then []
    else
      var n := |items| - 1;
      Heard(me, items[..n], nows)
      + if items[n].origin == me then []
        else [Compact(items[n].body.room, CanonicalForm(items[n].body), nows[n])]
  }

  function PutsOf(s: State, ev: Cluster.Event, i: nat): seq<Entry>
    requires Enabled(s, ev)
  {
    match ev
    case Publish(n, p, now) => if n == i then [Compact(p.room, LocalForm(p), now)] else []
    case Persist(n, k, now) =>
      if n == i then [Compact(s.nodes[i].pending[k].room, CanonicalForm(s.nodes[i].pending[k]), now)] else []
    case Deliver(l, nows) =>
      if s.links[l].dst == i then Heard(s.nodes[i].server, s.links[l].inflight, nows) else []
    case _ => []
  }

  function Puts(b: Bounds, s0: State, evs: seq<Cluster.Event>, i: nat): seq<Entry> {
    if evs == [] then []
    else
      var s, ev := Play(b, s0, evs[..|evs| - 1]), evs[|evs| - 1];
      Puts(b, s0, evs[..|evs| - 1], i) + if Enabled(s, ev) then PutsOf(s, ev, i) else []
  }

  lemma RunOne(b: Bounds, es: seq<Entry>, room: string, m: Message, now: int)
    requires m.id != ""
    ensures Run(b, es + [Compact(room, m, now)]) == FeedCache.Put(b, Run(b, es), room, m, now)
  {
    var e := Compact(room, m, now);
    assert (es + [e])[..|es + [e]| - 1] == es;
  }

  lemma {:induction false} RunHeard(b: Bounds, es: seq<Entry>, me: string, items: seq<Packet>, nows: seq<int>)
    requires |items| <= |nows| && Named(items)
    ensures Run(b, es + Heard(me, items, nows)) == Receive(b, Run(b, es), me, items, nows)
  {
    if items == [] {
      assert es + [] == es;
    } else {
      var n := |items| - 1;
      var before := Heard(me, items[..n], nows);
      RunHeard(b, es, me, items[..n], nows);
      if items[n].origin == me {
        assert es + (before + []) == es + before;
      } else {
        var m := CanonicalForm(items[n].body);
        RunOne(b, es + before, items[n].body.room, m, nows[n]);
        assert es + (before + [Compact(items[n].body.room, m, nows[n])])
          == es + before + [Compact(items[n].body.room, m, nows[n])];
      }
    }
  }

  ghost predicate RunsAs(b: Bounds, s: State, i: nat, es: seq<Entry>)
    requires i < |s.nodes|
  {
    s.nodes[i].cache == Run(b, es)
  }

  lemma PublishRuns(b: Bounds, s: State, ev: Cluster.Event, i: nat, es: seq<Entry>)
    requires Enabled(s, ev) && ev.Publish? && i < |s.nodes| && RunsAs(b, s, i, es)
    ensures RunsAs(b, Next(b, s, ev), i, es + PutsOf(s, ev, i))
  {
    if ev.i == i {
      RunOne(b, es, ev.p.room, LocalForm(ev.p), ev.now);
    } else {
      assert es + PutsOf(s, ev, i) == es;
    }
  }

  lemma PersistRuns(b: Bounds, s: State, ev: Cluster.Event, i: nat, es: seq<Entry>)
    requires Enabled(s, ev) && ev.Persist? && i < |s.nodes| && RunsAs(b, s, i, es)
    requires s.nodes[ev.i].pending[ev.k].id != ""
    ensures RunsAs(b, Next(b, s, ev), i, es + PutsOf(s, ev, i))
  {
    if ev.i == i {
      var p := s.nodes[i].pending[ev.k];
      RunOne(b, es, p.room, CanonicalForm(p), ev.now);
    } else {
      assert es + PutsOf(s, ev, i) == es;
    }
  }

  lemma DeliverRuns(b: Bounds, s: State, ev: Cluster.Event, i: nat, es: seq<Entry>)
    requires Enabled(s, ev) && ev.Deliver? && i < |s.nodes| && RunsAs(b, s, i, es)
    requires Named(s.links[ev.l].inflight)
    ensures RunsAs(b, Next(b, s, ev), i, es + PutsOf(s, ev, i))
  {
    if s.links[ev.l].dst == i {
      RunHeard(b, es, s.nodes[i].server, s.links[ev.l].inflight, ev.nows);
    } else {
      assert es + PutsOf(s, ev, i) == es;
    }
  }

  lemma OtherRuns(b: Bounds, s: State, ev: Cluster.Event, i: nat, es: seq<Entry>)
    requires Enabled(s, ev) && (ev.Batch? || ev.Lose?) && i < |s.nodes| && RunsAs(b, s, i, es)
    ensures RunsAs(b, Next(b, s, ev), i, es + PutsOf(s, ev, i))
  {
    assert es + PutsOf(s, ev, i) == es;
  }

  lemma PendingNamed(s: State, i: nat, k: nat)
    requires PendingInv(s) && SourcesInv(s) && i < |s.nodes| && k < |s.nodes[i].pending|
    ensures s.nodes[i].pending[k].id != ""
  {
    var p := s.nodes[i].pending[k];
    assert p in s.nodes[i].published && Publishable(p);
  }

  lemma StepRuns(b: Bounds, s: State, ev: Cluster.Event, i: nat, es: seq<Entry>)
    requires Inv(b, s) && Enabled(s, ev) && i < |s.nodes| && RunsAs(b, s, i, es)
    ensures RunsAs(b, Next(b, s, ev), i, es + PutsOf(s, ev, i))
  {
    match ev {
      case Publish(n, p, now) =>
        PublishRuns(b, s, ev, i, es);
      case Persist(n, k, now) =>
        PendingNamed(s, n, k);
        PersistRuns(b, s, ev, i, es);
      case Deliver(l, nows) =>
        InflightNamed(s, l);
        DeliverRuns(b, s, ev, i, es);
      case _ =>
        OtherRuns(b, s, ev, i, es);
    }
  }

  /**
   * The feed of every node is the feed of one cache into which its own publications, the publications its tasks persist
   * and the packets it receives from others have been put, in the order of the events.
   */
  lemma {:induction false} FeedIsRunOfPuts(b: Bounds, s0: State, evs: seq<Cluster.Event>, i: nat)
    requires Initial(s0) && i < |s0.nodes|
    ensures |Play(b, s0, evs).nodes| == |s0.nodes|
    ensures Play(b, s0, evs).nodes[i].cache == Run(b, Puts(b, s0, evs, i))
  {
    NodesFixed(b, s0, evs);
    if evs == [] {
    } else {
      var init, ev := evs[..|evs| - 1], evs[|evs| - 1];
      var s := Play(b, s0, init);
      FeedIsRunOfPuts(b, s0, init, i);
      if Enabled(s, ev) {
        PlayInv(b, s0, init);
        StepRuns(b, s, ev, i, Puts(b, s0, init, i));
      } else {
        assert Puts(b, s0, init, i) + [] == Puts(b, s0, init, i);
      }
    }
  }
}
