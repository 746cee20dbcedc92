/** One gossip link: the drop-oldest queue to a peer and the worker that posts batches from it (server/gossip.py). */
module GossipLink {
  import opened Sequences

  /** A message as a node publishes it; handlers guarantee a non-empty id and room. */
  datatype Publication = Publication(id: string, username: string, text: string, room: string, timestamp: int)

  datatype Packet = Packet(origin: string, body: Publication)

  const QUEUE_SIZE := 1000
  const MAX_BATCH := 100

  /**
   * `sent` records every packet offered to the link, `applied` those the peer has processed; `lost` counts packets of
   * batches whose POST failed, `dropped` those pushed out of the full queue.
   */
  datatype Link = Link(
    src: nat, dst: nat, queue: seq<Packet>, inflight: seq<Packet>,
    sent: seq<Packet>, applied: seq<Packet>, lost: nat, dropped: nat)

  function Push(q: seq<Packet>, x: Packet): seq<Packet> {
    if |q| < QUEUE_SIZE then q + [x] else q[1..] + [x]
  }

  function Offer(l: Link, x: Packet): Link {
    l.(queue := Push(l.queue, x), sent := l.sent + [x],
       dropped := if |l.queue| < QUEUE_SIZE then l.dropped else l.dropped + 1)
  }

  predicate CanGather(l: Link, n: nat) {
    l.inflight == [] && 1 <= n <= MAX_BATCH && n <= |l.queue|
  }

  /** The worker takes n packets; the previous POST has ended. */
  function Gather(l: Link, n: nat): Link
    requires CanGather(l, n)
  {
    l.(inflight := l.queue[..n], queue := l.queue[n..])
  }

  function Delivered(l: Link): Link {
    l.(applied := l.applied + l.inflight, inflight := [])
  }

  function Failed(l: Link): Link {
    l.(lost := l.lost + |l.inflight|, inflight := [])
  }

  ghost predicate LinkInv(l: Link) {
    && |l.queue| <= QUEUE_SIZE && |l.inflight| <= MAX_BATCH
    && |l.queue| <= |l.sent| && l.queue == l.sent[|l.sent| - |l.queue|..]
    && InOrder(l.applied + l.inflight + l.queue, l.sent)
    && |l.sent| == |l.applied| + l.lost + l.dropped + |l.inflight| + |l.queue|
    && (l.lost + l.dropped == 0 ==> l.applied + l.inflight + l.queue == l.sent)
  }

  /** Removing a stretch of an in-order subsequence leaves one. */
  lemma InOrderCut<T>(u: seq<T>, v: seq<T>, w: seq<T>, b: seq<T>)
    requires InOrder(u + v + w, b)
    ensures InOrder(u + w, b)
  {
    var at: seq<nat> :| Embeds(at, u + v + w, b);
    var rest := at[..|u|] + at[|u| + |v|..];
    forall i | 0 <= i < |rest|
      ensures rest[i] < |b| && (u + w)[i] == b[rest[i]]
    {
      if i >= |u| {
        assert rest[i] == at[i + |v|] && (u + w)[i] == (u + v + w)[i + |v|];
      } else {
        assert rest[i] == at[i] && (u + w)[i] == (u + v + w)[i];
      }
    }
    assert Embeds(rest, u + w, b);
  }

  /** Dropping the oldest queued packet to make room for a new one. */
  lemma DropOldestInOrder(ahead: seq<Packet>, q: seq<Packet>, sent: seq<Packet>, x: Packet)
    requires q != [] && InOrder(ahead + q + [x], sent)
    ensures InOrder(ahead + (q[1..] + [x]), sent)
  {
    assert ahead + q + [x] == ahead + [q[0]] + (q[1..] + [x]);
    InOrderCut(ahead, [q[0]], q[1..] + [x], sent);
  }

  lemma OfferKeepsInv(l: Link, x: Packet)
    requires LinkInv(l)
    ensures LinkInv(Offer(l, x))
  {
    var ahead := l.applied + l.inflight;
    InOrderSnoc(ahead + l.queue, l.sent, x);
    if |l.queue| >= QUEUE_SIZE {
      DropOldestInOrder(ahead, l.queue, l.sent + [x], x);
    } else {
      assert ahead + l.queue + [x] == ahead + (l.queue + [x]);
    }
  }

  lemma GatherKeepsInv(l: Link, n: nat)
    requires LinkInv(l) && CanGather(l, n)
    ensures LinkInv(Gather(l, n))
  {
    assert l.applied + l.inflight + l.queue == l.applied + l.queue[..n] + l.queue[n..];
  }

  lemma DeliveredKeepsInv(l: Link)
    requires LinkInv(l)
    ensures LinkInv(Delivered(l))
  {
    assert l.applied + l.inflight + [] + l.queue == l.applied + l.inflight + l.queue;
  }

  lemma FailedKeepsInv(l: Link)
    requires LinkInv(l)
    ensures LinkInv(Failed(l))
  {
    InOrderCut(l.applied, l.inflight, l.queue, l.sent);
    assert l.applied + [] + l.queue == l.applied + l.queue;
    if l.inflight == [] {
      assert l.applied + l.inflight + l.queue == l.applied + l.queue;
    }
  }

  // -------------------------------------------------------------------------
  // Every run of one link
  // -------------------------------------------------------------------------

  datatype LinkEvent = Publish(x: Packet) | Batch(n: nat) | Deliver | Lose

  function StepLink(l: Link, ev: LinkEvent): Link {
    match ev
    case Publish(x) => Offer(l, x)
    case Batch(n) => if CanGather(l, n) then Gather(l, n) else l
    case Deliver => Delivered(l)
    case Lose => Failed(l)
  }

  function Idle(src: nat, dst: nat): Link {
    Link(src, dst, [], [], [], [], 0, 0)
  }

  function PlayLink(src: nat, dst: nat, evs: seq<LinkEvent>): Link {
    if evs == [] then Idle(src, dst) else StepLink(PlayLink(src, dst, evs[..|evs| - 1]), evs[|evs| - 1])
  }

  lemma IdleInv(src: nat, dst: nat)
    ensures LinkInv(Idle(src, dst))
  {
    var none: seq<Packet> := [];
    assert Embeds([], none + none + none, none);
  }

  /**
   * With drops and losses: the queue is a contiguous suffix of what was published, batches are bounded, deliveries keep
   * the publication order, and every published packet is applied, lost, dropped, in flight or queued.
   */
  lemma {:induction false} LinkIsSafe(src: nat, dst: nat, evs: seq<LinkEvent>)
    ensures LinkInv(PlayLink(src, dst, evs))
  {
    if evs == [] {
      IdleInv(src, dst);
    } else {
      var l, ev := PlayLink(src, dst, evs[..|evs| - 1]), evs[|evs| - 1];
      LinkIsSafe(src, dst, evs[..|evs| - 1]);
      match ev {
        case Publish(x) => OfferKeepsInv(l, x);
        case Batch(n) => if CanGather(l, n) { GatherKeepsInv(l, n); }
        case Deliver => DeliveredKeepsInv(l);
        case Lose => FailedKeepsInv(l);
      }
    }
  }

  /** On its own, what the peer has applied is an in-order subsequence of what was published. */
  lemma AppliedInOrder(l: Link)
    requires LinkInv(l)
    ensures InOrder(l.applied, l.sent)
    ensures forall x :: x in l.applied ==> x in l.sent
  {
    InOrderCut(l.applied, l.inflight + l.queue, [], l.sent) by {
      assert l.applied + (l.inflight + l.queue) + [] == l.applied + l.inflight + l.queue;
    }
    assert l.applied + [] == l.applied;
    var at: seq<nat> :| Embeds(at, l.applied, l.sent);
    forall x | x in l.applied
      ensures x in l.sent
    {
      var i :| 0 <= i < |l.applied| && l.applied[i] == x;
      assert l.sent[at[i]] == x;
    }
  }

  function OfferMany(l: Link, xs: seq<Packet>): Link {
    if xs == [] then l else StepLink(OfferMany(l, xs[..|xs| - 1]), Publish(xs[|xs| - 1]))
  }

  lemma OfferWindow(l: Link, x: Packet)
    requires |l.queue| <= 1000
    ensures var l' := Offer(l, x);
      && l'.queue == LastN(l.queue + [x], 1000) && l'.sent == l.sent + [x]
      && l'.dropped == l.dropped + if |l.queue| == 1000 then 1 else 0
  {
  }

  /** Windows of bounded length, one element later. */
  lemma WindowStep<T>(q: seq<T>, xs: seq<T>, n: nat)
    requires xs != []
    ensures var last := |xs| - 1;
      && LastN(LastN(q + xs[..last], n) + [xs[last]], n) == LastN(q + xs, n)
      && |LastN(q + xs[..last], n)| == (if |q| + last <= n then |q| + last else n)
      && q + xs == q + xs[..last] + [xs[last]]
  {
    var last := |xs| - 1;
    assert q + xs == q + xs[..last] + [xs[last]];
    LastNAppend(q + xs[..last], xs[last], n);
  }

  /** After a burst a queue holds the latest 1,000 packets, and the rest, no more, are counted as dropped. */
  lemma {:induction false} BurstKeepsLatest(l: Link, xs: seq<Packet>)
    requires |l.queue| <= 1000
    ensures var l' := OfferMany(l, xs);
      && l'.queue == LastN(l.queue + xs, 1000)
      && l'.dropped == l.dropped + (if |l.queue| + |xs| <= 1000 then 0 else |l.queue| + |xs| - 1000)
      && l'.sent == l.sent + xs
  {
    if xs == [] {
      assert l.queue + xs == l.queue && l.sent + xs == l.sent;
    } else {
      var n := |xs| - 1;
      BurstKeepsLatest(l, xs[..n]);
      OfferWindow(OfferMany(l, xs[..n]), xs[n]);
      WindowStep(l.queue, xs, 1000);
      WindowStep(l.sent, xs, 1000);
    }
  }

  /**
   * Between two posts a link takes any batch of 1 to 100 queued packets, in order, and none otherwise; the post then
   * applies all of it or loses all of it.
   */
  lemma TakesAnyBatch(l: Link, n: nat)
    ensures var taken := StepLink(l, Batch(n));
      var posted, lost := StepLink(taken, Deliver), StepLink(taken, Lose);
      if l.inflight == [] && 1 <= n <= 100 && n <= |l.queue|
      then
        && taken.inflight + taken.queue == l.queue && |taken.inflight| == n
        && posted.applied == l.applied + taken.inflight && posted.lost == l.lost
        && lost.applied == l.applied && lost.lost == l.lost + n
        && posted.inflight == lost.inflight == [] && posted.queue == lost.queue == taken.queue
      else taken == l
  {
  }

  // -------------------------------------------------------------------------
  // The queues object
  // -------------------------------------------------------------------------

  class PeerQueues {
    var queues: map<string, seq<Packet>>

    constructor (peers: set<string>)
      ensures queues.Keys == peers && forall p :: p in queues ==> queues[p] == []
    {
      queues := map p | p in peers :: [];
    }

    /** One packet to every peer; a full queue gives up its oldest. */
    method Broadcast(origin: string, body: Publication)
      modifies this
      ensures queues.Keys == old(queues).Keys
      ensures forall p :: p in queues ==> queues[p] == Push(old(queues)[p], Packet(origin, body))
      ensures forall p :: p in queues && |old(queues)[p]| <= 1000 ==>
        queues[p] == LastN(old(queues)[p] + [Packet(origin, body)], 1000)
    {
      var todo := queues.Keys;
      while todo != {}
        invariant todo <= queues.Keys == old(queues).Keys
        invariant forall p :: p in queues ==>
          queues[p] == if p in todo then old(queues)[p] else Push(old(queues)[p], Packet(origin, body))
        decreases |todo|
      {
        var p :| p in todo;
        var q := queues[p];
        if |q| >= QUEUE_SIZE {
          q := q[1..];
        }
        queues := queues[p := q + [Packet(origin, body)]];
        todo := todo - {p};
      }
    }

    /** The worker's batch; open[k] tells whether the 25 ms window is still open at the k-th look at the clock. */
    method GatherBatch(peer: string, open: seq<bool>) returns (batch: seq<Packet>)
      requires peer in queues && queues[peer] != []
      modifies this
      ensures queues.Keys == old(queues).Keys
      ensures 1 <= |batch| <= MAX_BATCH && |batch| <= |old(queues)[peer]|
      ensures batch == old(queues)[peer][..|batch|] && queues[peer] == old(queues)[peer][|batch|..]
      ensures |batch| == MAX_BATCH || queues[peer] == [] || |batch| > |open| || !open[|batch| - 1]
      ensures |open| >= 100 && (forall k :: 0 <= k < |open| ==> open[k]) ==>
        |batch| == if |old(queues)[peer]| <= 100 then |old(queues)[peer]| else 100
      ensures forall p :: p in queues && p != peer ==> queues[p] == old(queues)[p]
    {
      var q := queues[peer];
      batch, q := [q[0]], q[1..];
      while |batch| < MAX_BATCH && |batch| <= |open| && open[|batch| - 1] && q != []
        invariant 1 <= |batch| <= MAX_BATCH && batch + q == old(queues)[peer]
        invariant queues == old(queues)
        decreases |q|
      {
        batch, q := batch + [q[0]], q[1..];
      }
      queues := queues[peer := q];
    }
  }
}
