/** Admission to the load balancer: the concurrency gate, the per-upstream counts and the bounded listener. */
module Admission {
  import opened Sequences

  // -------------------------------------------------------------------------
  // Requests: every goroutine interleaved, one shared update a step
  // -------------------------------------------------------------------------

  /** Where a request stands; an HTTP request holds a token from Gated to Leaving. */
  datatype Phase =
    | Queued
    | Gated
    | Routed(to: nat)
    | Leaving
    | Socket(to: nat)

  /** The gate's tokens, the counter of each upstream, and the counts a panicking handler has left behind. */
  datatype Gate = Gate(tokens: int, active: seq<int>, leaked: seq<nat>, requests: map<nat, Phase>)

  datatype Event =
    | Arrive(r: nat)
    | Acquire(r: nat)
    | Shed(r: nat)
    | Route(r: nat, b: nat)
    | NoBackend(r: nat)
    | Finish(r: nat)
    | Panic(r: nat)
    | Release(r: nat)
    | OpenSocket(r: nat, b: nat)
    | CloseSocket(r: nat)
    | PanicSocket(r: nat)

  predicate At(g: Gate, r: nat, p: Phase) {
    r in g.requests && g.requests[r] == p
  }

  predicate Enabled(maxInFlight: nat, g: Gate, ev: Event) {
    && |g.active| == |g.leaked|
    && match ev
       case Arrive(r) => r !in g.requests
       case Acquire(r) => At(g, r, Queued) && g.tokens < maxInFlight
       case Shed(r) => At(g, r, Queued)
       case Route(r, b) => At(g, r, Gated) && b < |g.active|
       case NoBackend(r) => At(g, r, Gated) && g.active == []
       case Finish(r) => r in g.requests && g.requests[r].Routed? && g.requests[r].to < |g.active|
       case Panic(r) => r in g.requests && g.requests[r].Routed? && g.requests[r].to < |g.active|
       case Release(r) => At(g, r, Leaving)
       case OpenSocket(r, b) => r !in g.requests && b < |g.active|
       case CloseSocket(r) => r in g.requests && g.requests[r].Socket? && g.requests[r].to < |g.active|
       case PanicSocket(r) => r in g.requests && g.requests[r].Socket? && g.requests[r].to < |g.active|
  }

  function Next(maxInFlight: nat, g: Gate, ev: Event): Gate
    requires Enabled(maxInFlight, g, ev)
  {
    match ev
    case Arrive(r) => g.(requests := g.requests[r := Queued])
    case Acquire(r) => g.(tokens := g.tokens + 1, requests := g.requests[r := Gated])
    case Shed(r) => g.(requests := g.requests - {r})
    case Route(r, b) => g.(active := g.active[b := g.active[b] + 1], requests := g.requests[r := Routed(b)])
    case NoBackend(r) => g.(requests := g.requests[r := Leaving])
    case Finish(r) =>
      var b := g.requests[r].to;
      g.(active := g.active[b := g.active[b] - 1], requests := g.requests[r := Leaving])
    case Panic(r) =>
      // the deferred release still runs, the decrement after the proxy call does not
      var b := g.requests[r].to;
      g.(leaked := g.leaked[b := g.leaked[b] + 1], requests := g.requests[r := Leaving])
    case Release(r) => g.(tokens := g.tokens - 1, requests := g.requests - {r})
    case OpenSocket(r, b) => g.(active := g.active[b := g.active[b] + 1], requests := g.requests[r := Socket(b)])
    case CloseSocket(r) =>
      var b := g.requests[r].to;
      g.(active := g.active[b := g.active[b] - 1], requests := g.requests - {r})
    case PanicSocket(r) =>
      var b := g.requests[r].to;
      g.(leaked := g.leaked[b := g.leaked[b] + 1], requests := g.requests - {r})
  }

  function Start(backends: nat): Gate {
    Gate(0, seq(backends, _ => 0), seq(backends, _ => 0), map[])
  }

  /** Any interleaving; an event that cannot happen is skipped. */
  function Play(maxInFlight: nat, backends: nat, evs: seq<Event>): Gate {
    if evs == [] then Start(backends)
    else
      var g := Play(maxInFlight, backends, evs[..|evs| - 1]);
      if Enabled(maxInFlight, g, evs[|evs| - 1]) then Next(maxInFlight, g, evs[|evs| - 1]) else g
  }

  /** The gated HTTP requests in progress. */
  function Holders(g: Gate): set<nat> {
    set r | r in g.requests && (g.requests[r].Gated? || g.requests[r].Routed? || g.requests[r].Leaving?)
  }

  /** The HTTP and WebSocket requests currently routed to upstream b. */
  function RoutedTo(g: Gate, b: nat): set<nat> {
    set r | r in g.requests && (g.requests[r] == Routed(b) || g.requests[r] == Socket(b))
  }

  ghost predicate GateInv(maxInFlight: nat, g: Gate) {
    && |g.active| == |g.leaked|
    && g.tokens == |Holders(g)| <= maxInFlight
    && forall b: nat :: b < |g.active| ==> g.active[b] == |RoutedTo(g, b)| + g.leaked[b]
  }

  ghost predicate SameBut(g: Gate, g': Gate, r: nat) {
    forall q :: q != r ==>
      (q in g.requests <==> q in g'.requests) && (q in g.requests ==> g'.requests[q] == g.requests[q])
  }

  lemma HoldersMove(g: Gate, g': Gate, r: nat)
    requires SameBut(g, g', r)
    ensures |Holders(g')| == |Holders(g)|
      - (if r in Holders(g) then 1 else 0) + (if r in Holders(g') then 1 else 0)
  {
    forall q
      ensures q in Holders(g) - {r} <==> q in Holders(g') - {r}
    {
    }
    DifferAt(Holders(g), Holders(g'), r);
  }

  lemma RoutedMove(g: Gate, g': Gate, r: nat, b: nat)
    requires SameBut(g, g', r)
    ensures |RoutedTo(g', b)| == |RoutedTo(g, b)|
      - (if r in RoutedTo(g, b) then 1 else 0) + (if r in RoutedTo(g', b) then 1 else 0)
  {
    forall q
      ensures q in RoutedTo(g, b) - {r} <==> q in RoutedTo(g', b) - {r}
    {
    }
    DifferAt(RoutedTo(g, b), RoutedTo(g', b), r);
  }

  lemma NextKeepsGate(maxInFlight: nat, g: Gate, ev: Event)
    requires GateInv(maxInFlight, g) && Enabled(maxInFlight, g, ev)
    ensures GateInv(maxInFlight, Next(maxInFlight, g, ev))
  {
    var g' := Next(maxInFlight, g, ev);
    HoldersMove(g, g', ev.r);
    forall b: nat | b < |g.active|
      ensures g'.active[b] == |RoutedTo(g', b)| + g'.leaked[b]
    {
      RoutedMove(g, g', ev.r, b);
    }
  }

  lemma {:induction false} GateIsExact(maxInFlight: nat, backends: nat, evs: seq<Event>)
    ensures GateInv(maxInFlight, Play(maxInFlight, backends, evs))
  {
    if evs == [] {
      assert Holders(Start(backends)) == {};
      assert forall b :: RoutedTo(Start(backends), b) == {};
    } else {
      var g := Play(maxInFlight, backends, evs[..|evs| - 1]);
      GateIsExact(maxInFlight, backends, evs[..|evs| - 1]);
      if Enabled(maxInFlight, g, evs[|evs| - 1]) {
        NextKeepsGate(maxInFlight, g, evs[|evs| - 1]);
      }
    }
  }

  lemma {:induction false} BackendsFixed(maxInFlight: nat, backends: nat, evs: seq<Event>)
    ensures |Play(maxInFlight, backends, evs).active| == |Play(maxInFlight, backends, evs).leaked| == backends
  {
    if evs == [] {
    } else {
      BackendsFixed(maxInFlight, backends, evs[..|evs| - 1]);
    }
  }

  /**
   * Over all interleavings: the tokens are the gated requests in progress and never too many, and an upstream's counter
   * is the requests routed to it plus those whose handler has panicked, so exact if and only if none has.
   */
  lemma AdmissionConserves(maxInFlight: nat, backends: nat, evs: seq<Event>, b: nat)
    requires b < backends
    ensures var g := Play(maxInFlight, backends, evs);
      && |g.active| == |g.leaked| == backends
      && g.tokens == |Holders(g)| <= maxInFlight
      && g.active[b] == |RoutedTo(g, b)| + g.leaked[b]
      && (g.active[b] == |RoutedTo(g, b)| <==> g.leaked[b] == 0)
  {
    BackendsFixed(maxInFlight, backends, evs);
    GateIsExact(maxInFlight, backends, evs);
  }

  lemma PlaySnoc(maxInFlight: nat, backends: nat, evs: seq<Event>, ev: Event)
    ensures var g := Play(maxInFlight, backends, evs);
      Play(maxInFlight, backends, evs + [ev]) == if Enabled(maxInFlight, g, ev) then Next(maxInFlight, g, ev) else g
  {
    assert (evs + [ev])[..|evs + [ev]| - 1] == evs;
  }

  /** One request whose handler panics: it is gone, the token is back, and the upstream counts one request for ever. */
  lemma PanicLeaks(maxInFlight: nat, backends: nat, r: nat)
    requires maxInFlight >= 1 && backends >= 1
    ensures var g := Play(maxInFlight, backends, [Arrive(r), Acquire(r), Route(r, 0), Panic(r), Release(r)]);
      && g.requests == map[] && g.tokens == 0
      && |g.active| == backends && g.active[0] == 1 && RoutedTo(g, 0) == {}
  {
    var evs := [Arrive(r), Acquire(r), Route(r, 0), Panic(r), Release(r)];
    PlaySnoc(maxInFlight, backends, [], evs[0]);
    PlaySnoc(maxInFlight, backends, [evs[0]], evs[1]);
    PlaySnoc(maxInFlight, backends, [evs[0], evs[1]], evs[2]);
    PlaySnoc(maxInFlight, backends, [evs[0], evs[1], evs[2]], evs[3]);
    PlaySnoc(maxInFlight, backends, [evs[0], evs[1], evs[2], evs[3]], evs[4]);
    assert [] + [evs[0]] == [evs[0]];
    assert [evs[0]] + [evs[1]] == [evs[0], evs[1]];
    assert [evs[0], evs[1]] + [evs[2]] == [evs[0], evs[1], evs[2]];
    assert [evs[0], evs[1], evs[2]] + [evs[3]] == [evs[0], evs[1], evs[2], evs[3]];
    assert [evs[0], evs[1], evs[2], evs[3]] + [evs[4]] == evs;
  }

  /** The same for a WebSocket. */
  lemma SocketPanicLeaks(maxInFlight: nat, backends: nat, r: nat, b: nat)
    requires b < backends
    ensures var g := Play(maxInFlight, backends, [OpenSocket(r, b), PanicSocket(r)]);
      && g.requests == map[] && g.tokens == 0
      && |g.active| == |g.leaked| == backends && g.active[b] == g.leaked[b] == 1 && RoutedTo(g, b) == {}
  {
    var evs := [OpenSocket(r, b), PanicSocket(r)];
    PlaySnoc(maxInFlight, backends, [], evs[0]);
    PlaySnoc(maxInFlight, backends, [evs[0]], evs[1]);
    assert [] + [evs[0]] == [evs[0]];
    assert [evs[0]] + [evs[1]] == evs;
  }

  /** In every run a queued request gets a token exactly while fewer than maxInFlight requests hold one. */
  lemma AcquireExact(maxInFlight: nat, backends: nat, evs: seq<Event>, r: nat)
    requires At(Play(maxInFlight, backends, evs), r, Queued)
    ensures var g, g' := Play(maxInFlight, backends, evs), Play(maxInFlight, backends, evs + [Acquire(r)]);
      && (|Holders(g)| < maxInFlight ==> At(g', r, Gated))
      && (|Holders(g)| >= maxInFlight ==> g' == g)
  {
    GateIsExact(maxInFlight, backends, evs);
    PlaySnoc(maxInFlight, backends, evs, Acquire(r));
  }

  /** The first n requests, all of them past the gate. */
  ghost predicate FirstGated(g: Gate, n: nat) {
    (forall r: nat :: r in g.requests <==> r < n) && forall r: nat :: r < n ==> At(g, r, Gated)
  }

  /** The gate fills up: any number of tokens up to the maximum can be held at once. */
  lemma {:induction false} GateFills(maxInFlight: nat, backends: nat, n: nat) returns (evs: seq<Event>)
    requires n <= maxInFlight
    ensures var g := Play(maxInFlight, backends, evs);
      FirstGated(g, n) && g.tokens == |Holders(g)| == n
  {
    if n == 0 {
      evs := [];
      assert Holders(Start(backends)) == {};
    } else {
      var init := GateFills(maxInFlight, backends, n - 1);
      BackendsFixed(maxInFlight, backends, init);
      PlaySnoc(maxInFlight, backends, init, Arrive(n - 1));
      PlaySnoc(maxInFlight, backends, init + [Arrive(n - 1)], Acquire(n - 1));
      evs := init + [Arrive(n - 1)] + [Acquire(n - 1)];
      GateIsExact(maxInFlight, backends, evs);
      var g0, g := Play(maxInFlight, backends, init), Play(maxInFlight, backends, evs);
      assert g == g0.(tokens := g0.tokens + 1, requests := g0.requests[n - 1 := Gated]);
      forall r: nat | r < n
        ensures At(g, r, Gated)
      {
        assert r < n - 1 ==> At(g0, r, Gated);
      }
    }
  }

  /** Requests are routed to upstreams that exist. */
  lemma {:induction false} TargetsExist(maxInFlight: nat, backends: nat, evs: seq<Event>)
    ensures var g := Play(maxInFlight, backends, evs);
      forall r :: r in g.requests ==>
        (g.requests[r].Routed? ==> g.requests[r].to < backends)
        && (g.requests[r].Socket? ==> g.requests[r].to < backends)
  {
    if evs == [] {
    } else {
      TargetsExist(maxInFlight, backends, evs[..|evs| - 1]);
      BackendsFixed(maxInFlight, backends, evs[..|evs| - 1]);
    }
  }

  /** A gated request can be routed to any upstream, and a WebSocket opened to any without a token. */
  lemma RoutesAnywhere(maxInFlight: nat, backends: nat, evs: seq<Event>, r: nat, b: nat)
    requires b < backends
    ensures var g := Play(maxInFlight, backends, evs);
      && |g.active| == backends
      && (At(g, r, Gated) ==>
            var g' := Play(maxInFlight, backends, evs + [Route(r, b)]);
            At(g', r, Routed(b)) && g'.tokens == g.tokens && g'.active == g.active[b := g.active[b] + 1])
      && (r !in g.requests ==>
            var g' := Play(maxInFlight, backends, evs + [OpenSocket(r, b)]);
            At(g', r, Socket(b)) && g'.tokens == g.tokens && g'.active == g.active[b := g.active[b] + 1])
  {
    BackendsFixed(maxInFlight, backends, evs);
    PlaySnoc(maxInFlight, backends, evs, Route(r, b));
    PlaySnoc(maxInFlight, backends, evs, OpenSocket(r, b));
  }

  lemma PlayLists(maxInFlight: nat, backends: nat, evs: seq<Event>, e1: Event, e2: Event, e3: Event)
    ensures Play(maxInFlight, backends, evs + [e1, e2]) == Play(maxInFlight, backends, evs + [e1] + [e2])
    ensures Play(maxInFlight, backends, evs + [e1, e2, e3]) == Play(maxInFlight, backends, evs + [e1] + [e2] + [e3])
  {
    assert evs + [e1, e2] == evs + [e1] + [e2];
    assert evs + [e1, e2, e3] == evs + [e1] + [e2] + [e3];
  }

  /** r is done, no other request has moved, and nothing has leaked. */
  ghost predicate Completed(g: Gate, g': Gate, r: nat) {
    r !in g'.requests && SameBut(g, g', r) && g'.leaked == g.leaked
  }

  /** From every state of every run each request in progress can be completed on its own, by way of any upstream. */
  lemma CanComplete(maxInFlight: nat, backends: nat, evs: seq<Event>, r: nat, b: nat) returns (more: seq<Event>)
    requires r in Play(maxInFlight, backends, evs).requests && (backends == 0 || b < backends)
    ensures |more| <= 3 && forall ev :: ev in more ==> ev.r == r
    ensures Completed(Play(maxInFlight, backends, evs), Play(maxInFlight, backends, evs + more), r)
  {
    BackendsFixed(maxInFlight, backends, evs);
    TargetsExist(maxInFlight, backends, evs);
    match Play(maxInFlight, backends, evs).requests[r] {
      case Queued =>
        more := [Shed(r)];
        PlaySnoc(maxInFlight, backends, evs, Shed(r));
      case Gated =>
        more := CompleteGated(maxInFlight, backends, evs, r, b);
      case Routed(_) =>
        more := [Finish(r), Release(r)];
        PlaySnoc(maxInFlight, backends, evs, Finish(r));
        PlaySnoc(maxInFlight, backends, evs + [Finish(r)], Release(r));
        PlayLists(maxInFlight, backends, evs, Finish(r), Release(r), Release(r));
      case Leaving =>
        more := [Release(r)];
        PlaySnoc(maxInFlight, backends, evs, Release(r));
      case Socket(_) =>
        more := [CloseSocket(r)];
        PlaySnoc(maxInFlight, backends, evs, CloseSocket(r));
    }
  }

  lemma CompleteGated(maxInFlight: nat, backends: nat, evs: seq<Event>, r: nat, b: nat) returns (more: seq<Event>)
    requires At(Play(maxInFlight, backends, evs), r, Gated) && (backends == 0 || b < backends)
    ensures |more| <= 3 && forall ev :: ev in more ==> ev.r == r
    ensures Completed(Play(maxInFlight, backends, evs), Play(maxInFlight, backends, evs + more), r)
  {
    BackendsFixed(maxInFlight, backends, evs);
    if backends == 0 {
      more := [NoBackend(r), Release(r)];
      PlaySnoc(maxInFlight, backends, evs, NoBackend(r));
      PlaySnoc(maxInFlight, backends, evs + [NoBackend(r)], Release(r));
      PlayLists(maxInFlight, backends, evs, NoBackend(r), Release(r), Release(r));
    } else {
      more := [Route(r, b), Finish(r), Release(r)];
      PlaySnoc(maxInFlight, backends, evs, Route(r, b));
      PlaySnoc(maxInFlight, backends, evs + [Route(r, b)], Finish(r));
      PlaySnoc(maxInFlight, backends, evs + [Route(r, b)] + [Finish(r)], Release(r));
      PlayLists(maxInFlight, backends, evs, Route(r, b), Finish(r), Release(r));
    }
  }

  // -------------------------------------------------------------------------
  // The bounded listener, any number of accepts and closes interleaved
  // -------------------------------------------------------------------------

  /** `deciding` maps a connection already counted to the count its accept saw. */
  datatype Listener = Listener(counter: int, deciding: map<nat, int>, open: set<nat>, gone: set<nat>)

  datatype ConnEvent = Count(c: nat) | Decide(c: nat) | CloseConn(c: nat)

  function ListenerNext(maxConns: nat, l: Listener, ev: ConnEvent): Listener {
    match ev
    case Count(c) =>
      if c in l.deciding || c in l.open || c in l.gone then l
      else l.(counter := l.counter + 1, deciding := l.deciding[c := l.counter + 1])
    case Decide(c) =>
      if c !in l.deciding then l
      else if l.deciding[c] > maxConns
      then Listener(l.counter - 1, l.deciding - {c}, l.open, l.gone + {c})
      else l.(deciding := l.deciding - {c}, open := l.open + {c})
    case CloseConn(c) =>
      // only the first close of a connection counts it out
      if c in l.open then Listener(l.counter - 1, l.deciding, l.open - {c}, l.gone + {c}) else l
  }

  function ListenerPlay(maxConns: nat, evs: seq<ConnEvent>): Listener {
    if evs == [] then Listener(0, map[], {}, {})
    else ListenerNext(maxConns, ListenerPlay(maxConns, evs[..|evs| - 1]), evs[|evs| - 1])
  }

  /** The connections counted and sure to be admitted, but not yet handed out. */
  function Admitting(maxConns: nat, l: Listener): set<nat> {
    set c | c in l.deciding && l.deciding[c] <= maxConns
  }

  ghost predicate ListenerInv(maxConns: nat, l: Listener) {
    && l.open !! l.deciding.Keys && l.gone !! l.open && l.gone !! l.deciding.Keys
    && l.counter == |l.open| + |l.deciding.Keys|
    && |l.open| + |Admitting(maxConns, l)| <= maxConns
  }

  lemma AdmittingSubset(maxConns: nat, l: Listener)
    ensures |Admitting(maxConns, l)| <= |l.deciding.Keys|
  {
    var a := Admitting(maxConns, l);
    assert l.deciding.Keys == a + (l.deciding.Keys - a);
  }

  lemma ListenerKeepsInv(maxConns: nat, l: Listener, ev: ConnEvent)
    requires ListenerInv(maxConns, l)
    ensures ListenerInv(maxConns, ListenerNext(maxConns, l, ev))
  {
    match ev {
      case Count(c) => CountKeepsInv(maxConns, l, c);
      case Decide(c) => DecideKeepsInv(maxConns, l, c);
      case CloseConn(c) =>
        if c in l.open {
          DifferAt(l.open, l.open - {c}, c);
        }
    }
  }

  /** What adding or removing one deciding connection does to the two counts. */
  lemma DecidingCounts(maxConns: nat, l: Listener, l': Listener, c: nat)
    requires l'.deciding - {c} == l.deciding - {c}
    ensures |l'.deciding.Keys| == |l.deciding.Keys|
      - (if c in l.deciding then 1 else 0) + (if c in l'.deciding then 1 else 0)
    ensures |Admitting(maxConns, l')| == |Admitting(maxConns, l)|
      - (if c in Admitting(maxConns, l) then 1 else 0) + (if c in Admitting(maxConns, l') then 1 else 0)
  {
    forall q | q != c
      ensures q in l.deciding <==> q in l'.deciding
      ensures q in l.deciding ==> l.deciding[q] == l'.deciding[q]
    {
      assert q in l.deciding <==> q in l.deciding - {c};
      assert q in l'.deciding <==> q in l'.deciding - {c};
    }
    assert l.deciding.Keys - {c} == l'.deciding.Keys - {c};
    DifferAt(l.deciding.Keys, l'.deciding.Keys, c);
    assert Admitting(maxConns, l) - {c} == Admitting(maxConns, l') - {c};
    DifferAt(Admitting(maxConns, l), Admitting(maxConns, l'), c);
  }

  lemma CountKeepsInv(maxConns: nat, l: Listener, c: nat)
    requires ListenerInv(maxConns, l)
    ensures ListenerInv(maxConns, ListenerNext(maxConns, l, Count(c)))
  {
    var l' := ListenerNext(maxConns, l, Count(c));
    AdmittingSubset(maxConns, l);
    if l' != l {
      assert l'.deciding - {c} == l.deciding - {c};
      DecidingCounts(maxConns, l, l', c);
    }
  }

  lemma DecideKeepsInv(maxConns: nat, l: Listener, c: nat)
    requires ListenerInv(maxConns, l)
    ensures ListenerInv(maxConns, ListenerNext(maxConns, l, Decide(c)))
  {
    var l' := ListenerNext(maxConns, l, Decide(c));
    if c in l.deciding {
      assert l'.deciding - {c} == l.deciding - {c};
      DecidingCounts(maxConns, l, l', c);
      assert c !in l.open && c !in l'.deciding;
      if l.deciding[c] > maxConns {
        assert l'.open == l.open;
      } else {
        DifferAt(l.open, l'.open, c);
      }
    }
  }

  lemma {:induction false} ListenerRunInv(maxConns: nat, evs: seq<ConnEvent>)
    ensures ListenerInv(maxConns, ListenerPlay(maxConns, evs))
  {
    if evs == [] {
    } else {
      ListenerRunInv(maxConns, evs[..|evs| - 1]);
      ListenerKeepsInv(maxConns, ListenerPlay(maxConns, evs[..|evs| - 1]), evs[|evs| - 1]);
    }
  }

  /** Open connections never exceed the bound, however often closed, and between accepts the counter is exact. */
  lemma ListenerIsBounded(maxConns: nat, evs: seq<ConnEvent>)
    ensures var l := ListenerPlay(maxConns, evs);
      && |l.open| <= maxConns
      && l.counter == |l.open| + |l.deciding.Keys|
  {
    ListenerRunInv(maxConns, evs);
  }

  /** Counting and deciding without anything in between admits a connection exactly while fewer than maxConns count. */
  lemma AdmitIsSteps(maxConns: nat, l: Listener, c: nat)
    requires c !in l.deciding && c !in l.open && c !in l.gone
    ensures ListenerNext(maxConns, ListenerNext(maxConns, l, Count(c)), Decide(c))
      == if l.counter < maxConns then l.(counter := l.counter + 1, open := l.open + {c}) else l.(gone := l.gone + {c})
  {
    var counted := ListenerNext(maxConns, l, Count(c));
    assert counted.deciding - {c} == l.deciding;
  }

  /** A full listener rejects, and admits again once any open connection has been closed, once and not more often. */
  lemma ClosingMakesRoom(maxConns: nat, l: Listener, c: nat, d: nat)
    requires l.counter == maxConns && l.deciding == map[] && c in l.open && d !in l.open + l.gone
    ensures var closed := ListenerNext(maxConns, l, CloseConn(c));
      && d in ListenerNext(maxConns, ListenerNext(maxConns, l, Count(d)), Decide(d)).gone
      && d in ListenerNext(maxConns, ListenerNext(maxConns, closed, Count(d)), Decide(d)).open
      && closed.open == l.open - {c} && closed.counter == maxConns - 1
      && ListenerNext(maxConns, closed, CloseConn(c)) == closed
  {
    AdmitIsSteps(maxConns, l, d);
    AdmitIsSteps(maxConns, ListenerNext(maxConns, l, CloseConn(c)), d);
  }

  // -------------------------------------------------------------------------
  // The objects
  // -------------------------------------------------------------------------

  class BoundedListener {
    const maxConns: int
    var activeConns: int

    constructor (maxConns: int)
      ensures this.maxConns == maxConns && activeConns == 0
    {
      this.maxConns := maxConns;
      activeConns := 0;
    }

    /** One accepted socket: counted, and counted out again when that was one too many. */
    method Admit() returns (conn: TrackedConn?)
      modifies this
      ensures conn != null <==> old(activeConns) < maxConns
      ensures activeConns == old(activeConns) + if conn != null then 1 else 0
      ensures conn != null ==> fresh(conn) && conn.listener == this && !conn.closed
    {
      activeConns := activeConns + 1;
      if activeConns > maxConns {
        activeConns := activeConns - 1;
        return null;
      }
      conn := new TrackedConn(this);
    }
  }

  class TrackedConn {
    const listener: BoundedListener
    var closed: bool

    constructor (listener: BoundedListener)
      ensures this.listener == listener && !closed
    {
      this.listener := listener;
      closed := false;
    }

    method Close()
      modifies this, listener
      ensures closed
      ensures listener.activeConns == old(listener.activeConns) - if old(closed) then 0 else 1
    {
      if !closed {
        closed := true;
        listener.activeConns := listener.activeConns - 1;
      }
    }
  }
}
