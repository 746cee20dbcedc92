/**
 * get_feed_bytes against concurrent puts (server/store.py): the snapshot, the three assignments after it and every
 * read of the cached bytes are separate steps, and a put may fall between any two of them.
 */
module FeedRace {
  import opened FeedCache
  import FeedBytes

  /** Where the thread that holds the serialization lock stands. */
  datatype Phase =
    | Idle
    | Checked(now: real)
    | Snapped(now: real, msgs: seq<Entry>, of: nat)
    | Installed(now: real)
    | Stamped

  datatype Reading = Reading(version: nat, feed: seq<Entry>)

  /**
   * `before` lists every earlier state of the deque; `version` is the one the bytes serialize; `missed` counts the puts
   * admitted between the latest snapshot and its clearing of the flag; `failures` counts failed serializations.
   */
  datatype Race = Race(
    cache: Cache, dirty: bool, feed: seq<Entry>, last: real, phase: Phase,
    before: seq<seq<Entry>>, version: nat, missed: nat, failures: nat, readings: seq<Reading>)

  const START := Race(EMPTY, true, [], 0.0, Idle, [], 0, 0, 0, [])

  /** Every state the deque has had, the current one last. */
  function Passed(s: Race): seq<seq<Entry>> {
    s.before + [s.cache.entries]
  }

  datatype Event = Post(e: Entry) | Begin(now: real) | Snap | Install(ok: bool) | Stamp | Clear | Read

  function Step(b: Bounds, s: Race, ev: Event): Race {
    match ev
    case Post(e) =>
      if e.id in s.cache.ids then s
      else
        var cache := Insert(b, s.cache, e);
        s.(cache := cache, dirty := true, before := Passed(s),
           missed := if s.phase.Idle? || s.phase.Checked? then s.missed else s.missed + 1)
    case Begin(now) =>
      if s.phase.Idle? && s.dirty && now - s.last >= 1.0 then s.(phase := Checked(now)) else s
    case Snap =>
      if s.phase.Checked?
      then s.(phase := Snapped(s.phase.now, s.cache.entries, |s.before|), missed := 0) else s
    case Install(ok) =>
      if !s.phase.Snapped? then s
      else if ok then s.(feed := s.phase.msgs, version := s.phase.of, phase := Installed(s.phase.now))
      else s.(feed := [], version := 0, phase := Idle, failures := s.failures + 1)
    case Stamp =>
      if s.phase.Installed? then s.(last := s.phase.now, phase := Stamped) else s
    case Clear =>
      if s.phase.Stamped? then s.(dirty := false, phase := Idle) else s
    case Read =>
      s.(readings := s.readings + [Reading(s.version, s.feed)])
  }

  function Play(b: Bounds, s: Race, evs: seq<Event>): Race {
    if evs == [] then s else Step(b, Play(b, s, evs[..|evs| - 1]), evs[|evs| - 1])
  }

  ghost predicate Inv(s: Race) {
    && Passed(s)[0] == []
    && s.version <= |s.before| && s.feed == Passed(s)[s.version]
    && (!s.phase.Idle? ==> s.dirty)
    && (s.phase.Snapped? ==>
          && s.version <= s.phase.of && s.phase.of + s.missed == |s.before|
          && s.phase.msgs == Passed(s)[s.phase.of])
    && (s.phase.Installed? || s.phase.Stamped? || !s.dirty ==> s.version + s.missed == |s.before|)
    && (forall r :: r in s.readings ==> r.version <= |s.before| && r.feed == Passed(s)[r.version])
    && (s.failures == 0 ==> forall r :: r in s.readings ==> r.version <= s.version)
    && (s.failures == 0 ==>
          forall i, j :: 0 <= i < j < |s.readings| ==> s.readings[i].version <= s.readings[j].version)
  }

  lemma StepKeepsInv(b: Bounds, s: Race, ev: Event)
    requires Inv(s)
    ensures Inv(Step(b, s, ev))
  {
  }

  lemma {:induction false} PlayKeepsInv(b: Bounds, s: Race, evs: seq<Event>)
    requires Inv(s)
    ensures Inv(Play(b, s, evs))
  {
    if evs == [] {
    } else {
      PlayKeepsInv(b, s, evs[..|evs| - 1]);
      StepKeepsInv(b, Play(b, s, evs[..|evs| - 1]), evs[|evs| - 1]);
    }
  }

  /** Every read serves the bytes as they stand, a state the deque passed through; without failures none is older. */
  lemma ReadingsAreRealAndOrdered(b: Bounds, evs: seq<Event>)
    ensures var s := Play(b, START, evs);
      && (forall r :: r in s.readings ==> r.version <= |s.before| && r.feed == Passed(s)[r.version])
      && (s.failures == 0 ==>
            forall i, j :: 0 <= i < j < |s.readings| ==> s.readings[i].version <= s.readings[j].version)
      && Play(b, START, evs + [Read]).readings == s.readings + [Reading(s.version, s.feed)]
  {
    PlayKeepsInv(b, START, evs);
    assert (evs + [Read])[..|evs + [Read]| - 1] == evs;
  }

  /**
   * With a clean flag the bytes serialize the latest state of the deque exactly when no put was admitted between the
   * snapshot and the clearing of the flag; in general they lag by as many states as puts were.
   */
  lemma CleanMeansCurrentExact(b: Bounds, evs: seq<Event>)
    ensures var s := Play(b, START, evs);
      !s.dirty ==>
        && s.version <= |s.before| && s.feed == Passed(s)[s.version]
        && |s.before| - s.version == s.missed
        && (s.version == |s.before| <==> s.missed == 0)
  {
    PlayKeepsInv(b, START, evs);
  }

  predicate Admits(b: Bounds, s: Race, ev: Event) {
    ev.Post? && ev.e.id !in s.cache.ids
  }

  /** Once clean, the served bytes change only after another admitted put, however often the feed is fetched. */
  lemma {:induction false} CleanStaysUntilNextPut(b: Bounds, s: Race, evs: seq<Event>)
    requires Inv(s) && !s.dirty
    requires forall k :: 0 <= k < |evs| ==> !Admits(b, s, evs[k])
    ensures var s' := Play(b, s, evs);
      && Inv(s') && !s'.dirty && s'.feed == s.feed && s'.version == s.version && s'.cache == s.cache
  {
    if evs == [] {
    } else {
      CleanStaysUntilNextPut(b, s, evs[..|evs| - 1]);
      StepKeepsInv(b, Play(b, s, evs[..|evs| - 1]), evs[|evs| - 1]);
      assert !Admits(b, s, evs[|evs| - 1]);
    }
  }

  /** The lost wake-up is real: a put inside the window leaves the flag clean and the bytes without the message. */
  lemma LostUpdate(b: Bounds, e: Entry, evs: seq<Event>)
    requires b.size >= 1
    requires forall k :: 0 <= k < |evs| ==> evs[k].Post? ==> evs[k].e.id == e.id
    ensures
      var snapped := Step(b, Step(b, START, Begin(1.0)), Snap);
      var installed := Step(b, Step(b, snapped, Post(e)), Install(true));
      var s := Step(b, Step(b, installed, Stamp), Clear);
      && !s.dirty && s.cache.entries == [e] && s.feed == [] && Play(b, s, evs).feed == []
  {
    var snapped := Step(b, Step(b, START, Begin(1.0)), Snap);
    var installed := Step(b, Step(b, snapped, Post(e)), Install(true));
    var s := Step(b, Step(b, installed, Stamp), Clear);
    assert s.cache.entries == [e];
    assert Passed(s)[0] == [];
    assert e.id in s.cache.ids || Overflows(b, EMPTY, e);
    CleanStaysUntilNextPut(b, s, evs);
  }

  ghost function Visible(s: Race): FeedBytes.FeedState {
    FeedBytes.FeedState(s.cache, s.dirty, s.feed, s.last)
  }

  /** With nothing in between, the five steps are the atomic fetch. */
  lemma UninterruptedIsAtomic(b: Bounds, s: Race, now: real, ok: bool)
    requires s.phase.Idle?
    ensures
      var installed := Step(b, Step(b, Step(b, s, Begin(now)), Snap), Install(ok));
      var s' := Step(b, Step(b, installed, Stamp), Clear);
      s'.phase.Idle? && Visible(s') == FeedBytes.Fetch(Visible(s), now, now, ok)
  {
  }
}
