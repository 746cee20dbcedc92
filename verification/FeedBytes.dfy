/** The cache object with its pre-serialized feed, and how fresh a served feed is (server/store.py). */
module FeedBytes {
  import opened Sequences
  import opened FeedCache

  /** The cached bytes are represented by the list of entries they serialize. */
  datatype FeedState = FeedState(cache: Cache, dirty: bool, feed: seq<Entry>, last: real)

  const START := FeedState(EMPTY, true, [], 0.0)

  function Admit(b: Bounds, s: FeedState, e: Entry): FeedState {
    if e.id in s.cache.ids then s
    else s.(cache := Insert(b, s.cache, e), dirty := true)
  }

  function PutMessage(b: Bounds, s: FeedState, room: string, m: Message, nowMs: int): FeedState {
    if m.id == "" then s else Admit(b, s, Compact(room, m, nowMs))
  }

  predicate ServesCached(s: FeedState, now: real) {
    !s.dirty || now - s.last < 1.0
  }

  /** A fetch that reads the clock at t1 and again, under the lock, at t2; `ok` tells whether serializing succeeded. */
  function Fetch(s: FeedState, t1: real, t2: real, ok: bool): FeedState {
    if ServesCached(s, t1) || ServesCached(s, t2) then s
    else if ok then FeedState(s.cache, false, s.cache.entries, t2)
    else s.(feed := [])
  }

  function FilterRoom(s: seq<Entry>, room: string): seq<Entry> {
    if s == [] then []
    else
      var rest := FilterRoom(s[..|s| - 1], room);
      if s[|s| - 1].room == room then rest + [s[|s| - 1]] else rest
  }

  /** A put changes the cache and nothing else, and marks the feed dirty exactly when it does. */
  lemma PutMessageExact(b: Bounds, s: FeedState, room: string, m: Message, nowMs: int)
    requires b.size >= 1
    ensures var s' := PutMessage(b, s, room, m, nowMs);
      && s'.feed == s.feed && s'.last == s.last
      && s'.cache == FeedCache.Put(b, s.cache, room, m, nowMs)
      && (m.id == "" || m.id in s.cache.ids ==> s' == s)
      && (m.id != "" && m.id !in s.cache.ids ==>
            s'.dirty && s'.cache.entries == LastN(s.cache.entries + [Compact(room, m, nowMs)], b.size))
  {
  }

  class MessageCache {
    const bounds: Bounds
    var entries: seq<Entry>
    var ids: set<string>
    var dirty: bool
    var feed: seq<Entry>
    var last: real

    ghost function View(): FeedState
      reads this
    {
      FeedState(Cache(entries, ids), dirty, feed, last)
    }

    constructor (bounds: Bounds)
      ensures this.bounds == bounds && View() == START
    {
      this.bounds := bounds;
      entries, ids, dirty, feed, last := [], {}, true, [], 0.0;
    }

    method Put(room: string, m: Message, nowMs: int)
      modifies this
      ensures View() == PutMessage(bounds, old(View()), room, m, nowMs)
    {
      if m.id == "" {
        return;
      }
      var e := Compact(room, m, nowMs);
      if e.id in ids {
        return;
      }
      ids := ids + {e.id};
      if |ids| > bounds.size + bounds.slack {
        ids := {};
        for i := 0 to |entries|
          invariant entries == old(entries) && feed == old(feed) && dirty == old(dirty) && last == old(last)
          invariant ids == IdsOf(entries[..i])
        {
          assert entries[..i + 1] == entries[..i] + [entries[i]];
          IdsAppend(entries[..i], entries[i]);
          ids := ids + {entries[i].id};
        }
        assert entries[..|entries|] == entries;
      }
      entries := LastN(entries + [e], bounds.size);
      dirty := true;
    }

    /**
     * The last `limit` messages of a room; no room, or "general", means every room. A limit of 0 is no limit, and a
     * negative one leaves out that many of the oldest messages.
     */
    method Get(room: string, limit: int) returns (r: seq<Entry>)
      ensures var all := if room == "" || room == "general" then entries else FilterRoom(entries, room);
        r == if limit > 0 then LastN(all, limit) else if -limit <= |all| then all[-limit..] else []
    {
      var target := entries;
      if room != "" && room != "general" {
        target := [];
        for i := 0 to |entries|
          invariant target == FilterRoom(entries[..i], room)
        {
          assert entries[..i + 1][..i] == entries[..i];
          if entries[i].room == room {
            target := target + [entries[i]];
          }
        }
        assert entries[..|entries|] == entries;
      }
      if limit >= |target| {
        return target;
      }
      var from := if limit > 0 then |target| - limit else -limit;
      r := if from <= |target| then target[from..] else [];
    }

    method GetFeedBytes(t1: real, t2: real, ok: bool) returns (r: seq<Entry>)
      modifies this
      ensures View() == Fetch(old(View()), t1, t2, ok) && r == View().feed
    {
      if !dirty || t1 - last < 1.0 {
        return feed;
      }
      if !dirty || t2 - last < 1.0 {
        return feed;
      }
      if ok {
        feed, last, dirty := entries, t2, false;
      } else {
        feed := [];
      }
      r := feed;
    }
  }

  /** A room's messages keep their admission order, and are exactly the entries of that room. */
  lemma {:induction false} FilterRoomExact(s: seq<Entry>, room: string)
    ensures InOrder(FilterRoom(s, room), s)
    ensures forall e :: e in FilterRoom(s, room) <==> e in s && e.room == room
    ensures multiset(FilterRoom(s, room)) <= multiset(s)
  {
    if s == [] {
      assert Embeds([], FilterRoom(s, room), s);
    } else {
      var init, last := s[..|s| - 1], s[|s| - 1];
      FilterRoomExact(init, room);
      assert s == init + [last];
      if last.room == room {
        InOrderSnoc(FilterRoom(init, room), init, last);
      } else {
        InOrderSkip(FilterRoom(init, room), init, last);
      }
    }
  }

  // -------------------------------------------------------------------------
  // Freshness, with every put and every fetch one atomic step
  // -------------------------------------------------------------------------

  datatype Event =
    | PutAt(e: Entry, at: real)
    | FetchAt(t1: real, t2: real, ok: bool)

  /** The deque as it has stood since some instant. */
  datatype Moment = Moment(entries: seq<Entry>, since: real)

  /** A run with every state the deque has had, the serialization times, and the clock. */
  datatype Timeline = Timeline(s: FeedState, past: seq<Moment>, stamps: seq<real>, now: real)

  const ORIGIN := Timeline(START, [Moment([], 0.0)], [], 0.0)

  predicate Enabled(t: Timeline, ev: Event) {
    match ev
    case PutAt(_, at) => t.now <= at
    case FetchAt(t1, t2, _) => t.now <= t1 <= t2
  }

  function Next(b: Bounds, t: Timeline, ev: Event): Timeline {
    match ev
    case PutAt(e, at) =>
      var s := Admit(b, t.s, e);
      Timeline(s, t.past + [Moment(s.cache.entries, at)], t.stamps, at)
    case FetchAt(t1, t2, ok) =>
      var s := Fetch(t.s, t1, t2, ok);
      var served := ServesCached(t.s, t1) || ServesCached(t.s, t2);
      Timeline(s, t.past, if !served && ok then t.stamps + [t2] else t.stamps, t2)
  }

  /** Any sequence of events; one that would turn the clock back does not happen. */
  function Play(b: Bounds, evs: seq<Event>): Timeline {
    if evs == [] then ORIGIN
    else
      var t := Play(b, evs[..|evs| - 1]);
      if Enabled(t, evs[|evs| - 1]) then Next(b, t, evs[|evs| - 1]) else t
  }

  /** The deque held exactly these entries at instant s. */
  ghost predicate StoodAt(past: seq<Moment>, s: real, entries: seq<Entry>) {
    exists i :: 0 <= i < |past| && Covers(past, i, s) && past[i].entries == entries
  }

  predicate Covers(past: seq<Moment>, i: nat, s: real)
    requires i < |past|
  {
    past[i].since <= s && (i + 1 < |past| ==> s <= past[i + 1].since)
  }

  ghost predicate FreshInv(t: Timeline) {
    && t.past != []
    && t.past[|t.past| - 1].entries == t.s.cache.entries
    && t.past[|t.past| - 1].since <= t.now
    && t.s.last <= t.now
    && (!t.s.dirty ==> t.s.feed == t.s.cache.entries)
    && (ServesCached(t.s, t.now) ==> StoodAt(t.past, t.s.last, t.s.feed))
    && (t.stamps == [] ==> t.s.last == 0.0)
    && (t.stamps != [] ==> t.s.last == t.stamps[|t.stamps| - 1])
    && (forall i :: 0 < i < |t.stamps| ==> t.stamps[i] - t.stamps[i - 1] >= 1.0)
  }

  lemma StillStood(past: seq<Moment>, m: Moment, s: real, entries: seq<Entry>)
    requires StoodAt(past, s, entries) && s <= m.since
    ensures StoodAt(past + [m], s, entries)
  {
    var i :| 0 <= i < |past| && Covers(past, i, s) && past[i].entries == entries;
    assert Covers(past + [m], i, s);
  }

  lemma NextKeepsFresh(b: Bounds, t: Timeline, ev: Event)
    requires FreshInv(t) && Enabled(t, ev)
    ensures FreshInv(Next(b, t, ev))
  {
    var t' := Next(b, t, ev);
    match ev {
      case PutAt(e, at) =>
        if ServesCached(t.s, t.now) {
          StillStood(t.past, t'.past[|t.past|], t.s.last, t.s.feed);
        }
      case FetchAt(t1, t2, ok) =>
        if !ServesCached(t.s, t1) && !ServesCached(t.s, t2) {
          assert Covers(t.past, |t.past| - 1, t2);
        }
    }
  }

  lemma {:induction false} PlayIsFresh(b: Bounds, evs: seq<Event>)
    ensures FreshInv(Play(b, evs))
  {
    if evs == [] {
      assert Covers(ORIGIN.past, 0, 0.0);
    } else {
      var t, ev := Play(b, evs[..|evs| - 1]), evs[|evs| - 1];
      PlayIsFresh(b, evs[..|evs| - 1]);
      if Enabled(t, ev) {
        NextKeepsFresh(b, t, ev);
      }
    }
  }

  /**
   * A clean flag means current bytes; a fetch serves the deque of some instant less than a second old, unless it has to
   * serialize and fails, which serves an empty feed.
   */
  lemma FeedIsFresh(b: Bounds, evs: seq<Event>, t1: real, t2: real, ok: bool)
    requires Play(b, evs).now <= t1 <= t2
    ensures var t, served := Play(b, evs), Play(b, evs + [FetchAt(t1, t2, ok)]).s.feed;
      && (!t.s.dirty ==> t.s.feed == t.s.cache.entries)
      && (ok || ServesCached(t.s, t1) || ServesCached(t.s, t2) ==>
            exists instant :: t1 - 1.0 < instant <= t2 && StoodAt(t.past, instant, served))
      && (!ok && !ServesCached(t.s, t1) && !ServesCached(t.s, t2) ==> served == [])
  {
    var t := Play(b, evs);
    PlayIsFresh(b, evs);
    PlaySnoc(b, evs, FetchAt(t1, t2, ok));
    if ok || ServesCached(t.s, t1) || ServesCached(t.s, t2) {
      var instant := if t.s.dirty && (t1 - t.s.last < 1.0 || t2 - t.s.last < 1.0) then t.s.last else t2;
      assert Covers(t.past, |t.past| - 1, t2);
      assert StoodAt(t.past, instant, Fetch(t.s, t1, t2, ok).feed);
    }
  }

  lemma PlaySnoc(b: Bounds, evs: seq<Event>, ev: Event)
    ensures Play(b, evs + [ev]) == if Enabled(Play(b, evs), ev) then Next(b, Play(b, evs), ev) else Play(b, evs)
  {
    assert (evs + [ev])[..|evs + [ev]| - 1] == evs;
  }

  /** A fetch serializes exactly when a put is waiting and a second has passed, and then serves the latest deque. */
  lemma DueFetchSerializes(b: Bounds, evs: seq<Event>, t1: real, t2: real)
    requires Play(b, evs).now <= t1 <= t2
    ensures var t, t' := Play(b, evs), Play(b, evs + [FetchAt(t1, t2, true)]);
      if t.s.dirty && t1 >= t.s.last + 1.0
      then t'.stamps == t.stamps + [t2] && t'.s == FeedState(t.s.cache, false, t.s.cache.entries, t2)
      else t'.stamps == t.stamps && t'.s == t.s
  {
    PlaySnoc(b, evs, FetchAt(t1, t2, true));
  }

  /** The feed is serialized at most once per second, whatever the bursts of puts and fetches. */
  lemma SerializesOncePerSecond(b: Bounds, evs: seq<Event>, i: nat, j: nat)
    requires i < j < |Play(b, evs).stamps|
    ensures Play(b, evs).stamps[j] - Play(b, evs).stamps[i] >= (j - i) as real
  {
    PlayIsFresh(b, evs);
    StampGaps(Play(b, evs).stamps, i, j);
  }

  /** The puts of the run that were admitted. */
  function Admissions(b: Bounds, evs: seq<Event>): nat {
    if evs == [] then 0
    else
      var t, ev := Play(b, evs[..|evs| - 1]), evs[|evs| - 1];
      Admissions(b, evs[..|evs| - 1])
      + if Enabled(t, ev) && ev.PutAt? && ev.e.id !in t.s.cache.ids then 1 else 0
  }

  /** Nothing is serialized twice: every serialization but the first is due to an admitted put of its own. */
  lemma {:induction false} SerializesPerPut(b: Bounds, evs: seq<Event>)
    ensures |Play(b, evs).stamps| <= Admissions(b, evs) + if Play(b, evs).s.dirty then 0 else 1
  {
    if evs == [] {
    } else {
      SerializesPerPut(b, evs[..|evs| - 1]);
    }
  }

  lemma {:induction false} StampGaps(stamps: seq<real>, i: nat, j: nat)
    requires i <= j < |stamps|
    requires forall k :: 0 < k < |stamps| ==> stamps[k] - stamps[k - 1] >= 1.0
    ensures stamps[j] - stamps[i] >= (j - i) as real
    decreases j
  {
    if i < j {
      StampGaps(stamps, i, j - 1);
    }
  }
}
