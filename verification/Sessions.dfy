/** Who is connected, under which name, and in which room (server/ws_server.py, server/rooms.py). */
module Sessions {
  import opened Sequences
  import opened Names

  const MAX_USERNAME_LEN := 100

  /** The configured default rooms and lower-case moderator names, and the lower-casing of names. */
  datatype Settings = Settings(rooms: seq<string>, admins: set<string>, lower: Lowering)

  /** The first default room is where clients go who name no valid room. */
  type Config = cfg: Settings | cfg.rooms != []
    witness Settings(["general", "random", "tech"], {"admin"}, (s: string) => s)

  datatype Client = Client(username: Option<string>, room: string, joined: bool, admin: bool)

  /** Room name to members, and member id to the name shown in that room. */
  type Rooms = map<string, map<string, string>>

  /** The three indexes: clients by id, client ids by lower-case username, members by room. */
  datatype Registry = Registry(clients: map<string, Client>, names: map<string, string>, rooms: Rooms)

  // -------------------------------------------------------------------------
  // Rooms
  // -------------------------------------------------------------------------

  predicate RoomChar(c: char) {
    'a' <= c <= 'z' || 'A' <= c <= 'Z' || '0' <= c <= '9' || c == '_' || c == '-'
  }

  predicate PlainRoomName(s: string) {
    1 <= |s| <= 24 && forall i :: 0 <= i < |s| ==> RoomChar(s[i])
  }

  /** The pattern's end anchor also accepts one trailing newline. */
  predicate ValidRoom(s: string) {
    PlainRoomName(s) || (s != "" && s[|s| - 1] == '\n' && PlainRoomName(s[..|s| - 1]))
  }

  function RoomOr(cfg: Config, requested: string): string {
    if ValidRoom(requested) then requested else cfg.rooms[0]
  }

  function EnsureRoom(rooms: Rooms, r: string): Rooms {
    if r in rooms then rooms else rooms[r := map[]]
  }

  function JoinRoom(rooms: Rooms, r: string, id: string, name: string): Rooms {
    var rs := EnsureRoom(rooms, r);
    rs[r := rs[r][id := name]]
  }

  function LeaveRoom(rooms: Rooms, r: string, id: string): Rooms {
    if r in rooms then rooms[r := rooms[r] - {id}] else rooms
  }

  // -------------------------------------------------------------------------
  // The handlers, each one atomic step
  // -------------------------------------------------------------------------

  function GuestName(id: string): string {
    "User" + if |id| <= 4 then id else id[..4]
  }

  /** The name the member maps show for a client. */
  function ShownName(id: string, c: Client): string {
    if c.username.Some? then c.username.value else GuestName(id)
  }

  /** "" stands for an absent query parameter. */
  function Connect(cfg: Config, s: Registry, id: string, room: string, user: string): Registry {
    var c := Client(if user != "" then Some(user) else None, RoomOr(cfg, room), false, false);
    s.(clients := s.clients[id := c], rooms := JoinRoom(s.rooms, c.room, id, ShownName(id, c)))
  }

  function Requested(id: string, user: string): string {
    if user == "" then GuestName(id) else if |user| <= MAX_USERNAME_LEN then user else user[..MAX_USERNAME_LEN]
  }

  function Join(cfg: Config, s: Registry, id: string, user: string, room: string): Registry
    requires id in s.clients
  {
    var c := s.clients[id];
    if c.joined then s
    else
      var name := UniqueName(cfg.lower, s.names.Keys, Requested(id, user));
      var r := RoomOr(cfg, room);
      var left := if c.room != r then LeaveRoom(s.rooms, c.room, id) else s.rooms;
      Registry(
        s.clients[id := Client(Some(name), r, true, cfg.lower(name) in cfg.admins)],
        s.names[cfg.lower(name) := id],
        JoinRoom(left, r, id, name))
  }

  function SwitchRoom(s: Registry, id: string, room: string): Registry
    requires id in s.clients
  {
    var c := s.clients[id];
    if c.username.None? || !ValidRoom(room) || room !in s.rooms || room == c.room then s
    else
      s.(clients := s.clients[id := c.(room := room)],
         rooms := JoinRoom(LeaveRoom(s.rooms, c.room, id), room, id, c.username.value))
  }

  function CreateRoom(s: Registry, id: string, room: string): Registry
    requires id in s.clients
  {
    if s.clients[id].username.None? || !ValidRoom(room) then s
    else SwitchRoom(s.(rooms := EnsureRoom(s.rooms, room)), id, room)
  }

  /** The name is popped whether or not it is this client's. */
  function Close(cfg: Config, s: Registry, id: string): Registry
    requires id in s.clients
  {
    var c := s.clients[id];
    Registry(
      s.clients - {id},
      if c.username.Some? then s.names - {cfg.lower(c.username.value)} else s.names,
      LeaveRoom(s.rooms, c.room, id))
  }

  // -------------------------------------------------------------------------
  // Runs
  // -------------------------------------------------------------------------

  datatype Event =
    | Connected(id: string, room: string, user: string)
    | Joins(id: string, user: string, room: string)
    | Switches(id: string, room: string)
    | Creates(id: string, room: string)
    | Closes(id: string)

  function Start(cfg: Config): Registry {
    Registry(map[], map[], map r | r in cfg.rooms :: map[])
  }

  predicate Enabled(s: Registry, ev: Event) {
    if ev.Connected? then ev.id !in s.clients else ev.id in s.clients
  }

  function Next(cfg: Config, s: Registry, ev: Event): Registry
    requires Enabled(s, ev)
  {
    match ev
    case Connected(id, room, user) => Connect(cfg, s, id, room, user)
    case Joins(id, user, room) => Join(cfg, s, id, user, room)
    case Switches(id, room) => SwitchRoom(s, id, room)
    case Creates(id, room) => CreateRoom(s, id, room)
    case Closes(id) => Close(cfg, s, id)
  }

  /** Any sequence of events; ids are fresh when they connect, and only connected clients act. */
  function Play(cfg: Config, evs: seq<Event>): Registry {
    if evs == [] then Start(cfg)
    else
      var s := Play(cfg, evs[..|evs| - 1]);
      if Enabled(s, evs[|evs| - 1]) then Next(cfg, s, evs[|evs| - 1]) else s
  }

  // -------------------------------------------------------------------------
  // Room membership is a partition of the connected clients
  // -------------------------------------------------------------------------

  ghost predicate MemberOf(rooms: Rooms, r: string, id: string) {
    r in rooms && id in rooms[r]
  }

  ghost predicate RoomsInv(s: Registry) {
    && (forall r, id :: MemberOf(s.rooms, r, id) <==> id in s.clients && s.clients[id].room == r)
    && (forall r, id :: MemberOf(s.rooms, r, id) ==> s.rooms[r][id] == ShownName(id, s.clients[id]))
  }

  lemma JoinRoomMembers(rooms: Rooms, r: string, id: string, name: string)
    ensures forall q, x ::
      MemberOf(JoinRoom(rooms, r, id, name), q, x) <==> MemberOf(rooms, q, x) || (q == r && x == id)
    ensures forall q, x :: MemberOf(JoinRoom(rooms, r, id, name), q, x) ==>
      JoinRoom(rooms, r, id, name)[q][x] == if q == r && x == id then name else rooms[q][x]
    ensures rooms.Keys <= JoinRoom(rooms, r, id, name).Keys
  {
  }

  lemma LeaveRoomMembers(rooms: Rooms, r: string, id: string)
    ensures forall q, x :: MemberOf(LeaveRoom(rooms, r, id), q, x) <==> MemberOf(rooms, q, x) && !(q == r && x == id)
    ensures forall q, x :: MemberOf(LeaveRoom(rooms, r, id), q, x) ==> LeaveRoom(rooms, r, id)[q][x] == rooms[q][x]
    ensures rooms.Keys == LeaveRoom(rooms, r, id).Keys
  {
  }

  /** Moving a client: out of its room if it leaves one, into another, shown under a name. */
  lemma MoveMembers(s: Registry, id: string, c: Client, leaves: bool)
    requires RoomsInv(s)
    requires if leaves then id in s.clients else id !in s.clients || s.clients[id].room == c.room
    ensures var rooms := if leaves then LeaveRoom(s.rooms, s.clients[id].room, id) else s.rooms;
      && RoomsInv(Registry(s.clients[id := c], s.names, JoinRoom(rooms, c.room, id, ShownName(id, c))))
      && s.rooms.Keys <= JoinRoom(rooms, c.room, id, ShownName(id, c)).Keys
  {
    var rooms := if leaves then LeaveRoom(s.rooms, s.clients[id].room, id) else s.rooms;
    JoinRoomMembers(rooms, c.room, id, ShownName(id, c));
    if leaves {
      LeaveRoomMembers(s.rooms, s.clients[id].room, id);
    }
  }

  lemma SwitchKeepsRooms(s: Registry, id: string, room: string)
    requires RoomsInv(s) && id in s.clients
    ensures RoomsInv(SwitchRoom(s, id, room)) && s.rooms.Keys <= SwitchRoom(s, id, room).rooms.Keys
  {
    var c := s.clients[id];
    if SwitchRoom(s, id, room) != s {
      MoveMembers(s, id, c.(room := room), true);
    }
  }

  lemma NextKeepsRooms(cfg: Config, s: Registry, ev: Event)
    requires RoomsInv(s) && Enabled(s, ev)
    ensures RoomsInv(Next(cfg, s, ev)) && s.rooms.Keys <= Next(cfg, s, ev).rooms.Keys
  {
    match ev {
      case Connected(id, room, user) =>
        MoveMembers(s, id, Next(cfg, s, ev).clients[id], false);
      case Joins(id, user, room) =>
        var s' := Next(cfg, s, ev);
        var c, c' := s.clients[id], s'.clients[id];
        if !c.joined {
          MoveMembers(s, id, c', c.room != c'.room);
        }
      case Switches(id, room) =>
        SwitchKeepsRooms(s, id, room);
      case Creates(id, room) =>
        var grown := s.(rooms := EnsureRoom(s.rooms, room));
        assert forall q, x :: MemberOf(grown.rooms, q, x) <==> MemberOf(s.rooms, q, x);
        SwitchKeepsRooms(grown, id, room);
      case Closes(id) =>
        LeaveRoomMembers(s.rooms, s.clients[id].room, id);
    }
  }

  lemma {:induction false} MembershipIsPartition(cfg: Config, evs: seq<Event>)
    ensures RoomsInv(Play(cfg, evs))
    ensures evs != [] ==> Play(cfg, evs[..|evs| - 1]).rooms.Keys <= Play(cfg, evs).rooms.Keys
  {
    if evs == [] {
    } else {
      MembershipIsPartition(cfg, evs[..|evs| - 1]);
      if Enabled(Play(cfg, evs[..|evs| - 1]), evs[|evs| - 1]) {
        NextKeepsRooms(cfg, Play(cfg, evs[..|evs| - 1]), evs[|evs| - 1]);
      }
    }
  }

  ghost function SomeRoom(rooms: Rooms): (r: string)
    requires rooms != map[]
    ensures r in rooms
  {
    var r :| r in rooms;
    r
  }

  /** The member counts of all rooms, added up. */
  ghost function CountAll(rooms: Rooms): nat
    decreases |rooms|
  {
    if rooms == map[] then 0
    else
      var r := SomeRoom(rooms);
      |rooms[r]| + CountAll(rooms - {r})
  }

  lemma {:induction false} CountPartition(rooms: Rooms, ids: set<string>)
    requires forall id :: id in ids <==> exists r :: MemberOf(rooms, r, id)
    requires forall r, q, id :: MemberOf(rooms, r, id) && MemberOf(rooms, q, id) ==> r == q
    ensures CountAll(rooms) == |ids|
    decreases |rooms|
  {
    if rooms == map[] {
      assert forall r, id :: !MemberOf(rooms, r, id);
      assert ids == {};
    } else {
      var r := SomeRoom(rooms);
      var rest := rooms - {r};
      assert forall q, id :: MemberOf(rest, q, id) <==> MemberOf(rooms, q, id) && q != r;
      forall id
        ensures id in ids - rooms[r].Keys <==> exists q :: MemberOf(rest, q, id)
      {
        assert id in rooms[r].Keys <==> MemberOf(rooms, r, id);
      }
      CountPartition(rest, ids - rooms[r].Keys);
      forall id | id in rooms[r].Keys
        ensures id in ids
      {
        assert MemberOf(rooms, r, id);
      }
      assert ids == rooms[r].Keys + (ids - rooms[r].Keys);
      assert |rooms[r]| == |rooms[r].Keys|;
    }
  }

  /** The member counts of the room list add up to the number of connected clients. */
  lemma CountsAddUp(cfg: Config, evs: seq<Event>)
    ensures CountAll(Play(cfg, evs).rooms) == |Play(cfg, evs).clients|
  {
    MembershipIsPartition(cfg, evs);
    var s := Play(cfg, evs);
    forall id
      ensures id in s.clients.Keys <==> exists r :: MemberOf(s.rooms, r, id)
    {
      if id in s.clients {
        assert MemberOf(s.rooms, s.clients[id].room, id);
      }
    }
    CountPartition(s.rooms, s.clients.Keys);
    assert |s.clients| == |s.clients.Keys|;
  }

  // -------------------------------------------------------------------------
  // The username index
  // -------------------------------------------------------------------------

  ghost predicate JoinedAs(cfg: Config, s: Registry, id: string, name: string) {
    id in s.clients && s.clients[id].joined && s.clients[id].username.Some?
      && cfg.lower(s.clients[id].username.value) == name
  }

  /** The index is exactly the inverse of the joined clients' lower-case names, which are therefore distinct. */
  ghost predicate IndexExact(cfg: Config, s: Registry) {
    && (forall id :: id in s.clients && s.clients[id].joined ==> s.clients[id].username.Some?)
    && (forall id, name :: JoinedAs(cfg, s, id, name) <==> name in s.names && s.names[name] == id)
  }

  /** A close that pops no name, or the closing client's own. */
  predicate Harmless(cfg: Config, s: Registry, ev: Event)
    requires Enabled(s, ev)
  {
    ev.Closes? ==>
      var c := s.clients[ev.id];
      c.joined || c.username.None? || cfg.lower(c.username.value) !in s.names
  }

  lemma JoinKeepsIndex(cfg: Config, s: Registry, id: string, user: string, room: string)
    requires IndexExact(cfg, s) && id in s.clients
    ensures IndexExact(cfg, Join(cfg, s, id, user, room))
  {
    var s' := Join(cfg, s, id, user, room);
    if !s.clients[id].joined {
      forall x, name
        ensures JoinedAs(cfg, s', x, name) <==> name in s'.names && s'.names[name] == x
      {
        assert JoinedAs(cfg, s, x, name) <==> name in s.names && s.names[name] == x;
        assert !JoinedAs(cfg, s, id, name);
      }
    }
  }

  lemma CloseKeepsIndex(cfg: Config, s: Registry, id: string)
    requires IndexExact(cfg, s) && id in s.clients && Harmless(cfg, s, Closes(id))
    ensures IndexExact(cfg, Close(cfg, s, id))
  {
    var s' := Close(cfg, s, id);
    var c := s.clients[id];
    forall x, name
      ensures JoinedAs(cfg, s', x, name) <==> name in s'.names && s'.names[name] == x
    {
      assert JoinedAs(cfg, s, x, name) <==> name in s.names && s.names[name] == x;
      if c.joined {
        assert JoinedAs(cfg, s, id, cfg.lower(c.username.value));
      }
    }
  }

  lemma HarmfulCloseBreaksIndex(cfg: Config, s: Registry, id: string)
    requires IndexExact(cfg, s) && id in s.clients && !Harmless(cfg, s, Closes(id))
    ensures !IndexExact(cfg, Close(cfg, s, id))
  {
    var name := cfg.lower(s.clients[id].username.value);
    var owner := s.names[name];
    assert JoinedAs(cfg, s, owner, name);
    assert JoinedAs(cfg, Close(cfg, s, id), owner, name);
  }

  /** One step keeps the index exact if and only if it is not the close of an unjoined client under an indexed name. */
  lemma NextKeepsIndexExact(cfg: Config, s: Registry, ev: Event)
    requires IndexExact(cfg, s) && Enabled(s, ev)
    ensures IndexExact(cfg, Next(cfg, s, ev)) <==> Harmless(cfg, s, ev)
  {
    match ev {
      case Connected(id, room, user) =>
        forall x, name
          ensures JoinedAs(cfg, Next(cfg, s, ev), x, name) <==> JoinedAs(cfg, s, x, name)
        {
        }
      case Joins(id, user, room) =>
        JoinKeepsIndex(cfg, s, id, user, room);
      case Switches(id, room) =>
        forall x, name
          ensures JoinedAs(cfg, Next(cfg, s, ev), x, name) <==> JoinedAs(cfg, s, x, name)
        {
        }
      case Creates(id, room) =>
        forall x, name
          ensures JoinedAs(cfg, Next(cfg, s, ev), x, name) <==> JoinedAs(cfg, s, x, name)
        {
        }
      case Closes(id) =>
        if Harmless(cfg, s, ev) {
          CloseKeepsIndex(cfg, s, id);
        } else {
          HarmfulCloseBreaksIndex(cfg, s, id);
        }
    }
  }

  ghost predicate AllHarmless(cfg: Config, evs: seq<Event>) {
    evs == [] ||
    var init, last := evs[..|evs| - 1], evs[|evs| - 1];
    AllHarmless(cfg, init) && (Enabled(Play(cfg, init), last) ==> Harmless(cfg, Play(cfg, init), last))
  }

  /** The index is exact after every step of the run. */
  ghost predicate AlwaysExact(cfg: Config, evs: seq<Event>) {
    IndexExact(cfg, Play(cfg, evs)) && (evs == [] || AlwaysExact(cfg, evs[..|evs| - 1]))
  }

  /** The index is exact throughout a run if and only if no close of the run is harmful. */
  lemma {:induction false} IndexExactIffHarmless(cfg: Config, evs: seq<Event>)
    ensures AlwaysExact(cfg, evs) <==> AllHarmless(cfg, evs)
  {
    if evs == [] {
    } else {
      var init, last := evs[..|evs| - 1], evs[|evs| - 1];
      IndexExactIffHarmless(cfg, init);
      if AlwaysExact(cfg, init) && Enabled(Play(cfg, init), last) {
        NextKeepsIndexExact(cfg, Play(cfg, init), last);
      }
    }
  }

  /** A connection that names itself in its query string joins before it closes. */
  ghost predicate Polite(cfg: Config, evs: seq<Event>) {
    evs == [] ||
    var init, last := evs[..|evs| - 1], evs[|evs| - 1];
    && Polite(cfg, init)
    && (last.Closes? && last.id in Play(cfg, init).clients ==>
          Play(cfg, init).clients[last.id].joined || Play(cfg, init).clients[last.id].username.None?)
  }

  lemma {:induction false} PoliteIsHarmless(cfg: Config, evs: seq<Event>)
    requires Polite(cfg, evs)
    ensures AllHarmless(cfg, evs)
  {
    if evs == [] {
    } else {
      PoliteIsHarmless(cfg, evs[..|evs| - 1]);
    }
  }

  /** In polite runs a lookup finds a live client of that name, and every joined client is found. */
  lemma PoliteLookups(cfg: Config, evs: seq<Event>)
    requires Polite(cfg, evs)
    ensures var s := Play(cfg, evs);
      && (forall name :: name in s.names ==> JoinedAs(cfg, s, s.names[name], name))
      && (forall m, n :: m in s.names && n in s.names && s.names[m] == s.names[n] ==> m == n)
      && (forall id :: id in s.clients && s.clients[id].joined ==>
            && s.clients[id].username.Some?
            && cfg.lower(s.clients[id].username.value) in s.names
            && s.names[cfg.lower(s.clients[id].username.value)] == id)
  {
    PoliteIsHarmless(cfg, evs);
    IndexExactIffHarmless(cfg, evs);
    var s := Play(cfg, evs);
    forall id | id in s.clients && s.clients[id].joined
      ensures s.clients[id].username.Some? && JoinedAs(cfg, s, id, cfg.lower(s.clients[id].username.value))
    {
    }
    forall name | name in s.names
      ensures JoinedAs(cfg, s, s.names[name], name)
    {
    }
  }

  /** What a harmful close leads to: the next client to ask for the name shares it with its live owner. */
  lemma HarmfulCloseSharesName(cfg: Config, s: Registry, id: string, other: string, room: string)
    requires IndexExact(cfg, s) && id in s.clients && !Harmless(cfg, s, Closes(id))
    requires other in s.clients && other != id && !s.clients[other].joined
    requires 1 <= |s.clients[id].username.value| <= MAX_USERNAME_LEN
    ensures var user := s.clients[id].username.value;
      var owner, s' := s.names[cfg.lower(user)], Join(cfg, Close(cfg, s, id), other, user, room);
      owner != other && JoinedAs(cfg, s', owner, cfg.lower(user)) && JoinedAs(cfg, s', other, cfg.lower(user))
  {
    var user := s.clients[id].username.value;
    var owner := s.names[cfg.lower(user)];
    var closed := Close(cfg, s, id);
    assert JoinedAs(cfg, s, owner, cfg.lower(user));
    assert Candidate(user, 0) == user;
    assert UniqueName(cfg.lower, closed.names.Keys, user) == user;
  }

  lemma PlaySnoc(cfg: Config, evs: seq<Event>, ev: Event)
    ensures Play(cfg, evs + [ev])
      == if Enabled(Play(cfg, evs), ev) then Next(cfg, Play(cfg, evs), ev) else Play(cfg, evs)
  {
    assert (evs + [ev])[..|evs + [ev]| - 1] == evs;
  }

  /** a joins under a name, b connects with the same name in its query, and c connects. */
  function SharedNameRun(a: string, b: string, c: string, user: string): seq<Event> {
    [Connected(a, "", ""), Joins(a, user, ""), Connected(b, "", user), Connected(c, "", "")]
  }

  lemma OneJoined(cfg: Config, a: string, user: string)
    requires 1 <= |user| <= MAX_USERNAME_LEN
    ensures var s := Play(cfg, [Connected(a, "", ""), Joins(a, user, "")]);
      IndexExact(cfg, s) && s.clients.Keys == {a} && s.names == map[cfg.lower(user) := a]
  {
    var evs := [Connected(a, "", ""), Joins(a, user, "")];
    assert Play(cfg, []) == Start(cfg) && IndexExact(cfg, Start(cfg));
    NextKeepsIndexExact(cfg, Start(cfg), evs[0]);
    NextKeepsIndexExact(cfg, Next(cfg, Start(cfg), evs[0]), evs[1]);
    assert Candidate(user, 0) == user;
    PlaySnoc(cfg, [], evs[0]);
    PlaySnoc(cfg, [evs[0]], evs[1]);
    assert [] + [evs[0]] == [evs[0]];
    assert [evs[0]] + [evs[1]] == evs;
  }

  lemma BeforeHarmfulClose(cfg: Config, a: string, b: string, c: string, user: string)
    requires a != b && b != c && a != c && 1 <= |user| <= MAX_USERNAME_LEN
    ensures var s := Play(cfg, SharedNameRun(a, b, c, user));
      && IndexExact(cfg, s) && s.clients.Keys == {a, b, c} && s.names == map[cfg.lower(user) := a]
      && s.clients[b].username == Some(user) && !s.clients[b].joined && !s.clients[c].joined
  {
    var evs := SharedNameRun(a, b, c, user);
    OneJoined(cfg, a, user);
    var s2 := Play(cfg, [evs[0], evs[1]]);
    NextKeepsIndexExact(cfg, s2, evs[2]);
    NextKeepsIndexExact(cfg, Next(cfg, s2, evs[2]), evs[3]);
    PlaySnoc(cfg, [evs[0], evs[1]], evs[2]);
    PlaySnoc(cfg, [evs[0], evs[1], evs[2]], evs[3]);
    assert [evs[0], evs[1]] + [evs[2]] == [evs[0], evs[1], evs[2]];
    assert [evs[0], evs[1], evs[2]] + [evs[3]] == evs;
  }

  /** Such a run from the start: b closes, the index is no longer exact, and c's join makes two clients of one name. */
  lemma HarmfulRun(cfg: Config, a: string, b: string, c: string, user: string)
    requires a != b && b != c && a != c && 1 <= |user| <= MAX_USERNAME_LEN
    ensures var evs := SharedNameRun(a, b, c, user);
      var closed, joined := Play(cfg, evs + [Closes(b)]), Play(cfg, evs + [Closes(b)] + [Joins(c, user, "")]);
      && !AllHarmless(cfg, evs + [Closes(b)]) && !IndexExact(cfg, closed)
      && JoinedAs(cfg, joined, a, cfg.lower(user)) && JoinedAs(cfg, joined, c, cfg.lower(user))
  {
    var evs := SharedNameRun(a, b, c, user);
    var s := Play(cfg, evs);
    BeforeHarmfulClose(cfg, a, b, c, user);
    PlaySnoc(cfg, evs, Closes(b));
    PlaySnoc(cfg, evs + [Closes(b)], Joins(c, user, ""));
    HarmfulCloseBreaksIndex(cfg, s, b);
    IndexExactIffHarmless(cfg, evs + [Closes(b)]);
    HarmfulCloseSharesName(cfg, s, b, c, "");
  }

  // -------------------------------------------------------------------------
  // What one handler changes
  // -------------------------------------------------------------------------

  ghost predicate OthersKept(s: Registry, s': Registry, id: string) {
    && s'.clients.Keys - {id} == s.clients.Keys - {id}
    && forall x :: x in s.clients && x != id ==> x in s'.clients && s'.clients[x] == s.clients[x]
  }

  function At(cfg: Config, evs: seq<Event>, k: nat): Registry
    requires k <= |evs|
  {
    Play(cfg, evs[..k])
  }

  lemma AtStep(cfg: Config, evs: seq<Event>, k: nat)
    requires k < |evs|
    ensures At(cfg, evs, k + 1)
      == if Enabled(At(cfg, evs, k), evs[k]) then Next(cfg, At(cfg, evs, k), evs[k]) else At(cfg, evs, k)
  {
    assert evs[..k + 1][..k] == evs[..k];
  }

  /** After k events the index has `name` at client id. */
  ghost predicate OwnedAt(cfg: Config, evs: seq<Event>, k: nat, name: string, id: string)
    requires k <= |evs|
  {
    name in At(cfg, evs, k).names && At(cfg, evs, k).names[name] == id
  }

  /** Event k closes a client, whichever, that goes by `name`. */
  ghost predicate PopsAt(cfg: Config, evs: seq<Event>, k: nat, name: string)
    requires k < |evs|
  {
    var clients := At(cfg, evs, k).clients;
    && evs[k].Closes? && evs[k].id in clients && clients[evs[k].id].username.Some?
    && cfg.lower(clients[evs[k].id].username.value) == name
  }

  lemma StepKeepsOwner(cfg: Config, evs: seq<Event>, k: nat, name: string, id: string)
    requires k < |evs| && OwnedAt(cfg, evs, k, name, id)
    ensures OwnedAt(cfg, evs, k + 1, name, id) <==> !PopsAt(cfg, evs, k, name)
  {
    AtStep(cfg, evs, k);
  }

  /** An indexed name keeps its owner, joins of anyone included, exactly until a client of that name closes. */
  lemma {:induction false} NameKeepsOwner(cfg: Config, evs: seq<Event>, n: nat, m: nat, name: string, id: string)
    requires n <= m <= |evs| && OwnedAt(cfg, evs, n, name, id)
    ensures (forall k :: n <= k <= m ==> OwnedAt(cfg, evs, k, name, id))
      <==> (forall k :: n <= k < m ==> !PopsAt(cfg, evs, k, name))
    decreases m - n
  {
    if n == m {
    } else {
      StepKeepsOwner(cfg, evs, n, name, id);
      if OwnedAt(cfg, evs, n + 1, name, id) {
        NameKeepsOwner(cfg, evs, n + 1, m, name, id);
      }
    }
  }

  /**
   * A first join touches no other client, takes the requested name if it is free, and the name it takes is the joiner's
   * until a client of that name closes.
   */
  lemma JoinOwnsName(cfg: Config, evs: seq<Event>, n: nat, m: nat)
    requires n < m <= |evs| && evs[n].Joins? && evs[n].id in At(cfg, evs, n).clients
    requires !At(cfg, evs, n).clients[evs[n].id].joined
    ensures var id, s, s' := evs[n].id, At(cfg, evs, n), At(cfg, evs, n + 1);
      && OthersKept(s, s', id) && id in s'.clients
      && s'.clients[id].joined && s'.clients[id].room == RoomOr(cfg, evs[n].room) && s'.clients[id].username.Some?
      && var requested, name := Requested(id, evs[n].user), s'.clients[id].username.value;
      && cfg.lower(name) !in s.names
      && (cfg.lower(requested) !in s.names ==> name == requested)
      && ((forall k :: n < k <= m ==> OwnedAt(cfg, evs, k, cfg.lower(name), id))
          <==> (forall k :: n < k < m ==> !PopsAt(cfg, evs, k, cfg.lower(name))))
  {
    AtStep(cfg, evs, n);
    var id := evs[n].id;
    var name := cfg.lower(At(cfg, evs, n + 1).clients[id].username.value);
    assert OwnedAt(cfg, evs, n + 1, name, id);
    NameKeepsOwner(cfg, evs, n + 1, m, name, id);
  }

  ghost predicate OnlyMemberOf(rooms: Rooms, r: string, id: string) {
    forall q :: MemberOf(rooms, q, id) <==> q == r
  }

  /** In room r client id is shown under this name. */
  ghost predicate ShownAs(rooms: Rooms, r: string, id: string, name: string) {
    MemberOf(rooms, r, id) && rooms[r][id] == name
  }

  /** The first n characters. */
  function Head(s: string, n: nat): (h: string)
    ensures h <= s && |h| <= n && (|h| < n ==> h == s)
  {
    if |s| <= n then s else s[..n]
  }

  /** A connection puts the client into the room it asks for, or else the first default room, and into no other. */
  lemma ConnectEntersRoom(cfg: Config, evs: seq<Event>, n: nat)
    requires n < |evs| && evs[n].Connected? && evs[n].id !in At(cfg, evs, n).clients
    ensures var id, room, user, s := evs[n].id, evs[n].room, evs[n].user, At(cfg, evs, n + 1);
      && id in s.clients && !s.clients[id].joined && !s.clients[id].admin
      && s.clients[id].username == (if user == "" then None else Some(user))
      && s.clients[id].room == (if ValidRoom(room) then room else cfg.rooms[0])
      && OnlyMemberOf(s.rooms, s.clients[id].room, id)
      && ShownAs(s.rooms, s.clients[id].room, id, if user == "" then "User" + Head(id, 4) else user)
  {
    AtStep(cfg, evs, n);
    MembershipIsPartition(cfg, evs[..n + 1]);
    var s := At(cfg, evs, n + 1);
    assert MemberOf(s.rooms, s.clients[evs[n].id].room, evs[n].id);
  }

  /** A first join does the same, leaving the room of the connection, and names the client. */
  lemma JoinEntersRoom(cfg: Config, evs: seq<Event>, n: nat)
    requires n < |evs| && evs[n].Joins? && evs[n].id in At(cfg, evs, n).clients
    requires !At(cfg, evs, n).clients[evs[n].id].joined
    ensures var id, room, user, s := evs[n].id, evs[n].room, evs[n].user, At(cfg, evs, n + 1);
      var requested := if user == "" then "User" + Head(id, 4) else Head(user, 100);
      && id in s.clients && s.clients[id].joined
      && s.clients[id].room == (if ValidRoom(room) then room else cfg.rooms[0])
      && OnlyMemberOf(s.rooms, s.clients[id].room, id)
      && s.clients[id].username == Some(UniqueName(cfg.lower, At(cfg, evs, n).names.Keys, requested))
      && ShownAs(s.rooms, s.clients[id].room, id, s.clients[id].username.value)
      && (s.clients[id].admin <==> cfg.lower(s.clients[id].username.value) in cfg.admins)
  {
    AtStep(cfg, evs, n);
    MembershipIsPartition(cfg, evs[..n + 1]);
    var s := At(cfg, evs, n + 1);
    assert MemberOf(s.rooms, s.clients[evs[n].id].room, evs[n].id);
  }

  /** A switch moves exactly the named clients that ask for an existing room by a valid name, and never adds a room. */
  lemma SwitchMovesExact(s: Registry, id: string, room: string)
    requires RoomsInv(s) && id in s.clients
    ensures var s' := SwitchRoom(s, id, room);
      && id in s'.clients && OthersKept(s, s', id) && s'.names == s.names && s'.rooms.Keys == s.rooms.Keys
      && s'.clients[id].(room := s.clients[id].room) == s.clients[id]
      && (s'.clients[id].room == room
          <==> s.clients[id].room == room || (s.clients[id].username.Some? && ValidRoom(room) && room in s.rooms))
      && (s'.clients[id].room != room ==> s' == s)
      && OnlyMemberOf(s'.rooms, s'.clients[id].room, id)
  {
    var s' := SwitchRoom(s, id, room);
    SwitchKeepsRooms(s, id, room);
    LeaveRoomMembers(s.rooms, s.clients[id].room, id);
    assert MemberOf(s'.rooms, s'.clients[id].room, id) <==> id in s'.clients;
  }

  /** In every run a switch is such a move. */
  lemma SwitchesAtAnyTime(cfg: Config, evs: seq<Event>, n: nat)
    requires n < |evs| && evs[n].Switches? && evs[n].id in At(cfg, evs, n).clients
    ensures var id, room, s, s' := evs[n].id, evs[n].room, At(cfg, evs, n), At(cfg, evs, n + 1);
      && id in s'.clients && OthersKept(s, s', id) && s'.names == s.names && s'.rooms.Keys == s.rooms.Keys
      && (s'.clients[id].room == room
          <==> s.clients[id].room == room || (s.clients[id].username.Some? && ValidRoom(room) && room in s.rooms))
      && (s'.clients[id].room != room ==> s' == s)
      && OnlyMemberOf(s'.rooms, s'.clients[id].room, id)
  {
    AtStep(cfg, evs, n);
    MembershipIsPartition(cfg, evs[..n]);
    SwitchMovesExact(At(cfg, evs, n), evs[n].id, evs[n].room);
  }

  /** In every run a named client that creates a room by a valid name enters it, and nothing else creates. */
  lemma CreatesAtAnyTime(cfg: Config, evs: seq<Event>, n: nat)
    requires n < |evs| && evs[n].Creates? && evs[n].id in At(cfg, evs, n).clients
    ensures var id, room, s, s' := evs[n].id, evs[n].room, At(cfg, evs, n), At(cfg, evs, n + 1);
      if s.clients[id].username.Some? && ValidRoom(room)
      then id in s'.clients && s'.clients[id].room == room && OnlyMemberOf(s'.rooms, room, id)
           && s'.rooms.Keys == s.rooms.Keys + {room}
      else s' == s
  {
    AtStep(cfg, evs, n);
    MembershipIsPartition(cfg, evs[..n]);
    var s := At(cfg, evs, n);
    if s.clients[evs[n].id].username.Some? && ValidRoom(evs[n].room) {
      CreatorIsInside(s, evs[n].id, evs[n].room);
    }
  }

  /** A client without a name, or one that asks for no valid name, creates nothing. */
  lemma CreateNeedsName(s: Registry, id: string, room: string)
    requires id in s.clients
    ensures CreateRoom(s, id, room) == s
      <==> s.clients[id].username.None? || !ValidRoom(room) || (room in s.rooms && room == s.clients[id].room)
  {
  }

  /** Room names have 1 to 24 characters, of codes 97-122, 65-90, 48-57, 95 and 45. */
  lemma RoomNameBounds(n: nat, c: char)
    ensures ValidRoom(seq(n, _ => 'x')) <==> 1 <= n <= 24
    ensures ValidRoom([c])
      <==> 97 <= c as int <= 122 || 65 <= c as int <= 90 || 48 <= c as int <= 57 || c as int == 95 || c as int == 45
    ensures ValidRoom(['x', c]) <==> ValidRoom([c]) || c == '\n'
  {
    var s: string := seq(n, _ => 'x');
    if n > 0 {
      assert s[n - 1] == 'x';
    }
    assert [c][0] == c && ['x', c][1] == c && ['x', c][..1] == ['x'];
  }

  /** A named client that creates a room by a valid name ends up in it, whether or not it existed. */
  lemma CreatorIsInside(s: Registry, id: string, room: string)
    requires id in s.clients && s.clients[id].username.Some? && ValidRoom(room)
    ensures var s' := CreateRoom(s, id, room);
      && room in s'.rooms && s'.clients[id] == s.clients[id].(room := room)
      && OthersKept(s, s', id) && s'.names == s.names
      && s'.rooms.Keys == s.rooms.Keys + {room}
      && (RoomsInv(s) ==> RoomsInv(s') && MemberOf(s'.rooms, room, id))
  {
    var s' := CreateRoom(s, id, room);
    var grown := s.(rooms := EnsureRoom(s.rooms, room));
    assert s.clients[id].room == room ==> s.clients[id].(room := room) == s.clients[id];
    if RoomsInv(s) {
      assert forall q, x :: MemberOf(grown.rooms, q, x) <==> MemberOf(s.rooms, q, x);
      SwitchKeepsRooms(grown, id, room);
      assert MemberOf(s'.rooms, room, id) <==> id in s'.clients && s'.clients[id].room == room;
      LeaveRoomMembers(grown.rooms, s.clients[id].room, id);
    } else {
      LeaveRoomMembers(grown.rooms, s.clients[id].room, id);
    }
  }

  /** Connecting and closing without a join leaves no trace, but the owner of the query name may lose it. */
  lemma ConnectCloseExact(cfg: Config, s: Registry, id: string, room: string, user: string)
    requires RoomsInv(s) && id !in s.clients
    ensures var s' := Close(cfg, Connect(cfg, s, id, room, user), id);
      && s'.clients == s.clients
      && (forall r, x :: MemberOf(s'.rooms, r, x) <==> MemberOf(s.rooms, r, x))
      && (s'.names == s.names <==> user == "" || cfg.lower(user) !in s.names)
  {
  }

  // -------------------------------------------------------------------------
  // Moderators
  // -------------------------------------------------------------------------

  ghost predicate AdminFlags(cfg: Config, s: Registry) {
    forall id :: id in s.clients ==>
      && (s.clients[id].joined ==> s.clients[id].username.Some?)
      && (s.clients[id].admin <==> s.clients[id].joined && cfg.lower(s.clients[id].username.value) in cfg.admins)
  }

  /** The moderators are exactly the joined clients of a configured name. */
  lemma {:induction false} AdminsAreNamed(cfg: Config, evs: seq<Event>)
    ensures AdminFlags(cfg, Play(cfg, evs))
  {
    if evs == [] {
    } else {
      AdminsAreNamed(cfg, evs[..|evs| - 1]);
    }
  }

  /** In polite runs two joined clients whose names agree in lower case are the same client. */
  lemma NamesAreUnique(cfg: Config, evs: seq<Event>, x: string, y: string)
    requires Polite(cfg, evs)
    requires x in Play(cfg, evs).clients && Play(cfg, evs).clients[x].joined
    requires y in Play(cfg, evs).clients && Play(cfg, evs).clients[y].joined
    ensures var s := Play(cfg, evs);
      && s.clients[x].username.Some? && s.clients[y].username.Some?
      && (cfg.lower(s.clients[x].username.value) == cfg.lower(s.clients[y].username.value) ==> x == y)
  {
    PoliteLookups(cfg, evs);
  }

  function Moderators(s: Registry): set<string> {
    set id | id in s.clients && s.clients[id].admin
  }

  /** In polite runs there are never more moderators than configured moderator names. */
  lemma ModeratorsAreBounded(cfg: Config, evs: seq<Event>)
    requires Polite(cfg, evs)
    ensures |Moderators(Play(cfg, evs))| <= |cfg.admins|
  {
    AdminsAreNamed(cfg, evs);
    var s := Play(cfg, evs);
    var nameOf := (id: string) =>
      if id in s.clients && s.clients[id].username.Some? then cfg.lower(s.clients[id].username.value) else "";
    forall x, y | x in Moderators(s) && y in Moderators(s) && nameOf(x) == nameOf(y)
      ensures x == y
    {
      NamesAreUnique(cfg, evs, x, y);
    }
    InjectionSize(Moderators(s), nameOf, cfg.admins);
  }

  // -------------------------------------------------------------------------
  // The objects
  // -------------------------------------------------------------------------

  class RoomManager {
    var rooms: Rooms

    constructor ()
      ensures rooms == map[]
    {
      rooms := map[];
    }

    method Ensure(name: string)
      modifies this
      ensures rooms == EnsureRoom(old(rooms), name)
    {
      if name !in rooms {
        rooms := rooms[name := map[]];
      }
    }

    method Join(room: string, id: string, member: string)
      modifies this
      ensures rooms == JoinRoom(old(rooms), room, id, member)
    {
      Ensure(room);
      rooms := rooms[room := rooms[room][id := member]];
    }

    method Leave(room: string, id: string)
      modifies this
      ensures rooms == LeaveRoom(old(rooms), room, id)
    {
      if room in rooms {
        rooms := rooms[room := rooms[room] - {id}];
      }
    }
  }

  class WSServer {
    const cfg: Config
    const manager: RoomManager
    var clients: map<string, Client>
    var names: map<string, string>

    ghost function View(): Registry
      reads this, manager
    {
      Registry(clients, names, manager.rooms)
    }

    constructor (cfg: Config)
      ensures this.cfg == cfg && fresh(manager) && View() == Start(cfg)
    {
      this.cfg := cfg;
      manager := new RoomManager();
      clients, names := map[], map[];
      new;
      for i := 0 to |cfg.rooms|
        invariant clients == map[] && names == map[] && fresh(manager)
        invariant manager.rooms == map r | r in cfg.rooms[..i] :: map[]
      {
        assert forall r :: r in cfg.rooms[..i + 1] <==> r in cfg.rooms[..i] || r == cfg.rooms[i];
        manager.Ensure(cfg.rooms[i]);
      }
    }

    method HandleConnection(id: string, room: string, user: string)
      requires id !in clients
      modifies this, manager
      ensures View() == Connect(cfg, old(View()), id, room, user)
    {
      var c := Client(if user != "" then Some(user) else None, RoomOr(cfg, room), false, false);
      clients := clients[id := c];
      manager.Join(c.room, id, if user != "" then user else GuestName(id));
    }

    method HandleJoin(id: string, user: string, room: string)
      requires id in clients
      modifies this, manager
      ensures View() == Join(cfg, old(View()), id, user, room)
    {
      var c := clients[id];
      if c.joined {
        return;
      }
      var name, _ := UniqueUsername(cfg.lower, names.Keys, Requested(id, user));
      var r := RoomOr(cfg, room);
      if c.room != r {
        manager.Leave(c.room, id);
      }
      clients := clients[id := Client(Some(name), r, true, cfg.lower(name) in cfg.admins)];
      names := names[cfg.lower(name) := id];
      manager.Join(r, id, name);
    }

    method HandleSwitchRoom(id: string, room: string)
      requires id in clients
      modifies this, manager
      ensures View() == SwitchRoom(old(View()), id, room)
    {
      var c := clients[id];
      if c.username.None? || !ValidRoom(room) || room !in manager.rooms || room == c.room {
        return;
      }
      manager.Leave(c.room, id);
      clients := clients[id := c.(room := room)];
      manager.Join(room, id, c.username.value);
    }

    method HandleCreateRoom(id: string, room: string)
      requires id in clients
      modifies this, manager
      ensures View() == CreateRoom(old(View()), id, room)
    {
      if clients[id].username.None? || !ValidRoom(room) {
        return;
      }
      manager.Ensure(room);
      HandleSwitchRoom(id, room);
    }

    method HandleClose(id: string)
      requires id in clients
      modifies this, manager
      ensures View() == Close(cfg, old(View()), id)
    {
      var c := clients[id];
      clients := clients - {id};
      if c.username.Some? {
        names := names - {cfg.lower(c.username.value)};
      }
      manager.Leave(c.room, id);
    }
  }
}
