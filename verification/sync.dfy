/** The socket event handlers of src/components/SocketManager.tsx: each
    inbound event is mapped onto one or more roster reducers. The transport
    itself is not modelled; `self` is the local socket id. */
module Sync {
  import opened Roster

  datatype Event =
    | Connect
    | Hello(players: map<string, PlayerState>)
    | UserConnected(player: PlayerState)
    | PlayerMoved(player: PlayerState)
    | UserDisconnected(id: string)
    | Disconnect

  /** `hello`: every listed peer except the local id is added under its key;
      nothing already in the roster is removed. */
  function Hello(roster: Players, self: string, listed: map<string, PlayerState>): (r: Players)
    ensures r.Keys == roster.Keys + (listed.Keys - {self})
    ensures forall id :: id in listed && id != self ==> r[id] == Whole(listed[id])
    ensures forall id :: id in roster && (id !in listed || id == self) ==> r[id] == roster[id]
  {
    roster + map id | id in listed && id != self :: Whole(listed[id])
  }

  /** The `for (const id in data.players)` loop of the `hello` handler, one
      `addPlayer` per listed id, in whatever order the keys are visited. */
  method HelloLoop(roster: Players, self: string, listed: map<string, PlayerState>) returns (r: Players)
    ensures r == Hello(roster, self, listed)
  {
    r := roster;
    var pending := listed.Keys;
    while pending != {}
      invariant HelloSoFar(roster, self, listed, pending, r)
      decreases pending
    {
      var id :| id in pending;
      HelloStep(roster, self, listed, pending, r, id);
      if id != self {
        r := AddPlayer(r, id, listed[id]);
      }
      pending := pending - {id};
    }
    HelloDone(roster, self, listed, r);
  }

  /** The loop's state with `pending` ids still to visit: every visited
      listed peer is added, and every other key is as it was. */
  ghost predicate HelloSoFar(roster: Players, self: string, listed: map<string, PlayerState>, pending: set<string>, r: Players) {
    pending <= listed.Keys &&
    r.Keys == roster.Keys + (listed.Keys - pending - {self}) &&
    (forall id :: id in listed && id !in pending && id != self ==> r[id] == Whole(listed[id])) &&
    (forall id :: id in roster && (id !in listed || id in pending || id == self) ==> r[id] == roster[id])
  }

  /** Visiting one pending id keeps the loop's state. */
  lemma HelloStep(roster: Players, self: string, listed: map<string, PlayerState>, pending: set<string>, r: Players, id: string)
    requires HelloSoFar(roster, self, listed, pending, r) && id in pending
    ensures HelloSoFar(roster, self, listed, pending - {id}, if id != self then AddPlayer(r, id, listed[id]) else r)
  {
  }

  /** With nothing pending, the loop's state is the comprehension. */
  lemma HelloDone(roster: Players, self: string, listed: map<string, PlayerState>, r: Players)
    requires HelloSoFar(roster, self, listed, {}, r)
    ensures r == Hello(roster, self, listed)
  {
    var h := Hello(roster, self, listed);
    assert r.Keys == h.Keys;
  }

  /** One inbound event applied to the roster. */
  function Apply(roster: Players, self: string, e: Event): (r: Players)
    ensures e.UserDisconnected? ==> r.Keys == roster.Keys - {e.id}
    ensures !e.UserDisconnected? ==> roster.Keys <= r.Keys
    ensures e.PlayerMoved? ==> e.player.id in r && r[e.player.id] == Whole(e.player)
    ensures e.UserConnected? ==> e.player.id in r && r[e.player.id] == Whole(e.player)
    ensures e.Connect? || e.Disconnect? ==> r == roster
    ensures e.Hello? ==>
              r.Keys == roster.Keys + (e.players.Keys - {self}) &&
              (forall id :: id in e.players && id != self ==> r[id] == Whole(e.players[id])) &&
              (forall id :: id in roster && (id !in e.players || id == self) ==> r[id] == roster[id])
    ensures e.UserConnected? || e.PlayerMoved? ==>
              r.Keys == roster.Keys + {e.player.id} &&
              forall k :: k in roster && k != e.player.id ==> r[k] == roster[k]
    ensures e.UserDisconnected? ==> forall k :: k in r ==> r[k] == roster[k]
  {
    match e
    case Connect => roster
    case Hello(listed) => Hello(roster, self, listed)
    case UserConnected(p) => AddPlayer(roster, p.id, p)
    case PlayerMoved(p) => UpdatePlayer(roster, p.id, Whole(p))
    case UserDisconnected(id) => RemovePlayer(roster, id)
    case Disconnect => roster
  }

  /** Events applied in delivery order. */
  function ApplyAll(roster: Players, self: string, events: seq<Event>): Players
    decreases |events|
  {
    if events == [] then roster else ApplyAll(Apply(roster, self, events[0]), self, events[1..])
  }

  /** The roster never mentions the local player. */
  ghost predicate ExcludesSelf(roster: Players, self: string) {
    self !in roster
  }

  /** `hello`, `userDisconnected`, `connect` and `disconnect` keep the local
      id out of the roster. */
  lemma FilteredEventsExcludeSelf(roster: Players, self: string, e: Event)
    requires ExcludesSelf(roster, self)
    requires !e.UserConnected? && !e.PlayerMoved?
    ensures ExcludesSelf(Apply(roster, self, e), self)
  {
  }

  /** `userConnected` and `playerMoved` carry no self-id filter: an event
      naming the local id puts it into the roster. */
  lemma SelfExclusionNotPreserved(roster: Players, self: string, p: PlayerState)
    requires ExcludesSelf(roster, self)
    requires p.id == self
    ensures !ExcludesSelf(Apply(roster, self, UserConnected(p)), self)
    ensures !ExcludesSelf(Apply(roster, self, PlayerMoved(p)), self)
  {
  }

  /** Only `userDisconnected` removes peers, so a peer stays known until its
      own disconnect notice arrives; a dropped connection clears nobody. */
  lemma {:induction false} PeerKeptUntilItsDisconnect(roster: Players, self: string, events: seq<Event>, id: string)
    requires id in roster
    requires forall i :: 0 <= i < |events| ==> events[i] != UserDisconnected(id)
    ensures id in ApplyAll(roster, self, events)
    decreases |events|
  {
    if events != [] {
      var next := Apply(roster, self, events[0]);
      assert id in next;
      PeerKeptUntilItsDisconnect(next, self, events[1..], id);
    }
  }
}
