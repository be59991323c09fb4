/** The multiplayer store: a record from peer id to that peer's last known
    pose, changed only by the three reducers `addPlayer`, `removePlayer` and
    `updatePlayer`. src/store/stores.ts and src/store/multiplayerStore.ts
    declare the same three reducers word for word; they are modelled once. */
module Roster {
  import opened Optional
  import opened Vectors

  /** A peer's pose as sent on the wire. The `id` field is carried separately
      from the key it is stored under; nothing forces the two to agree. */
  datatype PlayerState = PlayerState(id: string, position: Vec3, rotation: Quat)

  /** A stored record. Object spread can leave any field missing (an update
      of an unknown id spreads `undefined`), so every field is optional; the
      same shape models a `Partial<PlayerState>` update. */
  datatype Entry = Entry(id: Option<string>, position: Option<Vec3>, rotation: Option<Quat>)

  type Players = map<string, Entry>

  const NoFields := Entry(None, None, None)

  /** A full `PlayerState` seen as a record with every field present. */
  function Whole(p: PlayerState): Entry {
    Entry(Some(p.id), Some(p.position), Some(p.rotation))
  }

  /** The record stored under `id`, or no fields at all (`{...undefined}`). */
  function Stored(players: Players, id: string): Entry {
    if id in players then players[id] else NoFields
  }

  /** `{ ...base, ...update }`: each field of the update that is present
      replaces the base's; the others are kept. */
  function Merge(base: Entry, update: Entry): (r: Entry)
    ensures update.id.Some? ==> r.id == update.id
    ensures update.id.None? ==> r.id == base.id
    ensures update.position.Some? ==> r.position == update.position
    ensures update.position.None? ==> r.position == base.position
    ensures update.rotation.Some? ==> r.rotation == update.rotation
    ensures update.rotation.None? ==> r.rotation == base.rotation
  {
    Entry(update.id.Or(base.id), update.position.Or(base.position), update.rotation.Or(base.rotation))
  }

  /** `addPlayer(id, player)`: stores the whole record under `id`, replacing
      any previous one, and leaves every other id alone. */
  function AddPlayer(players: Players, id: string, p: PlayerState): (r: Players)
    ensures r.Keys == players.Keys + {id}
    ensures r[id] == Whole(p)
    ensures forall k :: k in players && k != id ==> r[k] == players[k]
  {
    players[id := Whole(p)]
  }

  /** `removePlayer(id)`: deletes `id` if present; nothing else changes. */
  function RemovePlayer(players: Players, id: string): (r: Players)
    ensures r.Keys == players.Keys - {id}
    ensures forall k :: k in r ==> r[k] == players[k]
    ensures id !in players ==> r == players
  {
    players - {id}
  }

  /** `updatePlayer(id, update)`: merges the update into the record under
      `id`, creating the record when the id is unknown. */
  function UpdatePlayer(players: Players, id: string, update: Entry): (r: Players)
    ensures r.Keys == players.Keys + {id}
    ensures id in players ==> r[id] == Merge(players[id], update)
    ensures id !in players ==> r[id] == update
    ensures forall k :: k in players && k != id ==> r[k] == players[k]
  {
    players[id := Merge(Stored(players, id), update)]
  }

  /** Adding the same record twice is the same as adding it once. */
  lemma AddPlayerIdempotent(players: Players, id: string, p: PlayerState)
    ensures AddPlayer(AddPlayer(players, id, p), id, p) == AddPlayer(players, id, p)
  {
  }

  /** Removal deletes at most one key. */
  lemma RemoveShrinksByAtMostOne(players: Players, id: string)
    ensures |RemovePlayer(players, id)| <= |players|
    ensures |players| - 1 <= |RemovePlayer(players, id)|
    ensures id in players <==> |RemovePlayer(players, id)| == |players| - 1
  {
    var r := RemovePlayer(players, id);
    if id in players {
      assert r.Keys == players.Keys - {id};
      assert |r.Keys| == |players.Keys| - 1;
    } else {
      assert r == players;
    }
  }

  /** Removing an id that was just added fresh restores the original roster. */
  lemma RemoveUndoesFreshAdd(players: Players, id: string, p: PlayerState)
    requires id !in players
    ensures RemovePlayer(AddPlayer(players, id, p), id) == players
  {
    var r := RemovePlayer(AddPlayer(players, id, p), id);
    assert r.Keys == players.Keys;
  }

  /** An update carrying every field replaces the record outright: it has
      exactly the effect of `addPlayer`, whether or not the id was known. */
  lemma WholeUpdateIsAdd(players: Players, id: string, p: PlayerState)
    ensures UpdatePlayer(players, id, Whole(p)) == AddPlayer(players, id, p)
  {
  }

  /** An update carrying no fields leaves a known record as it was. */
  lemma EmptyUpdateKeepsKnownRecord(players: Players, id: string)
    requires id in players
    ensures UpdatePlayer(players, id, NoFields) == players
  {
    var r := UpdatePlayer(players, id, NoFields);
    assert r.Keys == players.Keys;
    assert r[id] == players[id];
  }
}
