# Velum game rules in Dafny

Velum is a browser multiplayer sailing game. A player sails a ship, fishes,
sells the catch at a harbor and repairs the ship there. This project models
the game-rule code behind it as pure Dafny functions over immutable data, and
proves what those rules promise:

- **Roster** (`roster.dfy`). This is the multiplayer store: a map from peer id
  to that peer's last pose, with the reducers `addPlayer`, `removePlayer` and
  `updatePlayer`. Object spread can leave fields missing, so a stored record
  is a partial record.
- **Sync** (`sync.dfy`). The socket handlers map `hello`, `userConnected`,
  `playerMoved`, `userDisconnected`, `connect` and `disconnect` onto the
  reducers.
- **Catalog** (`catalog.dfy`). The static tables: the default ship's handling
  constants, the fish table, and the two-draw reward pick `getRandomFish`.
- **Ledger** (`ledger.dfy`). Gold, fish inventory and ship health. It covers
  the derived fish total and health percentage, the harbor's repair and
  sell-all buttons, and the R-key repair.
- **Fishing** (`fishing.dfy`). The timing minigame. F starts it and draws a
  success zone. An indicator bounces along the bar. Space stops it and pays
  10 gold when the indicator is inside the zone.
- **Ship** (`ship.dfy`). The W/A/S/D key flags and one physics frame: thrust,
  turn, drag and the two speed caps. Also the outbound pose message and
  rock-collision damage.
- **Controls** (`controls.dfy`). The Scene's F and I keys, the App's R key,
  the camera-zoom clamp, the two fishing-result captions, and the harbor
  sensor flag with its collider size.
- `optional.dfy`, `vectors.dfy` and `draws.dfy` hold shared helpers: an
  `Option` type, 3-vector algebra, and facts about scaling a draw in [0, 1).

Inputs the code takes from its environment become parameters. These are the
ship's heading vector, its velocities, frame times, the values of
`Math.random()`, and the length of the velocity vector, which is a square
root. Positions and velocities are `real`.

## Model

| member | source | states |
|---|---|---|
| Roster.Merge | src/store/stores.ts:82 | every field present in the update replaces the stored one; every absent field keeps the stored value |
| Roster.AddPlayer | src/store/stores.ts:71-73 | the id is stored with the whole record, the key set gains exactly that id, and every other entry is unchanged |
| Roster.RemovePlayer | src/store/stores.ts:74-78 | the key set loses exactly the id, surviving entries keep their values, and removing an absent id is a no-op |
| Roster.UpdatePlayer | src/store/stores.ts:79-84 | a known record is merged with the update; an unknown id gets a record holding exactly the update's fields; other ids are untouched |
| Roster.AddPlayerIdempotent | src/store/stores.ts:71-73 | adding the same record twice equals adding it once |
| Roster.RemoveShrinksByAtMostOne | src/store/multiplayerStore.ts:24-28 | removal shrinks the roster by at most one, and by exactly one iff the id was present |
| Roster.RemoveUndoesFreshAdd | src/store/multiplayerStore.ts:21-28 | removing an id that was just added fresh gives back the original roster |
| Roster.WholeUpdateIsAdd | src/store/multiplayerStore.ts:21-34 | an update that carries every field has exactly the effect of `addPlayer`, known id or not |
| Roster.EmptyUpdateKeepsKnownRecord | src/store/multiplayerStore.ts:29-34 | an update with no fields leaves a roster that already holds the id unchanged |
| Sync.Hello | src/components/SocketManager.tsx:27-33 | every listed id except the local one ends up holding its listed record; existing entries are never removed, and unlisted ones keep their values |
| Sync.HelloLoop | src/components/SocketManager.tsx:28-32 | the key-by-key `addPlayer` loop reaches the same roster as `Sync.Hello`, whatever order the keys are visited in |
| Sync.Apply | src/components/SocketManager.tsx:27-55 | `hello` adds every listed peer but the local one and keeps every other entry; `userConnected` and `playerMoved` leave the sender's whole record, add only that key and keep every other entry; `userDisconnected` removes just that id and keeps the survivors' values; `connect` and `disconnect` change nothing |
| Sync.FilteredEventsExcludeSelf | src/components/SocketManager.tsx:27-33 | `hello`, `userDisconnected`, `connect` and `disconnect` keep the local id out of a roster that did not hold it |
| Sync.SelfExclusionNotPreserved | src/components/SocketManager.tsx:36-44 | a `userConnected` or `playerMoved` event that carries the local id puts it into the roster |
| Sync.PeerKeptUntilItsDisconnect | src/components/SocketManager.tsx:47-55 | across any event sequence that has no `userDisconnected` for a peer, that peer stays in the roster |
| Catalog.DefaultShipSane | src/data/gameData.ts:17-24 | the default ship has drag and angular drag strictly between 0 and 1, positive acceleration, and a reverse cap no higher than its speed cap |
| Catalog.FishTableWellFormed | src/data/gameData.ts:36-43 | fish names are unique and every price is positive |
| Catalog.Find | src/components/ui/HarborUI.tsx:49 | the result is the first table entry with that name, and the search comes back empty iff no entry has the name |
| Catalog.FindDistinct | src/components/ui/HarborUI.tsx:49 | when every name in the table is distinct, looking up the name of any entry returns exactly that entry |
| Catalog.PriceOfListedValue | src/components/ui/HarborUI.tsx:49-52 | a listed fish sells for its own positive table value; an unlisted name sells for 0 |
| Catalog.Tier | src/data/gameData.ts:48 | the filtered tier holds exactly the table's fish of that rarity |
| Catalog.TierCounts | src/data/gameData.ts:48 | the filter keeps every fish of that rarity as many times as the table holds it, and no fish of another rarity |
| Catalog.Pick | src/data/gameData.ts:49 | on a non-empty pool the pick succeeds iff the draw is in [0, 1), and it returns the entry at the draw's floored scaled index |
| Catalog.TiersHoldTwo | src/data/gameData.ts:36-48 | the common tier is the table's first two fish, the uncommon tier the next two and the rare tier the last two, in table order; so every tier holds exactly two |
| Catalog.PairedTiers | src/data/gameData.ts:48 | any six-entry table laid out as two common, two uncommon and two rare fish filters into exactly those pairs, in order |
| Catalog.RandomFish | src/data/gameData.ts:45-57 | a second draw in [0, 1) always yields a table fish; the fish is rare below 0.05, uncommon in [0.05, 0.3) and common from 0.3 on |
| Catalog.PickFromPair | src/data/fishData.ts:27 | from a two-fish pool, draws below one half pick the first fish and draws from one half on pick the second |
| Catalog.PickWithinTierIsUniform | src/data/fishData.ts:21-35 | within the chosen tier, each of its two fish takes half of the second draw's range |
| Catalog.TierWidths | src/data/fishData.ts:23-32 | the three tier intervals of the first draw have widths 0.05, 0.25 and 0.70, and every draw in each interval selects that tier |
| Ledger.InitialIsValid | src/store/stores.ts:30-45 | the game starts with 0 gold, an empty inventory and health 100, which satisfies the ledger invariant |
| Ledger.Accumulate | src/store/stores.ts:34-37 | the `forEach` accumulation equals the order-free sum of the map's values |
| Ledger.TotalFishCount | src/store/playerStore.ts:13-20 | the total fish count is the sum of all counts; it is non-negative and 0 for an empty inventory |
| Ledger.TotalAfterOneMore | src/store/playerStore.ts:13-20 | one more fish of any name, known or new, raises the total by exactly one |
| Ledger.HealthPercentage | src/store/stores.ts:47-51 | the percentage times the maximum equals 100 times the health; it lies in [0, 100] for health in range and equals the health when the maximum is 100 |
| Ledger.HarborRepair | src/components/ui/HarborUI.tsx:25-38 | at full health only a notice; with enough gold, full health for exactly 100 − health gold; otherwise nothing changes; gold plus health is conserved and the invariant is kept |
| Ledger.KeyRepair | src/App.tsx:26-36 | with enough gold, full health for exactly the cost; otherwise unchanged; gold plus health is conserved and the invariant is kept |
| Ledger.KeyRepairAtFullHealth | src/App.tsx:28-31 | at full health the R-key repair costs 0 and changes nothing |
| Ledger.RepairPathsAgree | src/components/ui/HarborUI.tsx:30-37 | the harbor button and the R key leave the same ledger; they differ only in the notice |
| Ledger.Priced | src/components/ui/HarborUI.tsx:48-53 | each held fish is priced at its table value times its count, over exactly the held names |
| Ledger.SellAll | src/components/ui/HarborUI.tsx:41-58 | an empty inventory is only reported; otherwise gold grows by the sum of the priced inventory and the inventory is emptied; gold never drops and health is kept |
| Fishing.ZoneOnBar | src/components/ui/FishingUI.tsx:24-25 | for draws in [0, 1) the zone width lies in [50, 100) and the zone lies inside the 400-wide bar |
| Fishing.ZoneReachable | src/components/ui/FishingUI.tsx:24-25 | the start of every drawn zone lies on the indicator's track [0, 396] and inside the zone |
| Fishing.CatchAlwaysPossible | src/components/ui/FishingUI.tsx:21-70 | for any drawn zone, F, a first frame, a second frame after the time the indicator needs to reach the zone's start, and Space end in "success" with exactly 10 more gold: the game is always winnable |
| Fishing.PressF | src/components/ui/FishingUI.tsx:21-30 | F clears the result and sets fishing; from idle it draws a fresh zone and puts the indicator at 0 moving forward; while fishing nothing else changes |
| Fishing.Step | src/components/ui/FishingUI.tsx:37-45 | an in-range move keeps its direction; leaving the track turns round and clamps to the nearer end; the result is always on [0, 396] |
| Fishing.Frame | src/components/ui/FishingUI.tsx:32-49 | outside fishing nothing changes; while fishing the frame clock becomes the frame's time, the first frame leaves the indicator in place, and later frames move it by `Step` over the elapsed milliseconds divided by 1000; zone and result are kept and the indicator stays on the track |
| Fishing.Space | src/components/ui/FishingUI.tsx:52-73 | while fishing: "success" iff the indicator is in the zone (bounds included), "fail" otherwise, 10 gold on success only, fishing stops, zone and indicator kept; outside fishing no effect |
| Fishing.RunKeepsInvariantAndPaysPerCatch | src/components/ui/FishingUI.tsx:37-70 | over any input sequence the indicator stays on the track and gold grows by exactly 10 per catch |
| Ship.KeyDown | src/components/Ship.tsx:17-23 | W, S, A and D raise their own flag; other keys change nothing |
| Ship.KeyUp | src/components/Ship.tsx:25-31 | W, S, A and D lower their own flag; other keys change nothing |
| Ship.PressThenReleaseRestores | src/components/Ship.tsx:17-31 | pressing and releasing a key that was up restores the flags |
| Ship.SetLength | src/components/Ship.tsx:114 | the rescaled vector has the requested squared length, or stays zero when it was zero, and a non-negative target keeps its direction |
| Ship.CapSpeed | src/components/Ship.tsx:113-114 | under the limit the velocity is untouched; above a non-negative limit it becomes the velocity scaled by limit / speed, so its length is exactly the limit and its direction is kept |
| Ship.ReverseCap | src/components/Ship.tsx:115-117 | the second cap fires only when the velocity points against the probe and the pre-cap speed is over the limit; it then scales the velocity by limit / length, giving exactly the limit in the same direction; otherwise nothing changes |
| Ship.CapFactor | src/components/Ship.tsx:112-117 | the combined factor of both caps lies in [0, 1]; it is 1 when neither cap fires, brings the speed to exactly `maxSpeed` when only the first fires, and to exactly `backwardMaxSpeed` when the reverse cap fires |
| Ship.Clamp | src/components/Ship.tsx:112-117 | with non-negative limits the result is the incoming velocity scaled by `CapFactor`; the speed is at most `maxSpeed` (when `backwardMaxSpeed <= maxSpeed`, as for the default ship), never above the incoming speed, and at most `backwardMaxSpeed` when moving against the probe; under both limits nothing changes |
| Ship.Turn | src/components/Ship.tsx:104-110 | A adds and D subtracts `rotationSpeed·dt`, then angular drag scales the result |
| Ship.OpposedTurnsCancel | src/components/Ship.tsx:105-106 | holding A and D together gives the same turn as holding neither |
| Ship.ThrustIntended | src/components/Ship.tsx:96-101 | W adds acceleration·dt along the heading, S adds −0.5·acceleration·dt along it, both keys add both, no key leaves the velocity unchanged; the heading is not altered |
| Ship.ThrustAsWritten | src/components/Ship.tsx:92-101 | unless W and S are both held the velocity matches the intended thrust, but the forward vector ends up rescaled by each key's factor |
| Ship.BothKeysAsWritten | src/components/Ship.tsx:96-101 | as written, W and S together add the forward thrust and then that thrust vector scaled by −0.5·acceleration·dt, so the reverse part grows with (acceleration·dt)² |
| Ship.Settle | src/components/Ship.tsx:108-121 | the output velocity is the dragged velocity scaled by the caps' factor k in [0, 1] and levelled, so under both caps it is exactly the dragged velocity levelled; the spin is the turn, about the vertical axis only |
| Ship.SettleWithinCaps | src/components/Ship.tsx:112-120 | with non-negative limits the output speed is at most `maxSpeed` (when the reverse limit is the lower), never above the dragged speed, and at most `backwardMaxSpeed` when moving against a level probe |
| Ship.TickAsWritten | src/components/Ship.tsx:88-121 | the frame as the code computes it: the dragged as-written thrust scaled by the caps' factor, tested against the rescaled forward vector, and levelled; the spin is the turn |
| Ship.TickAsWrittenWithinMaxSpeed | src/components/Ship.tsx:112-120 | as written the output speed is still at most `maxSpeed` (when `backwardMaxSpeed <= maxSpeed`, as for the default ship) |
| Ship.Tick | src/components/Ship.tsx:88-121 | the frame with the reverse cap tested against the heading: the dragged intended thrust scaled by the caps' factor and levelled; the spin is the turn |
| Ship.TickWithinMaxSpeed | src/components/Ship.tsx:112-120 | the intended frame's output speed is at most `maxSpeed` (when `backwardMaxSpeed <= maxSpeed`, as for the default ship) and never above the dragged speed |
| Ship.TickReverseCapped | src/components/Ship.tsx:115-120 | the intended frame's output, moving against a level heading, is no faster than `backwardMaxSpeed` |
| Ship.ReverseCapMissedAsWritten | src/components/Ship.tsx:97-116 | as written, with only S held, a ship moving astern keeps its whole dragged velocity up to `maxSpeed`, so it can exceed `backwardMaxSpeed` |
| Ship.IdleFrameOnlyDrags | src/components/Ship.tsx:108-110 | with no key held and under both caps, the frame only applies linear and angular drag |
| Ship.MoveMessage | src/components/Ship.tsx:124-131 | a pose message goes out iff a socket exists and is connected, and it carries the socket's id and the ship's pose |
| Ship.MoveReachesPeers | src/components/SocketManager.tsx:42-44 | the pose message, delivered to a peer as `playerMoved`, stores exactly the sender's id, position and rotation under the sender's socket id and leaves every other entry alone |
| Ship.Collide | src/components/Ship.tsx:136-140 | a rock contact costs 5 health, floored at 0; any other contact costs nothing; health never rises |
| Ship.CollisionsAccumulate | src/components/Ship.tsx:136-140 | after any contact sequence, health is the start less 5 per rock hit, floored at 0, with no debounce; it stays in [0, start] |
| Controls.SceneKey | src/components/Scene.tsx:28-48 | F clears the result and starts fishing from any state, I flips the inventory window, any other key changes neither |
| Controls.InventoryToggleTwice | src/components/Scene.tsx:46-48 | I always flips the inventory flag, and two presses restore it |
| Controls.FishingKeyIdempotent | src/components/Scene.tsx:29-32 | a second F press changes nothing further |
| Controls.AppKey | src/App.tsx:26-36 | R performs the repair trade; any other key leaves the ledger alone |
| Controls.Zoom | src/App.tsx:108-110 | a wheel event moves the zoom by `deltaY·0.05`, clamped into [15, 50] |
| Controls.ZoomStaysInRange | src/App.tsx:95-110 | from a zoom in range, any sequence of wheel events keeps it in [15, 50] |
| Controls.InitialZoomInRange | src/App.tsx:95 | the initial zoom 25 lies in [15, 50] |
| Controls.AppText | src/App.tsx:73 | the App caption reads caught iff the result is "success", and missed otherwise |
| Controls.SceneText | src/components/Scene.tsx:64 | the Scene caption reads missed for "fail" and shows any other result as it is |
| Controls.OnResult | src/components/Scene.tsx:62-69 | a changed, truthy result shows its caption; a null or empty result, or an unchanged one, leaves the caption as it was |
| Controls.CaptionFollowsLastChange | src/components/Scene.tsx:62-69 | over any run of results the caption shows the text of the most recent truthy result that differed from its predecessor, or stays as it started when there is none |
| Controls.CaptionsDisagreeOnSuccess | src/App.tsx:71-78 | both captions read missed for "fail", but on "success" the App caption reads caught while the Scene caption shows the raw word |
| Controls.CaptionsAgreeExactly | src/App.tsx:73 | for every result, the two captions read the same iff the result is "fail" or is itself the missed text; in particular they differ on "success" |
| Controls.Intersect | src/components/InteractionZone.tsx:18-23 | a harbor crossing sets the flag to whether the ship is inside; other zones leave it alone |
| Controls.FlagFollowsLastCrossing | src/components/InteractionZone.tsx:18-31 | after any crossing sequence the flag equals the most recent harbor crossing, or its start value when there is none |
| Controls.HalfExtents | src/components/InteractionZone.tsx:28 | the half-extents doubled give back the zone size |

## Left out

- Socket.io transport, the server URL and connection life cycle, Firebase
  authentication and persistence are not modelled. Only the mapping from
  events to reducers is.
- Rendering is not modelled. This covers the ship model with its smoke
  marker at or below 30% health, the harbor panel's visibility, the inventory
  window, the water, lighting and the world. So are the camera's follow lerp
  and `lookAt`, and the remote-pose interpolation of other players. That
  interpolation is quaternion slerp with an unclamped factor, so there is no
  no-overshoot property to state.
- The physics engine is not modelled. The heading (`applyQuaternion` of the
  body's rotation), the velocities, the pose and collision detection are
  inputs. When the rigid body is missing the frame does nothing; that early
  return is not modelled.
- Square roots: `currentVelocity.length()` is an input `speed` tied to the
  velocity by `speed ≥ 0` and `speed² = |v|²`.
- `Math.random()`, `requestAnimationFrame` and `setTimeout` are not modelled.
  Draws and frame times are inputs. The 2-second timers that hide messages
  and captions are left out, as are `console.log` messages.
- Numbers are mathematical reals and integers. JavaScript's double rounding
  is not modelled.
- React scheduling: an effect's listeners are taken to be in place before
  the next input event. So the Space handler is live exactly while fishing,
  and F while fishing only clears the result.
- The atom modules src/store/shipStore.ts, src/store/gameStore.ts and
  src/store/playerStore.ts declare atoms separate from those in
  src/store/stores.ts. src/App.tsx and src/components/ui/FishingUI.tsx
  import some of them, while the Scene, harbor and ship code use stores.ts.
  The model keeps one state per concern and does not model the split. In
  the code as written the split has these effects. The R key
  (src/App.tsx:22-36) reads the health of src/store/shipStore.ts, which
  nothing lowers, so it always costs 0. The 10 gold a catch pays in
  src/components/ui/FishingUI.tsx goes to the gold of
  src/store/playerStore.ts, which neither the harbor panel nor the player
  panel reads. The gold of src/store/stores.ts starts at 0 and only selling
  raises it, but nothing fills that module's inventory, so the harbor's
  repair of a damaged ship always reports not enough gold.
- A `disconnect` does not clear peers. Nothing guards against resolving a
  catch twice. A catch adds gold only and never touches the inventory. Drag
  has no rest threshold below which the ship stops.
- Catalog.RandomFish: a draw outside [0, 1) is allowed and yields no fish
  (JavaScript's `undefined`). `Math.random()` never produces one.
- Ledger.HealthPercentage: requires a positive maximum. The code would divide
  by zero, but the maximum is the constant 100.
- Ship.Clamp: its bounds assume non-negative `maxSpeed` and
  `backwardMaxSpeed`. A negative limit behaves as its magnitude under
  `setLength`, and that case is not bounded.
- Ship.Settle: its bounds carry the same assumption of non-negative limits.
- Ship.Tick: its reverse bound is stated for a level heading (no vertical
  component), which is what the ship's locked rotations give.
- Ship.ReverseCapMissedAsWritten: stated for positive acceleration and frame
  time and a speed under `maxSpeed`. The default ship and any real frame
  meet these.
- Ship.ThrustAsWritten: with W and S held together its own contract records
  only the rescaled forward vector; the velocity in that case is stated by
  Ship.BothKeysAsWritten.
- Ship.Settle, Ship.Tick, Ship.TickAsWritten: their factor form is stated for
  non-negative limits. The speed bounds are stated separately, by
  Ship.SettleWithinCaps, Ship.TickWithinMaxSpeed, Ship.TickReverseCapped and
  Ship.TickAsWrittenWithinMaxSpeed.
- Controls.CaptionFollowsLastChange: the 2-second timer that hides the
  caption is not modelled, so `visible` is the value the effect sets.
- Sync.HelloLoop: JavaScript's `for … in` key order is not modelled. The loop
  visits keys in an arbitrary order, and the result does not depend on it.

## Findings

| source | as written | input that shows it | evidently intended | confidence | as-written member | corrected member |
|---|---|---|---|---|---|---|
| src/components/Ship.tsx:97-116 | `multiplyScalar` rescales `forwardDirection` in place. With only S held it becomes the heading times −0.5·acceleration·dt, which points astern. The reverse cap tests against that vector. | Only S held, heading (0, 0, −1), velocity (0, 0, 2.5), dt 0.1 s, default ship. The frame leaves the ship moving astern at 2.6675, but the reverse cap is 1.5. | Thrust along a copy of the heading, and test the reverse cap against the unscaled heading. | not executed | Ship.ReverseCapMissedAsWritten | Ship.TickReverseCapped |
