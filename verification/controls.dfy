/** The small key, wheel and sensor handlers around the game: the Scene's
    F and I keys, the App's R key, the camera zoom, the two fishing-result
    captions, and the harbor sensor with its collider size. */
module Controls {
  import opened Optional
  import opened Vectors
  import opened Ledger

  // ---------------------------------------------------------------------
  // Scene key handlers

  /** `isFishing`, the shared fishing result and `isInventoryOpen`. */
  datatype Flags = Flags(isFishing: bool, result: Option<string>, inventoryOpen: bool)

  /** All three atoms start off or empty. */
  const Start := Flags(false, None, false)

  /** One key press through the Scene's two listeners: F clears the result
      and starts fishing whatever the state, I flips the inventory window,
      any other key changes nothing. */
  function SceneKey(f: Flags, code: string): (r: Flags)
    ensures code == "KeyF" ==> r == f.(isFishing := true, result := None)
    ensures code == "KeyI" ==> r == f.(inventoryOpen := !f.inventoryOpen)
    ensures code != "KeyF" && code != "KeyI" ==> r == f
  {
    if code == "KeyF" then f.(result := None, isFishing := true)
    else if code == "KeyI" then f.(inventoryOpen := !f.inventoryOpen)
    else f
  }

  /** Two presses of I put the inventory window back as it was. */
  lemma InventoryToggleTwice(f: Flags)
    ensures SceneKey(SceneKey(f, "KeyI"), "KeyI") == f
    ensures SceneKey(f, "KeyI").inventoryOpen != f.inventoryOpen
  {
  }

  /** Pressing F again while fishing changes nothing further. */
  lemma FishingKeyIdempotent(f: Flags)
    ensures SceneKey(SceneKey(f, "KeyF"), "KeyF") == SceneKey(f, "KeyF")
  {
  }

  /** The App's R key: the repair trade on R, nothing on any other key. */
  function AppKey(l: Ledger, code: string): (r: Ledger)
    ensures code != "KeyR" ==> r == l
    ensures code == "KeyR" && l.gold >= RepairCost(l) ==> r.health == MaxHealth && r.gold == l.gold - RepairCost(l)
    ensures code == "KeyR" && l.gold < RepairCost(l) ==> r == l
    ensures r.inventory == l.inventory
  {
    if code == "KeyR" then KeyRepair(l) else l
  }

  // ---------------------------------------------------------------------
  // Camera zoom

  const MinZoom := 15.0
  const MaxZoom := 50.0
  const InitialZoom := 25.0
  /** Zoom change per unit of wheel delta. */
  const WheelStep := 0.05

  /** One wheel event: move by `deltaY * 0.05`, then clamp into [15, 50]. */
  function Zoom(prev: real, deltaY: real): (r: real)
    ensures MinZoom <= r <= MaxZoom
    ensures MinZoom <= prev + deltaY * WheelStep <= MaxZoom ==> r == prev + deltaY * WheelStep
    ensures prev + deltaY * WheelStep < MinZoom ==> r == MinZoom
    ensures prev + deltaY * WheelStep > MaxZoom ==> r == MaxZoom
  {
    var wanted := prev + deltaY * WheelStep;
    var capped := if wanted < MaxZoom then wanted else MaxZoom;
    if MinZoom > capped then MinZoom else capped
  }

  function ZoomAll(zoom: real, deltas: seq<real>): real
    decreases |deltas|
  {
    if deltas == [] then zoom else ZoomAll(Zoom(zoom, deltas[0]), deltas[1..])
  }

  /** From the initial zoom, any run of wheel events keeps the zoom in
      [15, 50]. */
  lemma {:induction false} ZoomStaysInRange(zoom: real, deltas: seq<real>)
    requires MinZoom <= zoom <= MaxZoom
    ensures MinZoom <= ZoomAll(zoom, deltas) <= MaxZoom
    decreases |deltas|
  {
    if deltas != [] {
      ZoomStaysInRange(Zoom(zoom, deltas[0]), deltas[1..]);
    }
  }

  lemma InitialZoomInRange()
    ensures MinZoom <= InitialZoom <= MaxZoom
  {
  }

  // ---------------------------------------------------------------------
  // Fishing-result captions

  /** The caption over the ship: its text and whether it shows. */
  datatype Caption = Caption(text: string, visible: bool)

  const Hidden := Caption("", false)

  const CaughtText := "잡았다!"
  const MissedText := "놓쳤다..."

  /** JavaScript truthiness of the result: null and the empty string are
      falsy. */
  predicate Truthy(result: Option<string>) {
    result.Some? && result.value != ""
  }

  /** The App's caption text: "success" reads as caught, any other result as
      missed. */
  function AppText(result: string): (r: string)
    ensures r == CaughtText <==> result == "success"
    ensures r == MissedText <==> result != "success"
  {
    if result == "success" then CaughtText else MissedText
  }

  /** The Scene's caption text: "fail" reads as missed, any other result is
      shown as it is. */
  function SceneText(result: string): (r: string)
    ensures result == "fail" ==> r == MissedText
    ensures result != "fail" ==> r == result
  {
    if result == "fail" then MissedText else result
  }

  /** The caption effect, run when the result changes: a truthy result sets
      the text through `toText` and shows it; a null or empty one leaves the
      caption as it was. `prev` is the result the effect last saw. */
  function OnResult(c: Caption, prev: Option<string>, next: Option<string>, scene: bool): (r: Caption)
    ensures prev == next || !Truthy(next) ==> r == c
    ensures prev != next && Truthy(next) ==> r.visible
    ensures prev != next && Truthy(next) && scene ==> r.text == SceneText(next.value)
    ensures prev != next && Truthy(next) && !scene ==> r.text == AppText(next.value)
  {
    if prev == next || !Truthy(next) then c
    else Caption(if scene then SceneText(next.value) else AppText(next.value), true)
  }

  /** The caption after the effect has seen `results` in turn, starting
      from caption `c` with `prev` the result it saw last. */
  function CaptionRun(c: Caption, prev: Option<string>, results: seq<Option<string>>, scene: bool): Caption
    decreases |results|
  {
    if results == [] then c else CaptionRun(OnResult(c, prev, results[0], scene), results[0], results[1..], scene)
  }

  /** The result seen last: the final one of `results`, or `prev` when none
      came. */
  function LastSeen(prev: Option<string>, results: seq<Option<string>>): Option<string> {
    if results == [] then prev else results[|results| - 1]
  }

  /** The most recent result that was truthy and differed from the one
      before it, if any. */
  function LastShown(prev: Option<string>, results: seq<Option<string>>): Option<string>
    decreases |results|
  {
    if results == [] then None
    else
      var init := results[..|results| - 1];
      var next := results[|results| - 1];
      if LastSeen(prev, init) != next && Truthy(next) then next else LastShown(prev, init)
  }

  lemma {:induction false} CaptionRunSnoc(c: Caption, prev: Option<string>, results: seq<Option<string>>,
                                          next: Option<string>, scene: bool)
    ensures CaptionRun(c, prev, results + [next], scene) ==
            OnResult(CaptionRun(c, prev, results, scene), LastSeen(prev, results), next, scene)
    decreases |results|
  {
    if results != [] {
      assert (results + [next])[1..] == results[1..] + [next];
      CaptionRunSnoc(OnResult(c, prev, results[0], scene), results[0], results[1..], next, scene);
      assert LastSeen(results[0], results[1..]) == LastSeen(prev, results);
    }
  }

  /** Over any run of results the caption shows the text of the most recent
      truthy result that differed from its predecessor; until there is one,
      the caption stays as it started. */
  lemma {:induction false} CaptionFollowsLastChange(c: Caption, prev: Option<string>,
                                                    results: seq<Option<string>>, scene: bool)
    ensures LastShown(prev, results).None? ==> CaptionRun(c, prev, results, scene) == c
    ensures LastShown(prev, results).Some? ==>
              var v := LastShown(prev, results).value;
              CaptionRun(c, prev, results, scene) == Caption(if scene then SceneText(v) else AppText(v), true)
    decreases |results|
  {
    if results != [] {
      var init := results[..|results| - 1];
      var next := results[|results| - 1];
      assert results == init + [next];
      CaptionRunSnoc(c, prev, init, next, scene);
      CaptionFollowsLastChange(c, prev, init, scene);
    }
  }

  /** The two captions agree on a miss but not on a catch: the App shows
      "잡았다!" while the Scene shows the raw word "success". */
  lemma CaptionsDisagreeOnSuccess()
    ensures AppText("fail") == SceneText("fail") == MissedText
    ensures AppText("success") == CaughtText && SceneText("success") == "success"
    ensures AppText("success") != SceneText("success")
  {
  }

  /** For every result, the App and Scene captions read the same exactly
      when the result is "fail" or is itself the missed text. */
  lemma CaptionsAgreeExactly(result: string)
    ensures AppText(result) == SceneText(result) <==> result == "fail" || result == MissedText
  {
  }

  // ---------------------------------------------------------------------
  // Harbor sensor

  /** A sensor event: which zone, and whether the ship entered or left. */
  datatype Crossing = Crossing(zoneId: string, isInside: bool)

  const HarborZone := "harbor"

  /** `handleIntersection`: only the harbor zone writes `isInHarbor`, and it
      writes whether the ship is now inside. */
  function Intersect(inHarbor: bool, e: Crossing): (r: bool)
    ensures e.zoneId == HarborZone ==> r == e.isInside
    ensures e.zoneId != HarborZone ==> r == inHarbor
  {
    if e.zoneId == HarborZone then e.isInside else inHarbor
  }

  function IntersectAll(inHarbor: bool, events: seq<Crossing>): bool
    decreases |events|
  {
    if events == [] then inHarbor else IntersectAll(Intersect(inHarbor, events[0]), events[1..])
  }

  /** The most recent harbor crossing, if any. */
  function LastHarborCrossing(events: seq<Crossing>): Option<bool>
    decreases |events|
  {
    if events == [] then None
    else if events[|events| - 1].zoneId == HarborZone then Some(events[|events| - 1].isInside)
    else LastHarborCrossing(events[..|events| - 1])
  }

  lemma {:induction false} IntersectAllSnoc(inHarbor: bool, events: seq<Crossing>, e: Crossing)
    ensures IntersectAll(inHarbor, events + [e]) == Intersect(IntersectAll(inHarbor, events), e)
    decreases |events|
  {
    if events != [] {
      assert (events + [e])[1..] == events[1..] + [e];
      IntersectAllSnoc(Intersect(inHarbor, events[0]), events[1..], e);
    }
  }

  /** The flag always equals the most recent harbor enter or exit; with no
      harbor crossing yet it keeps its starting value. */
  lemma {:induction false} FlagFollowsLastCrossing(inHarbor: bool, events: seq<Crossing>)
    ensures IntersectAll(inHarbor, events) == LastHarborCrossing(events).GetOr(inHarbor)
    decreases |events|
  {
    if events != [] {
      var init := events[..|events| - 1];
      var e := events[|events| - 1];
      assert events == init + [e];
      IntersectAllSnoc(inHarbor, init, e);
      FlagFollowsLastCrossing(inHarbor, init);
    }
  }

  /** The sensor collider's half-extents: each size component halved. */
  function HalfExtents(size: Vec3): (r: Vec3)
    ensures Add(r, r) == size
  {
    Vec3(size.x / 2.0, size.y / 2.0, size.z / 2.0)
  }
}
