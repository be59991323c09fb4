/** The fishing timing minigame of src/components/ui/FishingUI.tsx together
    with the F-key start of the fishing controllers. An indicator bounces
    along a bar while the player waits for the success zone; Space stops it
    and pays out when it is inside the zone. The two `Math.random()` calls of
    the zone set-up are supplied draws, frame timestamps are inputs, and the
    React effect that registers the handlers is taken to commit before the
    next input event, so the Space handler is live exactly while fishing. */
module Fishing {
  import opened Optional
  import opened Draws

  /** Indicator speed in pixels per second. */
  const Speed := 150.0
  /** The indicator is kept in [0, TrackEnd]. */
  const TrackEnd := 396.0
  /** The bar the success zone is placed on. */
  const BarLength := 400.0
  const MinWidth := 50.0
  const WidthSpread := 50.0
  /** Gold paid for a catch. */
  const Reward := 10

  datatype Zone = Zone(start: real, width: real)

  /** `isFishing`, the shared fishing result, the success zone, the indicator
      position and direction, and the animation's last frame time (0 until
      the first frame). */
  datatype Session = Session(
    isFishing: bool,
    result: Option<string>,
    zone: Zone,
    pos: real,
    dir: int,
    lastTime: real)

  /** Nothing started yet. */
  const Idle := Session(false, None, Zone(0.0, 0.0), 0.0, 1, 0.0)

  /** The indicator is on the track and moves one way or the other. */
  ghost predicate Inv(s: Session) {
    0.0 <= s.pos <= TrackEnd && (s.dir == 1 || s.dir == -1)
  }

  function InZone(pos: real, zone: Zone): bool {
    zone.start <= pos <= zone.start + zone.width
  }

  /** The stretch of the bar a zone of that width may start in. */
  function Room(width: real): real {
    BarLength - width
  }

  /** The zone drawn at start-up from two draws. */
  function ZoneFor(widthDraw: real, startDraw: real): Zone {
    var width := MinWidth + widthDraw * WidthSpread;
    Zone(startDraw * Room(width), width)
  }

  /** For draws in [0, 1) the width lies in [50, 100) and the start in
      [0, 400 - width), so the whole zone lies on the bar. */
  lemma ZoneOnBar(widthDraw: real, startDraw: real)
    requires 0.0 <= widthDraw < 1.0 && 0.0 <= startDraw < 1.0
    ensures MinWidth <= ZoneFor(widthDraw, startDraw).width < MinWidth + WidthSpread
    ensures 0.0 <= ZoneFor(widthDraw, startDraw).start < Room(ZoneFor(widthDraw, startDraw).width)
    ensures ZoneFor(widthDraw, startDraw).start + ZoneFor(widthDraw, startDraw).width < BarLength
  {
    var z := ZoneFor(widthDraw, startDraw);
    assert MinWidth <= z.width < MinWidth + WidthSpread;
    var room := Room(z.width);
    ScaledDrawBelow(z.start, startDraw, room);
  }

  /** The start of every zone that can be drawn lies on the indicator's
      track and inside the zone. */
  lemma ZoneReachable(widthDraw: real, startDraw: real)
    requires 0.0 <= widthDraw < 1.0 && 0.0 <= startDraw < 1.0
    ensures 0.0 <= ZoneFor(widthDraw, startDraw).start <= TrackEnd
    ensures InZone(ZoneFor(widthDraw, startDraw).start, ZoneFor(widthDraw, startDraw))
  {
    ZoneOnBar(widthDraw, startDraw);
  }

  /** The F key: the shared result is cleared and `isFishing` set. Only when
      fishing was off does the minigame effect run again, drawing a fresh
      zone and putting the indicator back at 0 moving forward. */
  function PressF(s: Session, widthDraw: real, startDraw: real): (r: Session)
    ensures r.isFishing && r.result == None
    ensures !s.isFishing ==> r.zone == ZoneFor(widthDraw, startDraw) && r.pos == 0.0 && r.dir == 1 && r.lastTime == 0.0
    ensures s.isFishing ==> r == s.(result := None)
    ensures Inv(s) ==> Inv(r)
  {
    if s.isFishing then s.(result := None)
    else Session(true, None, ZoneFor(widthDraw, startDraw), 0.0, 1, 0.0)
  }

  datatype Indicator = Indicator(pos: real, dir: int)

  /** One animation step over `dt` seconds: move, and on leaving the track
      turn round and clamp back onto it. */
  function Step(pos: real, dir: int, dt: real): (r: Indicator)
    ensures 0.0 <= r.pos <= TrackEnd
    ensures (dir == 1 || dir == -1) ==> (r.dir == 1 || r.dir == -1)
    ensures var moved := pos + dir as real * Speed * dt;
            (0.0 <= moved <= TrackEnd ==> r == Indicator(moved, dir)) &&
            (moved > TrackEnd ==> r == Indicator(TrackEnd, -dir)) &&
            (moved < 0.0 ==> r == Indicator(0.0, -dir))
  {
    var moved := pos + dir as real * Speed * dt;
    if moved > TrackEnd || moved < 0.0 then
      Indicator(if moved < 0.0 then 0.0 else if moved > TrackEnd then TrackEnd else moved, dir * -1)
    else Indicator(moved, dir)
  }

  /** One animation frame at timestamp `time` (milliseconds). The first frame
      only records its time; later ones step by the elapsed seconds. Frames
      arrive only while fishing. */
  function Frame(s: Session, time: real): (r: Session)
    ensures !s.isFishing ==> r == s
    ensures s.isFishing ==> r.lastTime == time
    ensures s.isFishing && s.lastTime == 0.0 ==> r.pos == s.pos && r.dir == s.dir
    ensures s.isFishing && s.lastTime != 0.0 ==>
              Indicator(r.pos, r.dir) == Step(s.pos, s.dir, (time - s.lastTime) / 1000.0)
    ensures r.isFishing == s.isFishing && r.result == s.result && r.zone == s.zone
    ensures Inv(s) ==> Inv(r)
  {
    if !s.isFishing then s
    else if s.lastTime != 0.0 then
      var next := Step(s.pos, s.dir, (time - s.lastTime) / 1000.0);
      s.(pos := next.pos, dir := next.dir, lastTime := time)
    else s.(lastTime := time)
  }

  datatype Resolved = Resolved(session: Session, gold: int)

  /** The Space key while fishing: the indicator's position is compared
      with the zone, bounds included; a hit records "success" and pays the
      reward, a miss records "fail"; fishing stops and the zone is kept.
      The inventory is not touched. Outside fishing no handler listens. */
  function Space(s: Session, gold: int): (r: Resolved)
    ensures !s.isFishing ==> r == Resolved(s, gold)
    ensures s.isFishing ==> !r.session.isFishing && r.session.zone == s.zone && r.session.pos == s.pos
    ensures s.isFishing ==> (r.session.result == Some("success") <==> InZone(s.pos, s.zone))
    ensures s.isFishing ==> (r.session.result == Some("fail") <==> !InZone(s.pos, s.zone))
    ensures r.gold == if s.isFishing && InZone(s.pos, s.zone) then gold + Reward else gold
    ensures Inv(s) ==> Inv(r.session)
  {
    if !s.isFishing then Resolved(s, gold)
    else if InZone(s.pos, s.zone) then Resolved(s.(result := Some("success"), isFishing := false), gold + Reward)
    else Resolved(s.(result := Some("fail"), isFishing := false), gold)
  }

  datatype Input = KeyF(widthDraw: real, startDraw: real) | AnimationFrame(time: real) | KeySpace

  function Apply(st: Resolved, i: Input): Resolved {
    match i
    case KeyF(w, d) => Resolved(PressF(st.session, w, d), st.gold)
    case AnimationFrame(t) => Resolved(Frame(st.session, t), st.gold)
    case KeySpace => Space(st.session, st.gold)
  }

  function Run(st: Resolved, inputs: seq<Input>): Resolved
    decreases |inputs|
  {
    if inputs == [] then st else Run(Apply(st, inputs[0]), inputs[1..])
  }

  function Catches(st: Resolved, inputs: seq<Input>): nat
    decreases |inputs|
  {
    if inputs == [] then 0
    else
      var caught := if inputs[0].KeySpace? && st.session.isFishing && InZone(st.session.pos, st.session.zone) then 1 else 0;
      caught + Catches(Apply(st, inputs[0]), inputs[1..])
  }

  /** The game is always winnable: whatever zone is drawn, pressing F, then
      letting a first frame arrive and a second one after the time the
      indicator needs to reach the zone's start, then pressing Space, is a
      catch that pays the reward. */
  lemma CatchAlwaysPossible(widthDraw: real, startDraw: real, gold: int)
    requires 0.0 <= widthDraw < 1.0 && 0.0 <= startDraw < 1.0
    ensures var z := ZoneFor(widthDraw, startDraw);
            var inputs := [KeyF(widthDraw, startDraw), AnimationFrame(1.0),
                           AnimationFrame(1.0 + 1000.0 * z.start / Speed), KeySpace];
            Run(Resolved(Idle, gold), inputs).gold == gold + Reward &&
            Run(Resolved(Idle, gold), inputs).session.result == Some("success")
  {
    var z := ZoneFor(widthDraw, startDraw);
    ZoneReachable(widthDraw, startDraw);
    var inputs := [KeyF(widthDraw, startDraw), AnimationFrame(1.0),
                   AnimationFrame(1.0 + 1000.0 * z.start / Speed), KeySpace];
    var s0 := Resolved(Idle, gold);
    var s1 := Apply(s0, inputs[0]);
    assert s1.session == Session(true, None, z, 0.0, 1, 0.0);
    var s2 := Apply(s1, inputs[1]);
    assert s2.session == s1.session.(lastTime := 1.0);
    var s3 := Apply(s2, inputs[2]);
    var dt := (1.0 + 1000.0 * z.start / Speed - 1.0) / 1000.0;
    assert dt == z.start / Speed;
    assert 0.0 + 1 as real * Speed * dt == z.start;
    assert s3.session.pos == z.start && s3.session.isFishing && s3.session.zone == z;
    var s4 := Apply(s3, inputs[3]);
    assert s4.gold == gold + Reward && s4.session.result == Some("success");
    assert Run(s0, inputs) == Run(s1, inputs[1..]);
    assert Run(s1, inputs[1..]) == Run(s2, inputs[2..]);
    assert Run(s2, inputs[2..]) == Run(s3, inputs[3..]);
    assert Run(s3, inputs[3..]) == Run(s4, inputs[4..]);
    assert inputs[4..] == [];
  }

  /** Over any run of inputs the indicator stays on the track, and gold
      grows by exactly the reward per catch: fishing never costs gold. */
  lemma {:induction false} RunKeepsInvariantAndPaysPerCatch(st: Resolved, inputs: seq<Input>)
    requires Inv(st.session)
    ensures Inv(Run(st, inputs).session)
    ensures Run(st, inputs).gold == st.gold + Reward * Catches(st, inputs)
    decreases |inputs|
  {
    if inputs != [] {
      RunKeepsInvariantAndPaysPerCatch(Apply(st, inputs[0]), inputs[1..]);
    }
  }
}
