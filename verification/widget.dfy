/**
 The colour-wheel widget: the wheel plus an optional saturation bar and an
 optional lightness bar, all listening to the same window events.

 Each surface runs its own drag state machine on its own view of an event:
 a mousedown is `inside` only for the surface its target lies in, and each
 surface measures its own rectangle. What reaches the host's `setColor` is
 the wheel's normalised point (handed to the hue/saturation helper), the
 saturation bar's level as the single-key update `{s: v}`, or the lightness
 bar's level as `{l: v}`.
 */
module Widget {
  import opened Geometry
  import opened Rounding
  import opened Drag

  /** Where a mousedown's target lies. The bars and the wheel are sibling
      elements, so a target lies in at most one of them. */
  datatype Region = OnWheel | OnSaturationBar | OnLightnessBar | Elsewhere

  /** The rectangle origins of the three surfaces when an event is handled. */
  datatype Layout = Layout(wheel: Point, saturationBar: Point, lightnessBar: Point)

  datatype WindowEvent =
    | Down(target: Region, client: Point, layout: Layout)
    | Move(client: Point, layout: Layout)
    | Up

  /** The widget's inputs: `size` is shared by the wheel and both bars;
      `shadesBar` mounts the saturation bar and `brightnessBar` the
      lightness bar. */
  datatype Config = Config(size: real, shadesBar: bool, brightnessBar: bool)

  /** The editing flag of each surface. */
  datatype Flags = Flags(wheel: bool, saturation: bool, lightness: bool)

  datatype Channel = Saturation | Lightness

  /** An argument of `setColor`: the wheel's point, or a single-key update
      of one channel. */
  datatype ColorUpdate = FromWheel(at: Point) | Single(channel: Channel, value: real)

  predicate Mounted(cfg: Config, region: Region) {
    match region
    case OnWheel => true
    case OnSaturationBar => cfg.shadesBar
    case OnLightnessBar => cfg.brightnessBar
    case Elsewhere => false
  }

  function SurfaceOf(cfg: Config, region: Region): Surface {
    if region == OnWheel then Wheel(cfg.size) else Bar(cfg.size)
  }

  function FlagOf(f: Flags, region: Region): bool {
    match region
    case OnWheel => f.wheel
    case OnSaturationBar => f.saturation
    case OnLightnessBar => f.lightness
    case Elsewhere => false
  }

  function RectOf(layout: Layout, region: Region): Point {
    match region
    case OnSaturationBar => layout.saturationBar
    case OnLightnessBar => layout.lightnessBar
    case _ => layout.wheel
  }

  /** The surface at `region` sees a window event like this. */
  function View(e: WindowEvent, region: Region): (v: Event)
    ensures IsPress(v) <==> e.Down? && e.target == region
  {
    match e
    case Down(target, client, layout) => MouseDown(target == region, client, RectOf(layout, region))
    case Move(client, layout) => MouseMove(client, RectOf(layout, region))
    case Up => MouseUp
  }

  function Views(t: seq<WindowEvent>, region: Region): (vs: seq<Event>)
    ensures |vs| == |t|
  {
    seq(|t|, i requires 0 <= i < |t| => View(t[i], region))
  }

  /** Which surface an update comes from. */
  function Origin(u: ColorUpdate): Region {
    match u
    case FromWheel(_) => OnWheel
    case Single(Saturation, _) => OnSaturationBar
    case Single(Lightness, _) => OnLightnessBar
  }

  /** How a reading of the surface at `region` reaches `setColor`: the
      saturation bar's `onChange` wraps its level as `{s: v}`, the lightness
      bar's as `{l: v}`. */
  function Tag(r: Reading, region: Region): (u: ColorUpdate)
    ensures r.LevelValue? && region != OnWheel && region != Elsewhere ==> Origin(u) == region
    ensures r.LevelValue? ==> u.Single? && u.value == r.level
    ensures r.WheelPoint? ==> u == FromWheel(r.at)
  {
    match r
    case WheelPoint(p) => FromWheel(p)
    case LevelValue(v) => Single(if region == OnLightnessBar then Lightness else Saturation, v)
  }

  function Tags(vs: seq<Reading>, region: Region): (us: seq<ColorUpdate>)
    ensures |us| == |vs|
  {
    seq(|vs|, i requires 0 <= i < |vs| => Tag(vs[i], region))
  }

  function Lift(o: Option<Reading>, region: Region): seq<ColorUpdate> {
    match o
    case None => []
    case Some(r) => [Tag(r, region)]
  }

  /** One surface's share of a window event: its next flag and what it
      emits. A mounted surface is disarmed by a mouseup, armed by a mousedown
      on itself, and otherwise keeps its flag; it emits on a move while
      armed, and the wheel also on a mousedown on the wheel. A bar that is
      not mounted listens to nothing. */
  function SurfaceStep(cfg: Config, f: Flags, e: WindowEvent, region: Region): (r: (bool, Option<Reading>))
    requires cfg.size > 0.0
    ensures !Mounted(cfg, region) ==> r.0 == FlagOf(f, region)
    ensures Mounted(cfg, region) && e.Up? ==> !r.0
    ensures Mounted(cfg, region) && e.Down? && e.target == region ==> r.0
    ensures Mounted(cfg, region) && (e.Move? || (e.Down? && e.target != region)) ==> r.0 == FlagOf(f, region)
    ensures r.1.Some? <==>
              Mounted(cfg, region) &&
              ((e.Move? && FlagOf(f, region)) || (region == OnWheel && e.Down? && e.target == OnWheel))
    ensures r.1.Some? ==>
              !e.Up? && r.1.value == Measure(SurfaceOf(cfg, region), e.client, RectOf(e.layout, region))
  {
    if Mounted(cfg, region) then Step(SurfaceOf(cfg, region), FlagOf(f, region), View(e, region))
    else (FlagOf(f, region), None)
  }

  /** An update as the host may receive it: a channel value is a
      two-decimal level in [0, 100] from a bar that is mounted. */
  predicate WellFormed(cfg: Config, u: ColorUpdate) {
    u.Single? ==>
      && 0.0 <= u.value <= 100.0
      && IsHundredths(u.value)
      && Mounted(cfg, Origin(u))
  }

  /** One window event: every surface steps; updates are listed saturation
      bar, wheel, lightness bar. */
  function WidgetStep(cfg: Config, f: Flags, e: WindowEvent): (r: (Flags, seq<ColorUpdate>))
    requires cfg.size > 0.0
    ensures |r.1| <= 3
    ensures forall u :: u in r.1 ==> WellFormed(cfg, u)
    ensures e.Up? ==> r.1 == []
    ensures e.Up? ==> forall g :: Mounted(cfg, g) ==> !FlagOf(r.0, g)
    ensures e.Down? && e.target == Elsewhere ==> r.0 == f
  {
    var sat := SurfaceStep(cfg, f, e, OnSaturationBar);
    var wheel := SurfaceStep(cfg, f, e, OnWheel);
    var light := SurfaceStep(cfg, f, e, OnLightnessBar);
    (Flags(wheel.0, sat.0, light.0),
     Lift(sat.1, OnSaturationBar) + Lift(wheel.1, OnWheel) + Lift(light.1, OnLightnessBar))
  }

  datatype WidgetRun = WidgetRun(flags: Flags, updates: seq<ColorUpdate>)

  /** Folds `WidgetStep` over a trace of window events. */
  function WidgetReplay(cfg: Config, f: Flags, t: seq<WindowEvent>): (r: WidgetRun)
    requires cfg.size > 0.0
    ensures forall u :: u in r.updates ==> WellFormed(cfg, u)
    ensures |r.updates| <= 3 * |t|
    decreases |t|
  {
    if t == [] then WidgetRun(f, [])
    else
      var before := WidgetReplay(cfg, f, t[..|t| - 1]);
      var step := WidgetStep(cfg, before.flags, t[|t| - 1]);
      WidgetRun(step.0, before.updates + step.1)
  }

  /** The updates that come from the surface at `region`, in order. */
  function From(us: seq<ColorUpdate>, region: Region): (vs: seq<ColorUpdate>)
    ensures |vs| <= |us|
    ensures forall v :: v in vs ==> v in us && Origin(v) == region
    decreases |us|
  {
    if us == [] then []
    else
      var u := us[|us| - 1];
      From(us[..|us| - 1], region) + if Origin(u) == region then [u] else []
  }

  lemma {:induction false} FromAppend(a: seq<ColorUpdate>, b: seq<ColorUpdate>, region: Region)
    ensures From(a + b, region) == From(a, region) + From(b, region)
    decreases |b|
  {
    if b == [] {
      assert a + b == a;
    } else {
      var b' := b[..|b| - 1];
      assert (a + b)[..|a + b| - 1] == a + b';
      assert (a + b)[|a + b| - 1] == b[|b| - 1];
      FromAppend(a, b', region);
    }
  }

  /** A wheel reads points and a bar reads levels. */
  lemma ReadingKind(cfg: Config, f: Flags, e: WindowEvent, g: Region)
    requires cfg.size > 0.0
    ensures var o := SurfaceStep(cfg, f, e, g).1;
            o.Some? ==> (o.value.WheelPoint? <==> g == OnWheel)
  {
  }

  lemma FromLift(o: Option<Reading>, g: Region, region: Region)
    requires g != Elsewhere
    requires o.Some? ==> (o.value.WheelPoint? <==> g == OnWheel)
    ensures From(Lift(o, g), region) == if g == region then Lift(o, g) else []
  {
    if o.Some? {
      assert Lift(o, g)[..0] == [];
    }
  }

  /** What one surface contributes to one window event's updates. */
  lemma FromStep(cfg: Config, f: Flags, e: WindowEvent, region: Region)
    requires cfg.size > 0.0
    requires region != Elsewhere
    ensures From(WidgetStep(cfg, f, e).1, region) == Lift(SurfaceStep(cfg, f, e, region).1, region)
  {
    var sat := SurfaceStep(cfg, f, e, OnSaturationBar).1;
    var wheel := SurfaceStep(cfg, f, e, OnWheel).1;
    var light := SurfaceStep(cfg, f, e, OnLightnessBar).1;
    var a := Lift(sat, OnSaturationBar);
    var b := Lift(wheel, OnWheel);
    var c := Lift(light, OnLightnessBar);
    assert WidgetStep(cfg, f, e).1 == a + b + c;
    FromAppend(a + b, c, region);
    FromAppend(a, b, region);
    ReadingKind(cfg, f, e, OnSaturationBar);
    ReadingKind(cfg, f, e, OnWheel);
    ReadingKind(cfg, f, e, OnLightnessBar);
    FromLift(sat, OnSaturationBar, region);
    FromLift(wheel, OnWheel, region);
    FromLift(light, OnLightnessBar, region);
  }

  lemma TagsAppend(a: seq<Reading>, b: seq<Reading>, region: Region)
    ensures Tags(a + b, region) == Tags(a, region) + Tags(b, region)
  {
  }

  lemma ViewsSnoc(t: seq<WindowEvent>, e: WindowEvent, region: Region)
    ensures Views(t + [e], region) == Views(t, region) + [View(e, region)]
  {
  }

  /** Lifting one optional reading is tagging the values it emits. */
  lemma LiftIsTags(vs: seq<Reading>, o: Option<Reading>, region: Region)
    ensures Tags(Emitted([o]), region) == Lift(o, region)
    ensures Tags(vs + Emitted([o]), region) == Tags(vs, region) + Lift(o, region)
  {
    assert [o][..0] == [];
    TagsAppend(vs, Emitted([o]), region);
  }

  /** Replaying one more window event is one more `WidgetStep`. */
  lemma WidgetSnoc(cfg: Config, f: Flags, t: seq<WindowEvent>, e: WindowEvent)
    requires cfg.size > 0.0
    ensures var before := WidgetReplay(cfg, f, t);
            var step := WidgetStep(cfg, before.flags, e);
            WidgetReplay(cfg, f, t + [e]) == WidgetRun(step.0, before.updates + step.1)
  {
    assert (t + [e])[..|t|] == t;
  }

  /** A bar that is not mounted never reaches `setColor`. */
  lemma {:induction false} UnmountedSilent(cfg: Config, f: Flags, t: seq<WindowEvent>, region: Region)
    requires cfg.size > 0.0
    requires region != Elsewhere && !Mounted(cfg, region)
    ensures From(WidgetReplay(cfg, f, t).updates, region) == []
    decreases |t|
  {
    if t != [] {
      var t' := t[..|t| - 1];
      var e := t[|t| - 1];
      assert t == t' + [e];
      UnmountedSilent(cfg, f, t', region);
      var before := WidgetReplay(cfg, f, t');
      WidgetSnoc(cfg, f, t', e);
      FromAppend(before.updates, WidgetStep(cfg, before.flags, e).1, region);
      FromStep(cfg, before.flags, e, region);
    }
  }

  /** The surfaces do not interact: whatever the others do, the mounted
      surface at `region` ends with the flag it would have alone, and the
      updates it contributes are exactly the values it would emit alone,
      tagged with its channel. */
  lemma {:induction false} SurfacesIndependent(cfg: Config, f: Flags, t: seq<WindowEvent>, region: Region)
    requires cfg.size > 0.0
    requires Mounted(cfg, region)
    ensures FlagOf(WidgetReplay(cfg, f, t).flags, region) ==
              Replay(SurfaceOf(cfg, region), FlagOf(f, region), Views(t, region)).editing
    ensures From(WidgetReplay(cfg, f, t).updates, region) ==
              Tags(Emitted(Replay(SurfaceOf(cfg, region), FlagOf(f, region), Views(t, region)).outputs), region)
    decreases |t|
  {
    var s := SurfaceOf(cfg, region);
    var f0 := FlagOf(f, region);
    if t == [] {
      assert Views(t, region) == [];
    } else {
      var t' := t[..|t| - 1];
      var e := t[|t| - 1];
      assert t == t' + [e];
      SurfacesIndependent(cfg, f, t', region);
      var before := WidgetReplay(cfg, f, t');
      var step := WidgetStep(cfg, before.flags, e);
      WidgetSnoc(cfg, f, t', e);
      FromAppend(before.updates, step.1, region);
      FromStep(cfg, before.flags, e, region);
      assert FlagOf(step.0, region) == SurfaceStep(cfg, before.flags, e, region).0;
      ViewsSnoc(t', e, region);
      var alone := Replay(s, f0, Views(t', region));
      ReplaySnoc(s, f0, Views(t', region), View(e, region));
      var last := Step(s, alone.editing, View(e, region));
      assert SurfaceStep(cfg, before.flags, e, region) == last;
      EmittedAppend(alone.outputs, [last.1]);
      LiftIsTags(Emitted(alone.outputs), last.1, region);
    }
  }

  /** The widget starts with every surface idle. */
  const Idle := Flags(false, false, false)

  lemma ViewsAppend(a: seq<WindowEvent>, b: seq<WindowEvent>, region: Region)
    ensures Views(a + b, region) == Views(a, region) + Views(b, region)
  {
  }

  /** Every update comes from one of the three surfaces, so the three
      per-surface subsequences account for all of them. */
  lemma {:induction false} FromPartition(us: seq<ColorUpdate>)
    ensures |us| == |From(us, OnSaturationBar)| + |From(us, OnWheel)| + |From(us, OnLightnessBar)|
    ensures forall u :: u in us ==> u in From(us, Origin(u))
    decreases |us|
  {
    if us != [] {
      var us' := us[..|us| - 1];
      var u := us[|us| - 1];
      assert us == us' + [u];
      FromPartition(us');
    }
  }

  predicate AllMoveEvents(t: seq<WindowEvent>) {
    forall i :: 0 <= i < |t| ==> t[i].Move?
  }

  /** How a surface sees a gesture: its own view of the press, then moves,
      then a release. */
  lemma GestureViews(press: WindowEvent, moves: seq<WindowEvent>, g: Region)
    requires AllMoveEvents(moves)
    ensures Views([press] + moves + [Up], g) == [View(press, g)] + Views(moves, g) + [MouseUp]
    ensures AllMoves(Views(moves, g))
  {
    ViewsAppend([press] + moves, [Up], g);
    ViewsAppend([press], moves, g);
    var ms := Views(moves, g);
    forall i | 0 <= i < |ms| ensures ms[i].MouseMove? {
      assert moves[i].Move?;
    }
  }

  /** The share of one surface `g` in a gesture that starts with a press
      on `region`. */
  lemma GestureShare(cfg: Config, region: Region, client: Point, layout: Layout, moves: seq<WindowEvent>, g: Region)
    requires cfg.size > 0.0
    requires Mounted(cfg, region) && g != Elsewhere
    requires AllMoveEvents(moves)
    ensures var r := WidgetReplay(cfg, Idle, [Down(region, client, layout)] + moves + [Up]);
            && (Mounted(cfg, g) ==> !FlagOf(r.flags, g))
            && |From(r.updates, g)| == if g == region then |moves| + (if region == OnWheel then 1 else 0) else 0
  {
    var press := Down(region, client, layout);
    var t := [press] + moves + [Up];
    if !Mounted(cfg, g) {
      UnmountedSilent(cfg, Idle, t, g);
    } else {
      GestureViews(press, moves, g);
      SurfacesIndependent(cfg, Idle, t, g);
      var vs := Views(t, g);
      if g == region {
        Gesture(SurfaceOf(cfg, g), View(press, g), Views(moves, g));
      } else {
        QuietSurface(press, moves, g);
        IdleWithoutPress(SurfaceOf(cfg, g), vs);
      }
    }
  }

  /** A surface other than the pressed one sees no press in the gesture. */
  lemma QuietSurface(press: WindowEvent, moves: seq<WindowEvent>, g: Region)
    requires AllMoveEvents(moves)
    requires press.Down? && press.target != g
    ensures forall i :: 0 <= i < |moves| + 2 ==> !IsPress(Views([press] + moves + [Up], g)[i])
  {
    GestureViews(press, moves, g);
    var vs := Views([press] + moves + [Up], g);
    var ms := Views(moves, g);
    forall i | 0 <= i < |vs| ensures !IsPress(vs[i]) {
      if 1 <= i <= |ms| {
        assert vs[i] == ms[i - 1];
      }
    }
  }

  /** One gesture on the widget from idle: press on a mounted surface, drag
      through `moves`, release anywhere. Only that surface reaches
      `setColor`: once per move, and once more for the press when it is the
      wheel. Every surface ends idle. */
  lemma GestureIsolated(cfg: Config, region: Region, client: Point, layout: Layout, moves: seq<WindowEvent>)
    requires cfg.size > 0.0
    requires Mounted(cfg, region)
    requires AllMoveEvents(moves)
    ensures var t := [Down(region, client, layout)] + moves + [Up];
            var r := WidgetReplay(cfg, Idle, t);
            && |r.updates| == |moves| + (if region == OnWheel then 1 else 0)
            && (forall u :: u in r.updates ==> Origin(u) == region)
            && (forall g :: Mounted(cfg, g) ==> !FlagOf(r.flags, g))
  {
    var t := [Down(region, client, layout)] + moves + [Up];
    var r := WidgetReplay(cfg, Idle, t);
    GestureShare(cfg, region, client, layout, moves, OnWheel);
    GestureShare(cfg, region, client, layout, moves, OnSaturationBar);
    GestureShare(cfg, region, client, layout, moves, OnLightnessBar);
    FromPartition(r.updates);
    forall u | u in r.updates
      ensures Origin(u) == region
    {
      var g := Origin(u);
      assert u in From(r.updates, g);
      assert g == region || |From(r.updates, g)| == 0;
    }
  }
}
