/**
 The drag state machine of one interactive surface (the wheel, or one level
 bar).

 Each surface keeps an `editing` flag that starts false. A window-level
 mousedown whose target lies inside the surface sets it; a mousedown
 elsewhere leaves it alone; a mouseup anywhere clears it; a mousemove reads
 a value from the pointer only while it is set. The wheel has one more
 path: its own mousedown handler reads a value as soon as it is pressed.
 The bar has no such handler.

 Event handling is modelled as immediate and sequential: the flag written
 by one event is the flag the next event sees.
 */
module Drag {
  import opened Geometry
  import opened Rounding
  import opened Level

  datatype Option<T> = None | Some(value: T)

  /** A pointer event as one surface sees it. `inside` says whether the
      event target lies within the surface; `rect` is the origin of the
      surface's bounding rectangle, measured when the event is handled. */
  datatype Event =
    | MouseDown(inside: bool, client: Point, rect: Point)
    | MouseMove(client: Point, rect: Point)
    | MouseUp

  /** A mousedown whose target lies within the surface. */
  predicate IsPress(e: Event) {
    e.MouseDown? && e.inside
  }

  /** The two kinds of surface, each `size` pixels across (or tall). */
  datatype Surface = Wheel(size: real) | Bar(size: real) {
    predicate Valid() {
      size > 0.0
    }
  }

  /** What a surface hands on: the wheel the normalised point it passes to
      the hue/saturation helper, a bar its level. */
  datatype Reading = WheelPoint(at: Point) | LevelValue(level: real)

  /** The editing flag after one event. */
  function Arm(editing: bool, e: Event): (armed: bool)
    ensures e.MouseUp? ==> !armed
    ensures IsPress(e) ==> armed
    ensures !e.MouseUp? && !IsPress(e) ==> armed == editing
  {
    match e
    case MouseDown(inside, _, _) => editing || inside
    case MouseMove(_, _) => editing
    case MouseUp => false
  }

  /** The value a surface reads from a pointer at `client` over a surface
      whose rectangle starts at `rect`. */
  function Measure(s: Surface, client: Point, rect: Point): (r: Reading)
    requires s.Valid()
    ensures s.Wheel? ==> r.WheelPoint? && rect.Plus(r.at.Times(s.size)) == client
    ensures s.Bar? ==> r.LevelValue? && 0.0 <= r.level <= 100.0 && IsHundredths(r.level)
    ensures s.Bar? && rect.y <= client.y <= rect.y + s.size ==>
              r.LevelValue? && r.level - 0.005 <= 100.0 - 100.0 * (client.y - rect.y) / s.size < r.level + 0.005
    ensures s.Bar? && client.y <= rect.y ==> r == LevelValue(100.0)
    ensures s.Bar? && client.y >= rect.y + s.size ==> r == LevelValue(0.0)
  {
    match s
    case Wheel(size) => WheelPoint(WheelCoordinates(client, rect, size))
    case Bar(size) => LevelValue(OffsetToLevel(client.y - rect.y, size))
  }

  /** One event: the new editing flag and the value emitted, if any. */
  function Step(s: Surface, editing: bool, e: Event): (r: (bool, Option<Reading>))
    requires s.Valid()
    ensures r.0 == Arm(editing, e)
    ensures e.MouseUp? ==> r.1 == None
    ensures e.MouseMove? ==> (r.1.Some? <==> editing)
    ensures e.MouseDown? ==> (r.1.Some? <==> s.Wheel? && e.inside)
    ensures r.1.Some? ==> r.1.value == Measure(s, e.client, e.rect)
  {
    match e
    case MouseDown(inside, client, rect) =>
      (editing || inside, if s.Wheel? && inside then Some(Measure(s, client, rect)) else None)
    case MouseMove(client, rect) =>
      (editing, if editing then Some(Measure(s, client, rect)) else None)
    case MouseUp =>
      (false, None)
  }

  /** The outcome of a trace: the final editing flag and, per event, the
      value emitted by that event. */
  datatype Run = Run(editing: bool, outputs: seq<Option<Reading>>)

  /** Folds `Step` over a trace, starting from flag `editing`. */
  function Replay(s: Surface, editing: bool, t: seq<Event>): (r: Run)
    requires s.Valid()
    ensures |r.outputs| == |t|
    decreases |t|
  {
    if t == [] then Run(editing, [])
    else
      var before := Replay(s, editing, t[..|t| - 1]);
      var step := Step(s, before.editing, t[|t| - 1]);
      Run(step.0, before.outputs + [step.1])
  }

  /** The values actually handed on, in order. */
  function Emitted<T>(os: seq<Option<T>>): (vs: seq<T>)
    ensures |vs| <= |os|
    decreases |os|
  {
    if os == [] then []
    else
      Emitted(os[..|os| - 1]) + match os[|os| - 1] case Some(v) => [v] case None => []
  }

  /** No mouseup among events `lo` .. `hi - 1`. */
  predicate NoReleaseIn(t: seq<Event>, lo: int, hi: int)
    requires 0 <= lo <= hi <= |t|
  {
    forall k :: lo <= k < hi ==> !t[k].MouseUp?
  }

  /** Reference definition of the flag just before event `i`: either the
      surface started armed and nothing released it since, or some earlier
      press armed it and nothing released it since. */
  predicate ArmedBefore(editing: bool, t: seq<Event>, i: int)
    requires 0 <= i <= |t|
  {
    || (editing && NoReleaseIn(t, 0, i))
    || exists j :: 0 <= j < i && IsPress(t[j]) && NoReleaseIn(t, j + 1, i)
  }

  /** The reference flag changes exactly as `Arm` says. */
  lemma ArmedStep(editing: bool, t: seq<Event>, i: int)
    requires 0 <= i < |t|
    ensures ArmedBefore(editing, t, i + 1) == Arm(ArmedBefore(editing, t, i), t[i])
  {
    if t[i].MouseUp? {
      assert !NoReleaseIn(t, 0, i + 1);
      forall j | 0 <= j < i + 1 && IsPress(t[j])
        ensures !NoReleaseIn(t, j + 1, i + 1)
      {
        assert j < i;
      }
    } else if IsPress(t[i]) {
      assert NoReleaseIn(t, i + 1, i + 1);
    } else {
      forall lo | 0 <= lo <= i
        ensures NoReleaseIn(t, lo, i + 1) == NoReleaseIn(t, lo, i)
      {
      }
      if ArmedBefore(editing, t, i + 1) && !(editing && NoReleaseIn(t, 0, i + 1)) {
        var j :| 0 <= j < i + 1 && IsPress(t[j]) && NoReleaseIn(t, j + 1, i + 1);
        assert j < i;
      }
      if ArmedBefore(editing, t, i) && !(editing && NoReleaseIn(t, 0, i)) {
        var j :| 0 <= j < i && IsPress(t[j]) && NoReleaseIn(t, j + 1, i);
        assert NoReleaseIn(t, j + 1, i + 1);
      }
    }
  }

  /** Replaying a prefix agrees with the reference flag, and each event of
      the prefix emits what `Step` emits from the reference flag. */
  lemma {:induction false} ReplayPrefix(s: Surface, editing: bool, t: seq<Event>, n: int)
    requires s.Valid()
    requires 0 <= n <= |t|
    ensures Replay(s, editing, t[..n]).editing == ArmedBefore(editing, t, n)
    ensures forall i :: 0 <= i < n ==>
              Replay(s, editing, t[..n]).outputs[i] == Step(s, ArmedBefore(editing, t, i), t[i]).1
  {
    if n == 0 {
      assert t[..0] == [];
      assert NoReleaseIn(t, 0, 0);
    } else {
      ReplayPrefix(s, editing, t, n - 1);
      assert t[..n][..n - 1] == t[..n - 1];
      assert t[..n][n - 1] == t[n - 1];
      ArmedStep(editing, t, n - 1);
      var before := Replay(s, editing, t[..n - 1]);
      var step := Step(s, before.editing, t[n - 1]);
      var after := Replay(s, editing, t[..n]);
      assert after == Run(step.0, before.outputs + [step.1]);
      forall i | 0 <= i < n
        ensures after.outputs[i] == Step(s, ArmedBefore(editing, t, i), t[i]).1
      {
        if i < n - 1 {
          assert after.outputs[i] == before.outputs[i];
        }
      }
    }
  }

  /** The whole trace, read against the reference: the final flag, which
      events emit (both directions), and what they emit. */
  lemma ReplayCharacterized(s: Surface, editing: bool, t: seq<Event>)
    requires s.Valid()
    ensures Replay(s, editing, t).editing == ArmedBefore(editing, t, |t|)
    ensures forall i :: 0 <= i < |t| ==>
              (Replay(s, editing, t).outputs[i].Some? <==>
                 (t[i].MouseMove? && ArmedBefore(editing, t, i)) || (s.Wheel? && IsPress(t[i])))
    ensures forall i :: 0 <= i < |t| && Replay(s, editing, t).outputs[i].Some? ==>
              Replay(s, editing, t).outputs[i].value == Measure(s, t[i].client, t[i].rect)
  {
    ReplayPrefix(s, editing, t, |t|);
    assert t[..|t|] == t;
  }

  /** A bar never emits on a press: only moves emit. */
  lemma BarEmitsOnlyOnMoves(size: real, editing: bool, t: seq<Event>)
    requires size > 0.0
    ensures forall i :: 0 <= i < |t| && Replay(Bar(size), editing, t).outputs[i].Some? ==>
              t[i].MouseMove? && Replay(Bar(size), editing, t).outputs[i].value.LevelValue?
  {
    ReplayCharacterized(Bar(size), editing, t);
  }

  /** Emitting commutes with concatenation. */
  lemma {:induction false} EmittedAppend<T>(a: seq<Option<T>>, b: seq<Option<T>>)
    ensures Emitted(a + b) == Emitted(a) + Emitted(b)
    decreases |b|
  {
    if b == [] {
      assert a + b == a;
    } else {
      var b' := b[..|b| - 1];
      assert (a + b)[..|a + b| - 1] == a + b';
      assert (a + b)[|a + b| - 1] == b[|b| - 1];
      EmittedAppend(a, b');
    }
  }

  /** Replaying `a + b` is replaying `a`, then replaying `b` from where `a`
      left the flag. */
  lemma {:induction false} ReplayAppend(s: Surface, editing: bool, a: seq<Event>, b: seq<Event>)
    requires s.Valid()
    ensures var ra := Replay(s, editing, a);
            var rb := Replay(s, ra.editing, b);
            Replay(s, editing, a + b) == Run(rb.editing, ra.outputs + rb.outputs)
    decreases |b|
  {
    if b == [] {
      assert a + b == a;
    } else {
      var b' := b[..|b| - 1];
      assert (a + b)[..|a + b| - 1] == a + b';
      assert (a + b)[|a + b| - 1] == b[|b| - 1];
      ReplayAppend(s, editing, a, b');
    }
  }

  predicate AllMoves(t: seq<Event>) {
    forall i :: 0 <= i < |t| ==> t[i].MouseMove?
  }

  /** A run of moves keeps the flag and emits one value per move exactly
      when the surface is editing, and nothing otherwise. */
  lemma MovesKeepFlag(s: Surface, editing: bool, t: seq<Event>)
    requires s.Valid()
    requires AllMoves(t)
    ensures Replay(s, editing, t).editing == editing
    ensures |Emitted(Replay(s, editing, t).outputs)| == if editing then |t| else 0
  {
    ReplayCharacterized(s, editing, t);
    forall i | 0 <= i <= |t|
      ensures ArmedBefore(editing, t, i) == editing
    {
      assert NoReleaseIn(t, 0, i);
    }
    var os := Replay(s, editing, t).outputs;
    if editing {
      EmittedAllSome(os);
    } else {
      EmittedAllNone(os);
    }
  }

  lemma {:induction false} EmittedAllSome<T>(os: seq<Option<T>>)
    requires forall i :: 0 <= i < |os| ==> os[i].Some?
    ensures |Emitted(os)| == |os|
    decreases |os|
  {
    if os != [] {
      EmittedAllSome(os[..|os| - 1]);
    }
  }

  lemma {:induction false} EmittedAllNone<T>(os: seq<Option<T>>)
    requires forall i :: 0 <= i < |os| ==> os[i].None?
    ensures Emitted(os) == []
    decreases |os|
  {
    if os != [] {
      EmittedAllNone(os[..|os| - 1]);
    }
  }

  /** An idle surface that sees no press stays idle and emits nothing,
      whatever mice move and buttons go up or down elsewhere. */
  lemma IdleWithoutPress(s: Surface, t: seq<Event>)
    requires s.Valid()
    requires forall i :: 0 <= i < |t| ==> !IsPress(t[i])
    ensures !Replay(s, false, t).editing
    ensures Emitted(Replay(s, false, t).outputs) == []
  {
    ReplayCharacterized(s, false, t);
    EmittedAllNone(Replay(s, false, t).outputs);
  }

  /** One gesture from idle: press inside, move `|moves|` times, release.
      The bar emits once per move; the wheel once more, for the press. The
      surface ends idle. */
  lemma Gesture(s: Surface, press: Event, moves: seq<Event>)
    requires s.Valid()
    requires IsPress(press) && AllMoves(moves)
    ensures !Replay(s, false, [press] + moves + [MouseUp]).editing
    ensures |Emitted(Replay(s, false, [press] + moves + [MouseUp]).outputs)| ==
              |moves| + if s.Wheel? then 1 else 0
  {
    var r1 := Replay(s, false, [press]);
    assert [press][..0] == [];
    var r2 := Replay(s, true, moves);
    MovesKeepFlag(s, true, moves);
    ReplayAppend(s, false, [press], moves);
    var r12 := Replay(s, false, [press] + moves);
    var r3 := Replay(s, true, [MouseUp]);
    assert [MouseUp][..0] == [MouseUp][..1 - 1];
    ReplayAppend(s, false, [press] + moves, [MouseUp]);
    EmittedAppend(r1.outputs, r2.outputs);
    EmittedAppend(r12.outputs, r3.outputs);
    assert Emitted(r3.outputs) == [] by {
      assert r3.outputs == Replay(s, true, []).outputs + [None];
    }
    assert |Emitted(r1.outputs)| == if s.Wheel? then 1 else 0 by {
      assert r1.outputs == [] + [Step(s, false, press).1];
    }
  }

  /** A mousedown whose target lies outside the surface. */
  predicate IsOutsideDown(e: Event) {
    e.MouseDown? && !e.inside
  }

  /** Drops the mousedowns whose target lies outside the surface and keeps
      every other event. */
  function DropOutsideDowns(t: seq<Event>): (u: seq<Event>)
    ensures |u| <= |t|
    ensures forall i :: 0 <= i < |u| ==> !IsOutsideDown(u[i])
    ensures forall e :: e in u ==> e in t
    ensures forall i :: 0 <= i < |t| && !IsOutsideDown(t[i]) ==> t[i] in u
    ensures (forall i :: 0 <= i < |t| ==> !IsOutsideDown(t[i])) ==> u == t
    decreases |t|
  {
    if t == [] then []
    else
      var e := t[|t| - 1];
      DropOutsideDowns(t[..|t| - 1]) + if IsOutsideDown(e) then [] else [e]
  }

  /** A single event is dropped exactly when it is a mousedown outside. */
  lemma DropOutsideDownsSingle(e: Event)
    ensures DropOutsideDowns([e]) == if IsOutsideDown(e) then [] else [e]
  {
  }

  /** Filtering distributes over concatenation. With the single-event case
      this fixes `DropOutsideDowns` as the order-preserving filter. */
  lemma {:induction false} DropOutsideDownsAppend(a: seq<Event>, b: seq<Event>)
    ensures DropOutsideDowns(a + b) == DropOutsideDowns(a) + DropOutsideDowns(b)
    decreases |b|
  {
    if b == [] {
      assert a + b == a;
    } else {
      var b' := b[..|b| - 1];
      var e := b[|b| - 1];
      assert (a + b)[..|a + b| - 1] == a + b';
      assert (a + b)[|a + b| - 1] == e;
      DropOutsideDownsAppend(a, b');
    }
  }

  /** Replaying one more event is one more `Step`. */
  lemma ReplaySnoc(s: Surface, editing: bool, t: seq<Event>, e: Event)
    requires s.Valid()
    ensures var r := Replay(s, editing, t);
            var step := Step(s, r.editing, e);
            Replay(s, editing, t + [e]) == Run(step.0, r.outputs + [step.1])
  {
    assert (t + [e])[..|t|] == t;
  }

  lemma EmittedSnoc<T>(os: seq<Option<T>>, o: Option<T>)
    ensures Emitted(os + [o]) == Emitted(os) + match o case Some(v) => [v] case None => []
  {
    assert (os + [o])[..|os|] == os;
  }

  /** A mousedown outside a surface is invisible to it: removing every such
      event from a trace changes neither the final flag nor what is
      emitted. */
  lemma {:induction false} OutsideDownsIgnored(s: Surface, editing: bool, t: seq<Event>)
    requires s.Valid()
    ensures Replay(s, editing, DropOutsideDowns(t)).editing == Replay(s, editing, t).editing
    ensures Emitted(Replay(s, editing, DropOutsideDowns(t)).outputs) == Emitted(Replay(s, editing, t).outputs)
    decreases |t|
  {
    if t != [] {
      var t' := t[..|t| - 1];
      var e := t[|t| - 1];
      assert t == t' + [e];
      OutsideDownsIgnored(s, editing, t');
      var u' := DropOutsideDowns(t');
      var ru := Replay(s, editing, u');
      var rt := Replay(s, editing, t');
      ReplaySnoc(s, editing, t', e);
      var last := Step(s, rt.editing, e);
      EmittedSnoc(rt.outputs, last.1);
      if IsOutsideDown(e) {
        assert DropOutsideDowns(t) == u';
      } else {
        assert DropOutsideDowns(t) == u' + [e];
        ReplaySnoc(s, editing, u', e);
        EmittedSnoc(ru.outputs, last.1);
      }
    }
  }

  /** One surface on the trace down-inside, move, move, up, move, with each
      event at its own pointer position and rectangle. */
  lemma GestureThenMove(s: Surface, c0: Point, r0: Point, c1: Point, r1: Point,
                        c2: Point, r2: Point, c4: Point, r4: Point)
    requires s.Valid()
    ensures var t := [MouseDown(true, c0, r0), MouseMove(c1, r1), MouseMove(c2, r2), MouseUp, MouseMove(c4, r4)];
            && |Emitted(Replay(s, false, t).outputs)| == 2 + (if s.Wheel? then 1 else 0)
            && Replay(s, false, t).outputs[4] == None
  {
    var press := MouseDown(true, c0, r0);
    var m1 := MouseMove(c1, r1);
    var m2 := MouseMove(c2, r2);
    var m4 := MouseMove(c4, r4);
    var g := [press] + [m1, m2] + [MouseUp];
    assert [press, m1, m2, MouseUp, m4] == g + [m4];
    Gesture(s, press, [m1, m2]);
    ReplayAppend(s, false, g, [m4]);
    MovesKeepFlag(s, false, [m4]);
    var rg := Replay(s, false, g);
    var rm := Replay(s, false, [m4]);
    EmittedAppend(rg.outputs, rm.outputs);
    assert [m4][..0] == [];
  }

  /** The trace down-inside, move, move, up, move, wherever the pointer and
      the surface are at each event: the wheel emits three values (press and
      two moves), a bar two, and the move after the release emits nothing
      on either. */
  lemma PressDragReleaseMove(size: real, c0: Point, r0: Point, c1: Point, r1: Point,
                             c2: Point, r2: Point, c4: Point, r4: Point)
    requires size > 0.0
    ensures var t := [MouseDown(true, c0, r0), MouseMove(c1, r1), MouseMove(c2, r2), MouseUp, MouseMove(c4, r4)];
            && |Emitted(Replay(Wheel(size), false, t).outputs)| == 3
            && |Emitted(Replay(Bar(size), false, t).outputs)| == 2
            && Replay(Wheel(size), false, t).outputs[4] == None
            && Replay(Bar(size), false, t).outputs[4] == None
  {
    GestureThenMove(Wheel(size), c0, r0, c1, r1, c2, r2, c4, r4);
    GestureThenMove(Bar(size), c0, r0, c1, r1, c2, r2, c4, r4);
  }
}
