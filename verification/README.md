# Colour wheel drag and pointer mapping, in Dafny

This project models the interaction core of a React colour picker. The picker has a hue/saturation wheel
(`src/ColorWheel.js`) and two level bars (`src/LevelBar.js`), one for saturation and one for lightness.
Each surface has a two-state drag machine. A mousedown on the surface arms it. A mouseup anywhere disarms
it. A mousemove reads a value from the pointer only while the surface is armed. The wheel also reads a
value when it is clicked, through its own `onMouseDown` handler.

The model has five modules:

- `Geometry` (`geometry.dfy`): the wheel's pixel arithmetic. It normalises a pointer offset by `size` and
  scales normalised coordinates back to pixels to place the handle.
- `Rounding` (`rounding.dfy`): `parseFloat(v.toFixed(2))` over exact reals. Magnitudes are rounded to the
  nearest hundredth, ties go up, the sign is applied after rounding, and magnitudes from 10^21 up are left
  unrounded. This follows section 21.1.3.3 of ECMA-262.
- `Level` (`level.dfy`): the bar's mapping. It clamps the offset into `[0, size]`, computes
  `(1 - dy/size) * 100`, then rounds.
- `Drag` (`drag.dfy`): one surface's machine. `Step(surface, editing, event)` returns the new flag and an
  optional emission. `Replay` folds `Step` over a trace. `ArmedBefore` is an independent reference
  definition: the surface is armed before event `i` when the last press or release before `i` was a
  press inside the surface, or when there was none and it started armed.
- `Widget` (`widget.dfy`): the whole `ColorWheel` component. The wheel and the mounted bars share window
  events. The saturation bar's output reaches `setColor` as `{s: v}` and the lightness bar's as `{l: v}`.
  The main theorem says the surfaces do not interact: each one behaves as it would alone.

All arithmetic is over exact reals. Every mapping requires `size > 0`. The source never checks this, but it
divides by `size`.

Only the wheel reads a value on the press itself, through its own `onMouseDown` (src/ColorWheel.js:52-59).
A bar has no such handler and reads values only on moves (src/LevelBar.js:24-36). So `Drag.Step` emits on
a press only for `Wheel` surfaces.

## Model

| member | source | states |
|---|---|---|
| `Geometry.Offset` | src/ColorWheel.js:32-33 | The pixel offset `d` of the pointer from the wheel's rectangle origin is the vector with `origin + d == client`. |
| `Geometry.Normalize` | src/ColorWheel.js:32-33 | For `size > 0`, the normalised point is the unique `p` with `p.x * size == offset.x` and `p.y * size == offset.y`. |
| `Geometry.WheelCoordinates` | src/ColorWheel.js:55-56 | The point the click handler passes to the hue/saturation helper, scaled back by `size` and added to the rectangle origin, is the client position. |
| `Geometry.Handle` | src/ColorWheel.js:87-88 | The handle's `top`/`left`, read back as a pointer offset and normalised, give the normalised coordinates it was placed from. |
| `Geometry.HandleRoundTrip` | src/ColorWheel.js:87-88 | Placing the handle and normalising its offset are mutual inverses, in both directions. |
| `Geometry.WheelCorners` | src/ColorWheel.js:32-33 | The rectangle origin maps to (0, 0). The opposite corner maps to (1, 1). The right edge at half height maps to (1, 0.5). |
| `Geometry.NormalizeLinear` | src/ColorWheel.js:32-33 | Normalisation commutes with vector addition and with scaling. |
| `Geometry.NormalizeMonotone` | src/ColorWheel.js:32-33 | Normalisation preserves the order of each coordinate. |
| `Geometry.NormalizeUnitSquare` | src/ColorWheel.js:32-33 | Offsets inside the wheel's `size` by `size` square land in the unit square. |
| `Rounding.RoundMagnitude` | src/LevelBar.js:34 | A non-negative magnitude below 10^21 rounds to a whole number of hundredths `r` with `r - 0.005 <= m < r + 0.005`, so ties go up. Larger magnitudes are returned unchanged. |
| `Rounding.ToFixed2` | src/LevelBar.js:34 | For `abs(v) < 10^21` the result is whole hundredths within half a hundredth of `v`. Ties go away from zero: up for `v >= 0`, down for `v < 0`, so `-0.005` gives `-0.01`. For `abs(v) >= 10^21` the result is `v` itself, unrounded. For every `v` the result has the sign of `v`, or is zero. |
| `Rounding.ToFixed2Unique` | src/LevelBar.js:34 | For `0 <= v < 10^21`, any whole number of hundredths `h` with `h - 0.005 <= v < h + 0.005` is the result. The rounding is therefore exactly nearest-hundredth with ties up. |
| `Rounding.ToFixed2Idempotent` | src/LevelBar.js:34 | For `0 <= v < 10^21`, a value that already has two decimals is unchanged, and rounding twice equals rounding once. |
| `Rounding.ToFixed2Monotone` | src/LevelBar.js:34 | For any `0 <= v <= w`, on either side of 10^21, rounding preserves their order. |
| `Rounding.ToFixed2Percent` | src/LevelBar.js:34 | Values in [0, 100] round to values in [0, 100]. |
| `Level.Clamp` | src/LevelBar.js:33 | `min(size, max(0, dy))` lies in `[0, size]`. It equals `dy` inside that range, 0 at or above the top edge, and `size` at or below the bottom edge. |
| `Level.RawLevel` | src/LevelBar.js:33 | The unrounded level lies in [0, 100] and equals `100 - 100*dy/size` for `0 <= dy <= size`. It is 100 for `dy <= 0` and 0 for `dy >= size`. |
| `Level.OffsetToLevel` | src/LevelBar.js:32-34 | The reported level is whole hundredths in [0, 100] and within half a hundredth of the raw level. Ties go up. It is exactly 100 for `dy <= 0` and exactly 0 for `dy >= size`. |
| `Level.ClampedEnds` | src/LevelBar.js:33 | Any `dy < 0` gives the same level as `dy = 0`, which is 100. Any `dy > size` gives the same level as `dy = size`, which is 0. |
| `Level.LevelMonotone` | src/LevelBar.js:33-34 | A larger offset never gives a larger level, before or after rounding. |
| `Level.EveryLevelReachable` | src/LevelBar.js:33-34 | Every level in [0, 100] is the raw level at offset `size*(100-level)/100`. Every two-decimal level is reported exactly there. |
| `Level.HundredPixelBar` | src/LevelBar.js:33-34 | On a 100-pixel bar, offsets 0, 25, 50 and 100 report 100, 75, 50 and 0. |
| `Drag.Arm` | src/LevelBar.js:24-37 | A mouseup disarms. A press inside arms. Every other event, including a mousedown outside, keeps the flag. |
| `Drag.Measure` | src/LevelBar.js:32-34 | A bar reading is a two-decimal level in [0, 100]. It is within half a hundredth of `100 - 100*(clientY - rect.y)/size` when the pointer is over the bar, exactly 100 at or above the bar's top, and exactly 0 at or below its bottom. A wheel reading, as computed in src/ColorWheel.js:32-33 and 55-56, is the point whose offset from the rectangle, scaled by `size`, is the pointer. |
| `Drag.Step` | src/ColorWheel.js:19-59 | The flag follows `Arm`. A mouseup emits nothing. A move emits exactly when the surface is editing. A mousedown emits exactly when it hits the wheel. An emission is the reading at the event's pointer and rectangle. |
| `Drag.Replay` | src/ColorWheel.js:19-48 | Folding the step over a trace yields exactly one output slot per event. |
| `Drag.ArmedStep` | src/LevelBar.js:24-37 | The reference definition "armed before event i" changes from one event to the next exactly as `Arm` says. |
| `Drag.ReplayPrefix` | src/LevelBar.js:23-48 | After any prefix, the replayed flag equals the reference flag. Each event of the prefix emits what `Step` emits from the reference flag. |
| `Drag.ReplayCharacterized` | src/ColorWheel.js:20-59 | Event `i` emits if and only if it is a move while armed by the reference definition, or a press on the wheel. The emitted value is the reading at that event. |
| `Drag.BarEmitsOnlyOnMoves` | src/LevelBar.js:24-37 | A bar never emits on a mousedown. Only moves emit, and they emit levels. |
| `Drag.ReplayAppend` | src/ColorWheel.js:19-48 | Replaying `a + b` is replaying `a`, then replaying `b` from the flag `a` left. |
| `Drag.MovesKeepFlag` | src/ColorWheel.js:28-36 | A run of moves keeps the flag. It emits one value per move when editing and none when idle. |
| `Drag.IdleWithoutPress` | src/ColorWheel.js:17-36 | From idle (the initial flag, src/ColorWheel.js:17 and src/LevelBar.js:21), without a press inside, a surface stays idle and emits nothing. |
| `Drag.Gesture` | src/ColorWheel.js:20-59 | Press inside, `n` moves, release: a bar emits `n` values, the wheel `n + 1`, and the surface ends idle. |
| `Drag.DropOutsideDowns` | src/ColorWheel.js:20-24 | The filtered trace contains no mousedown outside the surface and is no longer than the original. Every event in it comes from the original. Every event of the original that is not a mousedown outside is kept. A trace without such mousedowns is returned unchanged. |
| `Drag.DropOutsideDownsSingle` | src/ColorWheel.js:20-24 | A single event is dropped exactly when it is a mousedown outside the surface, and kept otherwise. |
| `Drag.DropOutsideDownsAppend` | src/ColorWheel.js:20-24 | Filtering distributes over concatenation. With `Drag.DropOutsideDownsSingle`, this fixes the filter as order-preserving, keeping each remaining event exactly once. |
| `Drag.OutsideDownsIgnored` | src/ColorWheel.js:20-24 | Removing every mousedown outside the surface changes neither the final flag nor the emitted values. |
| `Drag.PressDragReleaseMove` | src/LevelBar.js:24-37 | For down-inside, move, move, up, move, with any pointer position and rectangle at each event: the wheel emits 3 values and a bar emits 2. The move after the release emits nothing on either. |
| `Widget.View` | src/ColorWheel.js:21 | A surface sees a press exactly when a mousedown's target lies in that surface. |
| `Widget.Tag` | src/ColorWheel.js:68-101 | A bar's level reaches `setColor` unchanged, keyed by that bar's channel: `{s: v}` for the saturation bar and `{l: v}` for the lightness bar. The wheel's point is handed unchanged to the wheel's helper. |
| `Widget.SurfaceStep` | src/ColorWheel.js:63-105 | For a mounted surface, a window mouseup disarms it, a mousedown whose target is the surface arms it, and anything else keeps its flag. It emits exactly on a move while armed, or on a mousedown targeting the wheel when it is the wheel. The emission is the reading at the event's pointer and the surface's rectangle. A bar that is not mounted keeps its flag and emits nothing. |
| `Widget.WidgetStep` | src/ColorWheel.js:63-105 | One window event produces at most three updates. Every channel update is a two-decimal value in [0, 100] from a mounted bar. A mouseup produces none and disarms every mounted surface. A mousedown outside every surface changes no flag. |
| `Widget.WidgetReplay` | src/ColorWheel.js:63-105 | Over any trace, every update reaching `setColor` is well formed as above. There are at most three per event. |
| `Widget.UnmountedSilent` | src/ColorWheel.js:63-105 | A bar switched off by `shadesBar` or `brightnessBar` never reaches `setColor`. |
| `Widget.SurfacesIndependent` | src/ColorWheel.js:63-105 | In the widget, each mounted surface ends with the flag it would have alone. Its updates are exactly the values it would emit alone, tagged with its channel. |
| `Widget.GestureIsolated` | src/ColorWheel.js:52-105 | From idle, a press on a mounted surface, `n` moves and a release reach `setColor` only from that surface. That is `n` updates, plus one for a press on the wheel. Every surface ends idle. |

## Left out

- `coordinatesToHS` and `hsToCoordinates` from `helpers/utils` are not part of this model. The wheel's emission is modelled as the normalised point handed to `coordinatesToHS`. The handle placement takes `hsToCoordinates`'s result as its input. No hue/saturation geometry or round trip is stated.
- The indicator easing curve `size*(0.6*(1-sin(asin(3/4)*(value/50-1)))-0.1)` (src/LevelBar.js:51) is left out. It is trigonometric floating point with no counterpart over exact reals.
- Registering and removing listeners on `window`, and the `useEffect` dependency re-binding, are left out. So is React's asynchronous `setEditing`, with its stale closures. State updates are modelled as immediate and sequential.
- `Widget.WidgetStep`: when several surfaces are armed at once, the order of their updates within one event depends on listener registration order. The model lists them in document order: saturation bar, wheel, lightness bar.
- `Widget.SurfaceStep`: a bar that is not mounted has no state in the source. The model keeps its flag unchanged and never lets it emit.
- DOM queries are abstracted. `contains(event.target)` becomes the `inside` flag or the target `Region`. `getBoundingClientRect()` becomes a rectangle origin carried by each event.
- Rendering is left out because it is presentation only. This covers CSS gradient strings, handle width and border, the `alignRight` transform, and propTypes/defaultProps.
- `Level.OffsetToLevel`: requires `size > 0` like every mapping here. The source never checks `size`. With `size == 0` it would compute NaN, and with a negative `size` it reports 0 for every offset.
- `Rounding.ToFixed2`: works on exact reals, so IEEE-754 representation effects are not modelled. An example is a decimal tie that is not exactly representable as a double.
