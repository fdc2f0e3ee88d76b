# Focus-head animation: a Dafny model

This project models the state-update core of `script.js`, a small canvas
animation for a login form. A round "focus head" follows keyboard focus
from control to control. It eases toward a point just left of the focused
control, grows when that control is valid, and recoils leftward whenever
focus moves to another input or button. A short tail of past head positions
follows it. Each non-checkbox input also has a checkmark whose reveal value eases
toward 1 when the field validates and toward 0 when it does not.

The model keeps the script's own shape:

- `Scene.Head` is the script's `head` object. Its fields are updated in place.
- `Scene.Page` holds the rest of the page-wide state: the tail (a `seq`),
  the checkmark table (a `map` plus its iteration order) and the current focus.
- `Paint` is one animation frame with the canvas calls taken out.
- `Focus` is the focus handler. Called with `None`, it is the re-targeting
  done after a resize or a scroll.
- `Validate` is the input handler.
- `Refresh` is the resize/scroll callback: `Focus(None)` followed by `Paint`.

Each method is proved against pure functions of the modules below it:

- `Tracker.Step` and `Tracker.Retarget` for the head.
- `Trail.Push` and `Trail.Recent` for the tail.
- `Checkmarks.AdvanceAll`, `Checkmarks.CheckDraws` and `Checkmarks.SetTarget`
  for the checkmark table.
- `Validation.IsValid` for validation.

The properties of the animation are proved as lemmas about those functions.

Arithmetic is exact, over `real`. An undefined head position (`head.x` is
undefined until the first focus on an input or button, then NaN-checked at
line 151) is the flag `placed`. The live document is a parameter
`dom: ControlId -> Element`. It gives a control's offsets, whether it is an
input or a button, and whether it has the `valid` class.

Two behaviours of the script are easy to misread; the model follows the code:

- Focus on an element that is not an input or a button still leaves the
  animation running. `focus` returns early, but `currentFocus` is that
  element. So every `paint` still pushes the tail and keeps easing the head
  toward the last input's target. It also sets the target radius from that
  element's `valid` class. It does not hold the head still.
- `currentFocus` is never cleared, because blur does not reset it. After the
  first focus, the tail is extended in every frame for the rest of the page's life.

## Model

| member | source | states |
|---|---|---|
| `Smoothing.Smooth` | script.js:89-91 | one easing step leaves 0.8 of the error to the target and stays between the value and the target |
| `Smoothing.SmoothApproaches` | script.js:105 | a value off its target ends strictly closer to it after one step |
| `Smoothing.SmoothNClosedForm` | script.js:89-91 | after n steps toward a fixed target the error is 0.8^n times the starting error |
| `Smoothing.SmoothNBetween` | script.js:105 | repeated easing never overshoots: it stays between the start value and the target |
| `Smoothing.DecayBounds` | script.js:93 | the decay factor 0.8^n lies in (0, 1] |
| `Smoothing.DecayVanishes` | script.js:93 | 0.8^n * (1 + n/4) <= 1, so the decay factor tends to 0 |
| `Tracker.TargetRadius` | script.js:87 | the target radius is CHECK_RADIUS (14.4) exactly when the focused element is valid, RADIUS (8) otherwise |
| `Tracker.Step` | script.js:87-94 | a frame keeps placement and target and sets tr; r - tr shrinks by 0.8; a placed head has vx' = 0.8 vx, y' - ty = 0.8 (y - ty) and x' - tx = 0.8 (x - tx) + vx'; an unplaced head keeps x, y, vx; the radius band is preserved |
| `Tracker.Impulse` | script.js:157-159 | the kick is at most -8, exactly -8 iff the head is on the target, and its excess over 8 is 1/5 of the distance to the target |
| `Tracker.FocusHead` | script.js:147-159 | focusing an input/button places the head, sets the target SPACING + RADIUS left of the control and vertically centred on it; an unplaced head snaps onto the target; a change of element sets vx to the impulse (exactly -8 on the first placement), no change leaves vx; r and tr untouched |
| `Tracker.Retarget` | script.js:141-159 | with no focus, or focus on something other than an input/button, the head is unchanged; with unchanged focus (resize/scroll) vx is unchanged |
| `Tracker.RunStaysSane` | script.js:87-91 | over any number of frames, whatever the validity of the focused element, r stays in [8, 14.4] and tr is one of the two radii |
| `Tracker.RunKeepsTarget` | script.js:89-94 | frames without a focus call keep placement and the target |
| `Tracker.RunVelocity` | script.js:93 | after n frames the velocity of a placed head is 0.8^n times its start |
| `Tracker.RunVertical` | script.js:90 | after n frames y - ty is 0.8^n times its start |
| `Tracker.RunHorizontal` | script.js:89-94 | after n frames x - tx = 0.8^n (x0 - tx + n vx0) |
| `Tracker.VelocitySettles` | script.js:93-94 | without a new kick the velocity keeps its sign and its magnitude never grows |
| `Tracker.RunRadius` | script.js:87-91 | while validity stays the same, r - tr after n frames is 0.8^n times its start |
| `Trail.Push` | script.js:56-57 | push-then-shift keeps a tail of at most 8 entries, ends with the new snapshot, appends while short and drops exactly the oldest when full |
| `Trail.Recent` | script.js:6 | the retained window holds the last min(n, 8) entries of a history, in order |
| `Trail.PushRecent` | script.js:56-57 | pushing onto the last 8 entries of a history gives the last 8 entries of the extended history, so the tail is always the 8 most recent snapshots |
| `Trail.RecentDrawsTrail` | script.js:56-60 | the trail (`DrawsTrail`, more than 3 entries) is stroked exactly once more than 3 snapshots have been pushed, and stays stroked from then on |
| `Checkmarks.Advance` | script.js:105 | a record keeps its target, its error shrinks by 0.8, and v stays in [0, 1] with tv in {0, 1} |
| `Checkmarks.AdvanceApproaches` | script.js:105 | a record not at its target moves strictly closer; one at its target stays put |
| `Checkmarks.AdvanceN` | script.js:105 | after n frames v is still in [0, 1] and its error is 0.8^n times its start |
| `Checkmarks.AdvanceAll` | script.js:104-105 | a frame advances every record of the table and adds or removes none, preserving the [0, 1] band |
| `Checkmarks.Round` | script.js:122 | `Math.round` returns the integer within a half of its argument, halves going up |
| `Checkmarks.DashOffset` | script.js:122 | `CHECK_LENGTH + Math.round(v * CHECK_LENGTH)` with CHECK_LENGTH = 18 (line 5) lies in [18, 36] for v in [0, 1]; it is 18 at v = 0 and 36 at v = 1 |
| `Checkmarks.DashOffsetMonotone` | script.js:122 | the dash offset never decreases as v grows |
| `Checkmarks.DrawOf` | script.js:107-122 | a record is stroked exactly when v > 0.05; the stroke is centred 24 left of the control and 1 below its vertical middle, with dash offset `DashOffset(v)`, at least 19 for v <= 1 |
| `Checkmarks.CheckDraws` | script.js:104-122 | the strokes of a frame number at most the controls listed, and each is the draw decision of a listed control that has a record |
| `Checkmarks.CheckDrawsDistinct` | script.js:104-122 | a table order without repeats (as a `Map`'s keys are) strokes each control at most once |
| `Checkmarks.CheckDrawsExact` | script.js:104-122 | a checkmark is stroked exactly for the listed controls whose v exceeds 0.05, with its own dash offset in [18, 36] |
| `Checkmarks.AdvanceTable` | script.js:104-135 | the checkmark loop leaves the table equal to every record advanced once and strokes exactly `CheckDraws` in table order |
| `Checkmarks.SetTarget` | script.js:181 | setting a target fails exactly for a control with no record; otherwise it sets that record's tv to 1 or 0, keeps its v and leaves every other record unchanged |
| `Validation.EmailPattern` | script.js:169 | `/(.+)@(.+){2,}\.(.+){2,}/.test` as an index predicate over non-line-terminator characters; a matching value has at least 7 characters, an '@' and a '.' |
| `Validation.EmailPatternIff` | script.js:169 | the unanchored pattern matches iff the value has an '@' preceded by one dot-character, then 2+ dot-characters to a '.', then 2 more dot-characters |
| `Validation.EmailLikeShape` | script.js:169 | a matching e-mail value has at least 7 characters and contains '@' and '.' |
| `Validation.EmailUnanchored` | script.js:169 | text added around a matching value does not stop it matching |
| `Validation.IsValid` | script.js:163-177 | email is valid iff the '@'/'.' form holds, password iff longer than 6, any other type iff non-empty; a valid value is never empty |
| `Validation.ValidationExamples` | script.js:167-176 | "a@bb.cc" is a valid e-mail; "a@b" and "a@b.cc" are not; a 7-character password is valid and a 6-character one is not; the default type accepts "x" and rejects "" |
| `Scene.CheckmarkUnderHead` | script.js:108-109 | a control's checkmark is centred on the head's resting point for that control (lines 147-148), one unit lower |
| `Scene.Head.constructor` | script.js:12 | the head starts unplaced with r = tr = RADIUS |
| `Scene.Head.Move` | script.js:87-94 | the head's fields after its part of a frame are `Tracker.Step` of the fields before |
| `Scene.Page.constructor` | script.js:23-25 | the page starts with no focus, an empty tail and a `{v: 0, tv: 0}` record for each registered input, in document order |
| `Scene.Page.Paint` | script.js:49-137 | with no focus the head and tail are unchanged; with focus the tail is `Push` of the pre-frame head and the head is `Step`; the trail is stroked iff the tail has more than 3 entries; every checkmark advances; the invariants (radius band, tail = last 8 snapshots, records in [0, 1]) are kept |
| `Scene.Page.Focus` | script.js:139-161 | the focus moves to the given element (kept on `None`), the head becomes `Retarget` of its old value, and tail and checkmarks are untouched |
| `Scene.Page.Validate` | script.js:163-183 | returns `IsValid` of the value; for a registered control the table becomes `SetTarget` of it, and for an unregistered one (where the script fails at line 181) nothing changes |
| `Scene.Page.Refresh` | script.js:188-200 | a resize or scroll repaint re-targets without a kick, so a placed head's velocity only decays by 0.8; with focus the head is `Step` of the re-targeted head, the tail and history get that re-targeted snapshot pushed; without focus head and tail stay; checkmarks advance; the frame is that of `Paint` |

## Left out

- Canvas drawing: `clearRect`, `arc`, the tail's `quadraticCurveTo` path, `setLineDash`, the glyph's three points, line styles and composite operations (lines 51, 62-84, 96-99, 111-132). These are host side effects. The model keeps the decisions: the trail is stroked iff the tail has more than 3 entries, the head is drawn iff something is focused, and for each checkmark whether it is drawn, its centre and its dash offset.
- `resize()` and device-pixel-ratio canvas sizing (lines 27-39). This is window I/O. `Scene.Page.Refresh` models the resize/scroll callbacks without it.
- `requestAnimationFrame` scheduling and the listener wiring (lines 21-22, 41-47, 185-201). One `Paint` call is one frame. The host decides when each entry point runs.
- The colours read through `getComputedStyle` (lines 8-10). This is a foreign call with no logic.
- IEEE floating point and NaN: all arithmetic is exact over `real`. `Math.round` is `Floor(x + 0.5)`, and `CHECK_LENGTH` is the constant 18 (`Math.ceil(10 * 1.8)`). No pixel-level convergence time is claimed. The closed forms `RunHorizontal`, `RunVertical` and `RunRadius` are given instead.
- The NaN head: while the head is unplaced, the script's arithmetic keeps `x`, `y` and `vx` at NaN. `Tracker.Step` leaves them unchanged instead, and they carry no meaning until the first placement.
- `vx` starts undefined in the script and at 0 in the model. In the script the first call that reaches line 147 always focuses a new element, because an element's tag, and so `matches('input, button')` at line 145, never changes; the first placement therefore always sets `vx` by the kick.
- Scene.Page.Focus: input/button status is read from `dom` at each call (here and in `Tracker.Retarget`), and the model assumes a host reports it the same for a control in every call. It does not enforce this: a host that reports a focused control as a non-input and then, in a later `Focus(None)`, as an input places the head with no kick, leaving `vx` at 0, which the script cannot do.
- `classList.toggle` (line 179): `Validate` returns the flag the class is set to. The `valid` bit that `Paint` reads comes from the host through `dom`.
- Element identity and `Map` order: controls are `ControlId`s. The table's insertion order is the explicit sequence `order`.
- Lengths and the regular expression count Unicode scalar values, not UTF-16 code units. A value containing characters outside the Basic Multilingual Plane can therefore differ in length from what the script sees.
- Regex matching is not implemented. Line 169 is stated as the index predicate `Validation.EmailPattern`, together with its simpler equivalent `Validation.EmailLike`.
