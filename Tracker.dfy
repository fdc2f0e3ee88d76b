/**
 * The focus head: a damped tracker that eases its position and radius
 * toward a target derived from the focused control, with a decaying
 * horizontal velocity kicked leftward whenever the focus moves to another
 * control.
 */
module Tracker {

  import opened Wrappers
  import opened Controls
  import opened Smoothing

  /** Radius of the head on a control that is not valid. */
  const Radius: real := 8.0
  /** Radius of the head on a valid control: RADIUS * 1.8 = 14.4. */
  const CheckRadius: real := Radius * 1.8

  /**
   * A value of the script's `head` object. `placed` is false while the
   * script's `head.x` is still undefined (NaN): the head starts as
   * `{r: RADIUS, tr: RADIUS}`, and until the first focus on an input or a
   * button `x`, `y`, `tx`, `ty` and `vx` carry no meaning.
   */
  datatype HeadState = HeadState(
    placed: bool,
    x: real, y: real,
    tx: real, ty: real,
    vx: real,
    r: real, tr: real
  )

  const InitialHead: HeadState := HeadState(false, 0.0, 0.0, 0.0, 0.0, 0.0, Radius, Radius)

  /** The state the script keeps the head in: radius between the two sizes, target one of them. */
  predicate Sane(h: HeadState)
  {
    Radius <= h.r <= CheckRadius && (h.tr == Radius || h.tr == CheckRadius)
  }

  /** The radius the head grows or shrinks to on a control that is, or is not, valid. */
  function TargetRadius(valid: bool): (tr: real)
    ensures valid <==> tr == CheckRadius
    ensures !valid <==> tr == Radius
  {
    if valid then CheckRadius else Radius
  }

  /**
   * One frame of the head's motion while some element is focused, `valid`
   * telling whether it carries the `valid` class: the target radius is set,
   * x, y and r are smoothed toward their targets, then the velocity decays
   * and is added to x. While the head is unplaced only the radius moves.
   */
  function Step(h: HeadState, valid: bool): (h': HeadState)
    ensures h'.placed == h.placed && h'.tx == h.tx && h'.ty == h.ty
    ensures h'.tr == TargetRadius(valid)
    ensures h'.r - h'.tr == 0.8 * (h.r - h'.tr)
    ensures Sane(h) ==> Sane(h')
    ensures h.placed ==> h'.vx == 0.8 * h.vx
    ensures h.placed ==> h'.x - h.tx == 0.8 * (h.x - h.tx) + h'.vx
    ensures h.placed ==> h'.y - h.ty == 0.8 * (h.y - h.ty)
    ensures !h.placed ==> h'.x == h.x && h'.y == h.y && h'.vx == h.vx
  {
    var tr := TargetRadius(valid);
    if h.placed then
      var vx := h.vx * 0.8;
      h.(x := Smooth(h.x, h.tx) + vx, y := Smooth(h.y, h.ty), r := Smooth(h.r, tr), tr := tr, vx := vx)
    else
      h.(r := Smooth(h.r, tr), tr := tr)
  }

  /**
   * The leftward kick given when the focus moves to another control: always
   * at least 8 to the left, and 1/5 of the distance still to travel more.
   */
  function Impulse(tx: real, x: real): (vx: real)
    ensures vx <= -8.0
    ensures vx == -8.0 <==> x == tx
    ensures 5.0 * (-8.0 - vx) == Abs(tx - x)
  {
    -8.0 - Abs(tx - x) / 5.0
  }

  /**
   * Focusing an input or button `el`: the target becomes a point SPACING +
   * RADIUS to the left of the control, vertically centred on it; an unplaced
   * head jumps onto the target; a change of focused element kicks the head.
   */
  function FocusHead(h: HeadState, el: Element, changed: bool): (h': HeadState)
    ensures h'.placed
    ensures h'.tx == el.offsetLeft - Spacing - Radius
    ensures h'.ty == el.offsetTop + el.offsetHeight / 2.0
    ensures !h.placed ==> h'.x == h'.tx && h'.y == h'.ty
    ensures h.placed ==> h'.x == h.x && h'.y == h.y
    ensures changed ==> h'.vx == Impulse(h'.tx, h'.x) && h'.vx <= -8.0
    ensures changed && !h.placed ==> h'.vx == -8.0
    ensures !changed ==> h'.vx == h.vx
    ensures h'.r == h.r && h'.tr == h.tr
  {
    var tx := el.offsetLeft - Spacing - Radius;
    var ty := el.offsetTop + el.offsetHeight / 2.0;
    var x := if h.placed then h.x else tx;
    var y := if h.placed then h.y else ty;
    var vx := if changed then Impulse(tx, x) else h.vx;
    h.(placed := true, x := x, y := y, tx := tx, ty := ty, vx := vx)
  }

  /**
   * What a focus call does to the head, given the focus before and after it:
   * nothing unless the element now focused is an input or a button.
   */
  function Retarget(h: HeadState, previous: Option<ControlId>, current: Option<ControlId>,
                    dom: ControlId -> Element): (h': HeadState)
    ensures current.None? || !dom(current.value).isInputOrButton ==> h' == h
    ensures h'.r == h.r && h'.tr == h.tr
    ensures current == previous ==> h'.vx == h.vx
  {
    if current.None? || !dom(current.value).isInputOrButton then h
    else FocusHead(h, dom(current.value), current != previous)
  }

  /** Several frames with no focus call between them; `valids[i]` is the validity seen in frame i. */
  function Run(h: HeadState, valids: seq<bool>): HeadState
    decreases |valids|
  {
    if valids == [] then h else Run(Step(h, valids[0]), valids[1..])
  }

  /** The radius never leaves [RADIUS, CHECK_RADIUS], whatever the controls' validity does. */
  lemma {:induction false} RunStaysSane(h: HeadState, valids: seq<bool>)
    requires Sane(h)
    ensures Sane(Run(h, valids))
    decreases |valids|
  {
    if valids != [] {
      RunStaysSane(Step(h, valids[0]), valids[1..]);
    }
  }

  /** Frames keep the head placed (or not) and its target where it is. */
  lemma {:induction false} RunKeepsTarget(h: HeadState, valids: seq<bool>)
    ensures Run(h, valids).placed == h.placed
    ensures Run(h, valids).tx == h.tx && Run(h, valids).ty == h.ty
    decreases |valids|
  {
    if valids != [] {
      RunKeepsTarget(Step(h, valids[0]), valids[1..]);
    }
  }

  /** Frames decay the velocity of a placed head to 0.8^n of its value. */
  lemma {:induction false} RunVelocity(h: HeadState, valids: seq<bool>)
    requires h.placed
    ensures Run(h, valids).vx == Pow(0.8, |valids|) * h.vx
    decreases |valids|
  {
    if valids != [] {
      var h' := Step(h, valids[0]);
      RunVelocity(h', valids[1..]);
      Rescale(|valids|, h'.vx, h.vx);
    }
  }

  /** The vertical error of a placed head shrinks to 0.8^n of its value. */
  lemma {:induction false} RunVertical(h: HeadState, valids: seq<bool>)
    requires h.placed
    ensures Run(h, valids).y - h.ty == Pow(0.8, |valids|) * (h.y - h.ty)
    decreases |valids|
  {
    if valids != [] {
      var h' := Step(h, valids[0]);
      RunVertical(h', valids[1..]);
      Rescale(|valids|, h'.y - h'.ty, h.y - h.ty);
    }
  }

  /**
   * The horizontal error of a placed head after n frames:
   * x_n - tx = 0.8^n (x_0 - tx + n vx_0), the velocity adding its decaying
   * share to the smoothing.
   */
  lemma {:induction false} RunHorizontal(h: HeadState, valids: seq<bool>)
    requires h.placed
    ensures Run(h, valids).x - h.tx == Pow(0.8, |valids|) * (h.x - h.tx + |valids| as real * h.vx)
    decreases |valids|
  {
    if valids != [] {
      var h' := Step(h, valids[0]);
      var m := (|valids| - 1) as real;
      var rest := valids[1..];
      assert |rest| == |valids| - 1;
      RunHorizontal(h', rest);
      assert Run(h, valids).x - h.tx == Pow(0.8, |valids| - 1) * (h'.x - h'.tx + m * h'.vx);
      assert h'.x - h'.tx + m * h'.vx == 0.8 * (h.x - h.tx + (m + 1.0) * h.vx);
      Rescale(|valids|, h'.x - h'.tx + m * h'.vx, h.x - h.tx + (m + 1.0) * h.vx);
    }
  }

  /** One more frame multiplies an error that decays by 0.8 per frame by one more factor 0.8. */
  lemma Rescale(n: nat, e': real, e: real)
    requires n > 0 && e' == 0.8 * e
    ensures Pow(0.8, n - 1) * e' == Pow(0.8, n) * e
  {
  }

  /**
   * With no new kick the velocity keeps its sign and its magnitude never
   * grows (it is 0.8^n of where it started, which vanishes: DecayVanishes).
   */
  lemma VelocitySettles(h: HeadState, valids: seq<bool>)
    requires h.placed
    ensures h.vx < 0.0 ==> h.vx <= Run(h, valids).vx < 0.0
    ensures h.vx > 0.0 ==> 0.0 < Run(h, valids).vx <= h.vx
    ensures h.vx == 0.0 ==> Run(h, valids).vx == 0.0
  {
    RunVelocity(h, valids);
    DecayBounds(|valids|);
    ScaledDown(Pow(0.8, |valids|), h.vx, Run(h, valids).vx);
  }

  /** v = p * v0 with 0 < p <= 1 lies between 0 (exclusive, unless v0 is 0) and v0. */
  lemma ScaledDown(p: real, v0: real, v: real)
    requires v == p * v0 && 0.0 < p <= 1.0
    ensures v0 < 0.0 ==> v0 <= v < 0.0
    ensures v0 > 0.0 ==> 0.0 < v <= v0
    ensures v0 == 0.0 ==> v == 0.0
  {
  }

  /** While the validity stays the same, the radius error shrinks to 0.8^n of its start. */
  lemma {:induction false} RunRadius(h: HeadState, valids: seq<bool>, valid: bool)
    requires forall i :: 0 <= i < |valids| ==> valids[i] == valid
    ensures Run(h, valids).r - TargetRadius(valid) == Pow(0.8, |valids|) * (h.r - TargetRadius(valid))
    decreases |valids|
  {
    if valids != [] {
      var h' := Step(h, valids[0]);
      var t := TargetRadius(valid);
      var rest := valids[1..];
      assert valids[0] == valid && |rest| == |valids| - 1;
      RunRadius(h', rest, valid);
      assert Run(h, valids).r - t == Pow(0.8, |valids| - 1) * (h'.r - t);
      Rescale(|valids|, h'.r - t, h.r - t);
    }
  }

}
