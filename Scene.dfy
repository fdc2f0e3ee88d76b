/**
 * The page-wide animation state and the three entry points that change it:
 * `Paint` (one animation frame, without the canvas calls), `Focus` (a
 * control gained focus, or the page was resized or scrolled) and
 * `Validate` (the user typed into a control).
 */
module Scene {

  import opened Wrappers
  import opened Controls
  import opened Smoothing
  import opened Tracker
  import opened Trail
  import opened Checkmarks
  import opened Validation

  /** The script's `head` object, updated field by field. */
  class Head {
    var placed: bool
    var x: real
    var y: real
    var tx: real
    var ty: real
    var vx: real
    var r: real
    var tr: real

    /** `{r: RADIUS, tr: RADIUS}`: position, target and velocity still undefined. */
    constructor ()
      ensures State() == InitialHead
    {
      placed, x, y, tx, ty, vx := false, 0.0, 0.0, 0.0, 0.0, 0.0;
      r, tr := Radius, Radius;
    }

    /**
     * The head's part of a frame, for a focused element whose validity is
     * `valid`. While `x` is still undefined the script's arithmetic on it
     * yields NaN again; the model leaves the unplaced fields alone.
     */
    method Move(valid: bool)
      modifies this
      ensures State() == Step(old(State()), valid)
    {
      tr := if valid then CheckRadius else Radius;
      if placed {
        x := x + (tx - x) * 0.2;
        y := y + (ty - y) * 0.2;
      }
      r := r + (tr - r) * 0.2;
      if placed {
        vx := vx * 0.8;
        x := x + vx;
      }
    }

    /** The head as a value; a tail entry is such a copy (`{...head}`). */
    function State(): HeadState
      reads this
    {
      HeadState(placed, x, y, tx, ty, vx, r, tr)
    }
  }

  /** What one frame strokes, besides clearing the canvas. */
  datatype Frame = Frame(drawTail: bool, drawHead: bool, checks: seq<CheckDraw>)

  /**
   * The checkmark of a control sits where the head rests on that control,
   * one unit lower: its centre is the head's target after focusing it.
   */
  lemma CheckmarkUnderHead(h: HeadState, id: ControlId, c: Checkmark, el: Element, changed: bool)
    requires c.v > DrawThreshold
    ensures DrawOf(id, c, el).value.midX == FocusHead(h, el, changed).tx
    ensures DrawOf(id, c, el).value.midY == FocusHead(h, el, changed).ty + 1.0
  {
  }

  /** The page: the head, its tail, the checkmark table and the focused element. */
  class Page {
    const head: Head
    var tail: seq<HeadState>
    /** Every snapshot ever pushed onto the tail, oldest first. */
    ghost var history: seq<HeadState>
    var checkmarks: map<ControlId, Checkmark>
    /** The checkmark table's iteration order: the order the controls were registered in. */
    var order: seq<ControlId>
    var currentFocus: Option<ControlId>

    ghost predicate Valid()
      reads this, head
    {
      && Tracker.Sane(head.State())
      && tail == Recent(history)
      && (currentFocus.None? ==> history == [])
      && (head.placed ==> currentFocus.Some?)
      && (forall i, j :: 0 <= i < j < |order| ==> order[i] != order[j])
      && (forall id :: id in checkmarks <==> id in order)
      && (forall id :: id in checkmarks ==> Checkmarks.Sane(checkmarks[id]))
    }

    /**
     * Page start: the head at rest and unplaced, an empty tail, no focus, and
     * a hidden checkmark for each non-checkbox input, in document order.
     */
    constructor (inputs: seq<ControlId>)
      requires forall i, j :: 0 <= i < j < |inputs| ==> inputs[i] != inputs[j]
      ensures Valid() && fresh(head)
      ensures head.State() == InitialHead && tail == [] && currentFocus == None
      ensures order == inputs
      ensures checkmarks.Keys == set id | id in inputs
      ensures forall id :: id in checkmarks ==> checkmarks[id] == Hidden
    {
      var marks: map<ControlId, Checkmark> := map[];
      var i := 0;
      while i < |inputs|
        invariant 0 <= i <= |inputs|
        invariant marks.Keys == set id | id in inputs[..i]
        invariant forall id :: id in marks ==> marks[id] == Hidden
      {
        marks := marks[inputs[i] := Hidden];
        i := i + 1;
      }
      assert inputs[..i] == inputs;
      head := new Head();
      tail, history := [], [];
      checkmarks, order := marks, inputs;
      currentFocus := None;
    }

    /**
     * One animation frame. While some element is focused: snapshot the head
     * onto the tail, set the target radius from the focused element's
     * validity and advance the head one step. In every frame: advance every
     * checkmark and decide which are stroked.
     */
    method Paint(dom: ControlId -> Element) returns (frame: Frame)
      requires Valid()
      modifies this, head
      ensures Valid()
      ensures currentFocus == old(currentFocus) && order == old(order)
      ensures currentFocus.None? ==> head.State() == old(head.State()) && tail == old(tail)
      ensures currentFocus.Some? ==> history == old(history) + [old(head.State())]
      ensures currentFocus.Some? ==> tail == Push(old(tail), old(head.State()))
      ensures currentFocus.Some? ==> head.State() == Step(old(head.State()), dom(currentFocus.value).valid)
      ensures checkmarks == AdvanceAll(old(checkmarks))
      ensures frame == Frame(currentFocus.Some? && DrawsTrail(tail), currentFocus.Some?,
                             CheckDraws(order, checkmarks, dom))
    {
      var drawTail := false;
      if currentFocus.Some? {
        var snapshot := head.State();
        PushRecent(history, snapshot);
        tail := tail + [snapshot];
        if |tail| > TailLength {
          tail := tail[1..];
        }
        history := history + [snapshot];
        drawTail := |tail| > 3;

        head.Move(dom(currentFocus.value).valid);
      }

      var draws;
      checkmarks, draws := AdvanceTable(order, checkmarks, dom);
      frame := Frame(drawTail, currentFocus.Some?, draws);
    }

    /**
     * A focus event on `element`, or, with None, the re-targeting done after
     * a resize or a scroll. The focus moves to `element` if one is given; if
     * the element now focused is an input or a button the head is
     * re-targeted, placed if it was not, and kicked if the focused element
     * changed.
     */
    method Focus(element: Option<ControlId>, dom: ControlId -> Element)
      requires Valid()
      modifies this, head
      ensures Valid()
      ensures currentFocus == if element.Some? then element else old(currentFocus)
      ensures tail == old(tail) && history == old(history)
      ensures checkmarks == old(checkmarks) && order == old(order)
      ensures head.State() == Retarget(old(head.State()), old(currentFocus), currentFocus, dom)
    {
      var previousFocus := currentFocus;
      if element.Some? {
        currentFocus := element;
      }
      if currentFocus.None? || !dom(currentFocus.value).isInputOrButton {
        return;
      }
      var el := dom(currentFocus.value);
      head.tx := el.offsetLeft - Spacing - Radius;
      head.ty := el.offsetTop + el.offsetHeight / 2.0;
      if !head.placed {
        head.x := head.tx;
        head.y := head.ty;
        head.placed := true;
      }
      if currentFocus != previousFocus {
        head.vx := -8.0 - Abs(head.tx - head.x) / 5.0;
      }
    }

    /**
     * An input event on `element` with the given type attribute and value.
     * Returns the validity the control's `valid` class is set to and whether
     * the control has a checkmark; for one that has none (a checkbox) the
     * script fails when it sets the target, and nothing else changes.
     */
    method Validate(element: ControlId, typeAttr: string, value: string)
      returns (valid: bool, registered: bool)
      requires Valid()
      modifies this
      ensures Valid()
      ensures valid == IsValid(typeAttr, value)
      ensures registered == (element in old(checkmarks))
      ensures registered ==> checkmarks == SetTarget(old(checkmarks), element, valid).value
      ensures !registered ==> checkmarks == old(checkmarks)
      ensures tail == old(tail) && history == old(history) && order == old(order)
      ensures currentFocus == old(currentFocus)
    {
      valid := IsValid(typeAttr, value);
      registered := element in checkmarks;
      if registered {
        checkmarks := checkmarks[element := checkmarks[element].(tv := if valid then 1.0 else 0.0)];
      }
    }

    /**
     * A resize or scroll: re-target the head at the control still focused,
     * then paint a frame. The velocity only decays; no kick is applied.
     */
    method Refresh(dom: ControlId -> Element) returns (frame: Frame)
      requires Valid()
      modifies this, head
      ensures Valid()
      ensures currentFocus == old(currentFocus)
      ensures old(head.placed) ==> head.vx == 0.8 * old(head.vx)
      ensures currentFocus.Some? ==>
                head.State() == Step(Retarget(old(head.State()), currentFocus, currentFocus, dom),
                                     dom(currentFocus.value).valid)
      ensures currentFocus.None? ==> head.State() == old(head.State())
      ensures currentFocus.Some? ==>
                tail == Push(old(tail), Retarget(old(head.State()), currentFocus, currentFocus, dom))
      ensures currentFocus.Some? ==>
                history == old(history) + [Retarget(old(head.State()), currentFocus, currentFocus, dom)]
      ensures currentFocus.None? ==> tail == old(tail) && history == old(history)
      ensures checkmarks == AdvanceAll(old(checkmarks)) && order == old(order)
      ensures frame == Frame(currentFocus.Some? && DrawsTrail(tail), currentFocus.Some?,
                             CheckDraws(order, checkmarks, dom))
    {
      Focus(None, dom);
      frame := Paint(dom);
    }
  }

}
