/**
 * The checkmark table: one record `{v, tv}` per non-checkbox input, keyed by
 * the control. `tv` is the target (1 when the field validated, else 0),
 * `v` the reveal value that eases toward it each frame; a checkmark is
 * stroked only while `v > 0.05`, with a dash offset that rises from
 * CHECK_LENGTH at v = 0 to 2 * CHECK_LENGTH at v = 1.
 */
module Checkmarks {

  import opened Wrappers
  import opened Controls
  import opened Smoothing

  const CheckSize: real := 10.0
  /** Math.ceil(10 * 1.8): the dash length of the checkmark stroke. */
  const CheckLength: int := 18
  /** Below this reveal value nothing is drawn. */
  const DrawThreshold: real := 0.05

  datatype Checkmark = Checkmark(v: real, tv: real)

  /** The record every registered control starts with, `{v: 0, tv: 0}`. */
  const Hidden: Checkmark := Checkmark(0.0, 0.0)

  /** The state the script keeps each record in: v in [0, 1], tv either 0 or 1. */
  predicate Sane(c: Checkmark)
  {
    0.0 <= c.v <= 1.0 && (c.tv == 0.0 || c.tv == 1.0)
  }

  /** One frame of `checkmark.v += (checkmark.tv - checkmark.v) * 0.2`. */
  function Advance(c: Checkmark): (c': Checkmark)
    ensures c'.tv == c.tv
    ensures c'.v - c.tv == 0.8 * (c.v - c.tv)
    ensures Sane(c) ==> Sane(c')
  {
    c.(v := Smooth(c.v, c.tv))
  }

  /** A sane record moves strictly closer to its target unless it is already there. */
  lemma AdvanceApproaches(c: Checkmark)
    requires Sane(c)
    ensures c.v != c.tv ==> Abs(Advance(c).v - c.tv) < Abs(c.v - c.tv)
    ensures c.v == c.tv ==> Advance(c) == c
  {
    SmoothApproaches(c.v, c.tv);
  }

  /** After n frames the reveal value is 0.8^n of the way from its target where it started. */
  lemma {:induction false} AdvanceN(c: Checkmark, n: nat)
    requires Sane(c)
    ensures 0.0 <= SmoothN(c.v, c.tv, n) <= 1.0
    ensures SmoothN(c.v, c.tv, n) - c.tv == Pow(0.8, n) * (c.v - c.tv)
  {
    SmoothNBetween(c.v, c.tv, n);
    SmoothNClosedForm(c.v, c.tv, n);
  }

  /** A frame of the whole table: every record advances, none appears or disappears. */
  function AdvanceAll(marks: map<ControlId, Checkmark>): (marks': map<ControlId, Checkmark>)
    ensures marks'.Keys == marks.Keys
    ensures forall id :: id in marks ==> marks'[id] == Advance(marks[id])
    ensures (forall id :: id in marks ==> Sane(marks[id])) ==> forall id :: id in marks' ==> Sane(marks'[id])
  {
    map id | id in marks :: Advance(marks[id])
  }

  /** Math.round on a non-negative value: the nearest integer, halves rounded up. */
  function Round(x: real): (n: int)
    ensures n as real - 0.5 <= x < n as real + 0.5
  {
    (x + 0.5).Floor
  }

  /** `CHECK_LENGTH + Math.round(v * CHECK_LENGTH)`, the dash offset for reveal value v. */
  function DashOffset(v: real): (d: int)
    ensures 0.0 <= v <= 1.0 ==> CheckLength <= d <= 2 * CheckLength
    ensures v == 0.0 ==> d == CheckLength
    ensures v == 1.0 ==> d == 2 * CheckLength
  {
    CheckLength + Round(v * CheckLength as real)
  }

  /** The dash offset never decreases as the reveal value grows. */
  lemma DashOffsetMonotone(v: real, w: real)
    requires v <= w
    ensures DashOffset(v) <= DashOffset(w)
  {
    var a := v * CheckLength as real + 0.5;
    var b := w * CheckLength as real + 0.5;
    assert a <= b;
    assert a.Floor <= b.Floor;
  }

  /** A checkmark to stroke this frame: the glyph's centre and the stroke's dash offset. */
  datatype CheckDraw = CheckDraw(id: ControlId, midX: real, midY: real, dashOffset: int)

  /**
   * The draw decision for one record: stroked exactly when past the
   * threshold, centred 24 units left of its control (where the head rests)
   * and one unit below its vertical middle; a stroked sane record has a dash
   * offset of at least CHECK_LENGTH + 1, so some of the glyph shows.
   */
  function DrawOf(id: ControlId, c: Checkmark, el: Element): (shown: Option<CheckDraw>)
    ensures shown.Some? <==> c.v > DrawThreshold
    ensures shown.Some? ==> shown.value.id == id && shown.value.dashOffset == DashOffset(c.v)
    ensures shown.Some? ==> shown.value.midX == el.offsetLeft - 24.0
    ensures shown.Some? ==> shown.value.midY == el.offsetTop + el.offsetHeight / 2.0 + 1.0
    ensures shown.Some? && c.v <= 1.0 ==> CheckLength + 1 <= shown.value.dashOffset <= 2 * CheckLength
  {
    if c.v > DrawThreshold then
      Some(CheckDraw(id,
                     el.offsetLeft - CheckSize / 2.0 - Spacing - 3.0,
                     el.offsetTop + el.offsetHeight / 2.0 + 1.0,
                     DashOffset(c.v)))
    else None
  }

  /** The checkmarks stroked in one frame, in the table's iteration order `ids`. */
  function CheckDraws(ids: seq<ControlId>, marks: map<ControlId, Checkmark>,
                      dom: ControlId -> Element): (draws: seq<CheckDraw>)
    ensures |draws| <= |ids|
    ensures forall d :: d in draws ==>
              d.id in ids && d.id in marks && DrawOf(d.id, marks[d.id], dom(d.id)) == Some(d)
  {
    if ids == [] then []
    else
      var init := CheckDraws(ids[..|ids| - 1], marks, dom);
      var id := ids[|ids| - 1];
      if id !in marks then init
      else match DrawOf(id, marks[id], dom(id))
        case None => init
        case Some(d) => init + [d]
  }

  /** The draws for the first i + 1 controls are those for the first i plus the next one's own. */
  lemma CheckDrawsNext(ids: seq<ControlId>, i: nat, marks: map<ControlId, Checkmark>,
                       dom: ControlId -> Element, shown: Option<CheckDraw>)
    requires i < |ids| && ids[i] in marks
    requires shown == DrawOf(ids[i], marks[ids[i]], dom(ids[i]))
    ensures CheckDraws(ids[..i + 1], marks, dom) ==
            CheckDraws(ids[..i], marks, dom) + (if shown.Some? then [shown.value] else [])
  {
    assert ids[..i + 1][..i] == ids[..i];
  }

  function DrawnIds(draws: seq<CheckDraw>): set<ControlId>
  {
    set d | d in draws :: d.id
  }

  /**
   * Exactly the listed controls whose record is past the threshold are
   * stroked (each once when the list has no repeats: CheckDrawsDistinct),
   * and every stroke's dash offset lies in
   * [CHECK_LENGTH, 2 * CHECK_LENGTH].
   */
  lemma {:induction false} CheckDrawsExact(ids: seq<ControlId>, marks: map<ControlId, Checkmark>,
                                           dom: ControlId -> Element)
    requires forall id :: id in marks ==> Sane(marks[id])
    ensures DrawnIds(CheckDraws(ids, marks, dom)) == set id | id in ids && id in marks && marks[id].v > DrawThreshold
    ensures forall d :: d in CheckDraws(ids, marks, dom) ==>
              d.id in marks && d.dashOffset == DashOffset(marks[d.id].v) &&
              CheckLength <= d.dashOffset <= 2 * CheckLength
    ensures |CheckDraws(ids, marks, dom)| <= |ids|
  {
    if ids != [] {
      var front := ids[..|ids| - 1];
      var last := ids[|ids| - 1];
      CheckDrawsExact(front, marks, dom);
      assert ids == front + [last];
      var init := CheckDraws(front, marks, dom);
      var shown := set id | id in front && id in marks && marks[id].v > DrawThreshold;
      if last in marks && marks[last].v > DrawThreshold {
        var d := DrawOf(last, marks[last], dom(last)).value;
        assert CheckDraws(ids, marks, dom) == init + [d];
        assert DrawnIds(init + [d]) == DrawnIds(init) + {last};
        assert (set id | id in ids && id in marks && marks[id].v > DrawThreshold) == shown + {last};
      } else {
        assert CheckDraws(ids, marks, dom) == init;
        assert (set id | id in ids && id in marks && marks[id].v > DrawThreshold) == shown;
      }
    }
  }

  /** No two strokes are for the same control. */
  predicate DistinctIds(draws: seq<CheckDraw>)
  {
    forall i, j :: 0 <= i < j < |draws| ==> draws[i].id != draws[j].id
  }

  /** A table order without repeats strokes each control at most once. */
  lemma {:induction false} CheckDrawsDistinct(ids: seq<ControlId>, marks: map<ControlId, Checkmark>,
                                              dom: ControlId -> Element)
    requires forall i, j :: 0 <= i < j < |ids| ==> ids[i] != ids[j]
    ensures DistinctIds(CheckDraws(ids, marks, dom))
  {
    if ids != [] {
      var front := ids[..|ids| - 1];
      var last := ids[|ids| - 1];
      CheckDrawsDistinct(front, marks, dom);
      var init := CheckDraws(front, marks, dom);
      assert ids == front + [last] && last !in front;
      assert forall d :: d in init ==> d.id != last;
      var draws := CheckDraws(ids, marks, dom);
      if last in marks && marks[last].v > DrawThreshold {
        var d := DrawOf(last, marks[last], dom(last)).value;
        assert draws == init + [d] && d.id == last;
        forall i, j | 0 <= i < j < |draws|
          ensures draws[i].id != draws[j].id
        {
          assert draws[i] in init;
        }
      } else {
        assert draws == init;
      }
    }
  }

  /** The records of the first i controls of `order` have advanced one step, the others not yet. */
  ghost predicate AdvancedUpTo(order: seq<ControlId>, i: nat, marks: map<ControlId, Checkmark>,
                               marks': map<ControlId, Checkmark>)
    requires i <= |order|
  {
    && marks'.Keys == marks.Keys
    && forall id :: id in marks' ==> marks'[id] == if id in order[..i] then Advance(marks[id]) else marks[id]
  }

  /** Advancing the next control's record extends AdvancedUpTo by one. */
  lemma AdvancedSoFar(order: seq<ControlId>, i: nat, marks: map<ControlId, Checkmark>,
                      marks': map<ControlId, Checkmark>)
    requires i < |order| && order[i] in marks
    requires forall a, b :: 0 <= a < b < |order| ==> order[a] != order[b]
    requires AdvancedUpTo(order, i, marks, marks')
    ensures marks'[order[i]] == marks[order[i]]
    ensures AdvancedUpTo(order, i + 1, marks, marks'[order[i] := Advance(marks'[order[i]])])
  {
    assert order[..i + 1] == order[..i] + [order[i]];
    assert order[i] !in order[..i];
  }

  /**
   * The checkmark loop of a frame: each record of the table, visited in the
   * table's iteration order `order`, advances one step and, if it is then
   * past the threshold, is stroked.
   */
  method AdvanceTable(order: seq<ControlId>, marks: map<ControlId, Checkmark>, dom: ControlId -> Element)
    returns (marks': map<ControlId, Checkmark>, draws: seq<CheckDraw>)
    requires forall i, j :: 0 <= i < j < |order| ==> order[i] != order[j]
    requires forall id :: id in marks <==> id in order
    ensures marks' == AdvanceAll(marks)
    ensures draws == CheckDraws(order, marks', dom)
  {
    ghost var advanced := AdvanceAll(marks);
    marks' := marks;
    draws := [];
    var i := 0;
    while i < |order|
      invariant 0 <= i <= |order|
      invariant AdvancedUpTo(order, i, marks, marks')
      invariant draws == CheckDraws(order[..i], advanced, dom)
    {
      var id := order[i];
      AdvancedSoFar(order, i, marks, marks');
      var checkmark := Advance(marks'[id]);
      marks' := marks'[id := checkmark];
      var shown := DrawOf(id, checkmark, dom(id));
      CheckDrawsNext(order, i, advanced, dom, shown);
      if shown.Some? {
        draws := draws + [shown.value];
      }
      i := i + 1;
    }
    assert order[..i] == order;
    assert forall id :: id in marks' ==> marks'[id] == advanced[id];
  }

  /**
   * Setting the target of one control's record, as validation does: the
   * record must exist (the script reads it with `checkmarks.get`, which fails
   * for a control that was never registered).
   */
  function SetTarget(marks: map<ControlId, Checkmark>, id: ControlId, valid: bool)
    : (r: Option<map<ControlId, Checkmark>>)
    ensures r.Some? <==> id in marks
    ensures r.Some? ==> r.value.Keys == marks.Keys
    ensures r.Some? ==> r.value[id] == Checkmark(marks[id].v, if valid then 1.0 else 0.0)
    ensures r.Some? ==> forall other :: other in marks && other != id ==> r.value[other] == marks[other]
    ensures r.Some? && Sane(marks[id]) ==> Sane(r.value[id])
  {
    if id in marks then Some(marks[id := marks[id].(tv := if valid then 1.0 else 0.0)]) else None
  }

}
