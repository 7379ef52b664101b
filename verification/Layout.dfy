/** The layout service of Chart.js: boxes on the four sides take space from the chart area
    until every box has measured itself, then all boxes are placed around what is left. */
module Layout {
  import opened Rounding
  import opened Wrappers

  datatype Side = Left | Top | Right | Bottom {
    predicate Horizontal() {
      this == Top || this == Bottom
    }
  }

  datatype Padding = Padding(left: real, top: real, right: real, bottom: real) {
    function Of(side: Side): real {
      match side
      case Left => left
      case Top => top
      case Right => right
      case Bottom => bottom
    }
  }

  /** What a box makes of an update: its size, and its paddings if it has any. */
  datatype Answer = Answer(width: real, height: real, padding: Option<Padding>)

  /** What every box answers when it is asked. */
  type Answers = Box -> Answer

  /** `outerWidth`, `outerHeight` and `padding` of the source's frozen `params`. */
  datatype Params = Params(outerWidth: real, outerHeight: real, padding: Padding)

  /** A box: `update` may give it any width and height, the layout gives it its edges. */
  class Box {
    const fullWidth: bool
    var width: real
    var height: real
    var left: real
    var top: real
    var right: real
    var bottom: real
  }

  /** A box with its place in the layout; `size` is what it was last counted for. */
  class LayoutBox {
    const box: Box
    const side: Side
    var size: real

    constructor (box: Box, side: Side)
      ensures this.box == box && this.side == side && size == 0.0
    {
      this.box, this.side, size := box, side, 0.0;
    }
  }

  class ChartArea {
    var left: real
    var top: real
    var right: real
    var bottom: real
    var w: real
    var h: real
    var x: real
    var y: real
    var maxPadding: Padding

    constructor (params: Params)
      ensures left == x == params.padding.left && top == y == params.padding.top
      ensures right == params.padding.right && bottom == params.padding.bottom
      ensures maxPadding == params.padding && Balanced(params)
    {
      var p := params.padding;
      left, top, right, bottom, x, y := p.left, p.top, p.right, p.bottom, p.left, p.top;
      w := params.outerWidth - (p.left + p.right);
      h := params.outerHeight - (p.top + p.bottom);
      maxPadding := p;
    }

    method Add(side: Side, amount: real)
      modifies this`left, this`top, this`right, this`bottom
      ensures left == old(left) + if side == Left then amount else 0.0
      ensures top == old(top) + if side == Top then amount else 0.0
      ensures right == old(right) + if side == Right then amount else 0.0
      ensures bottom == old(bottom) + if side == Bottom then amount else 0.0
    {
      match side
      case Left => left := left + amount;
      case Top => top := top + amount;
      case Right => right := right + amount;
      case Bottom => bottom := bottom + amount;
    }

    function Edges(): Padding
      reads this
    {
      Padding(left, top, right, bottom)
    }

    function CombinedWidth(): real
      reads this
    {
      Max(maxPadding.left, left) + Max(maxPadding.right, right)
    }

    function CombinedHeight(): real
      reads this
    {
      Max(maxPadding.top, top) + Max(maxPadding.bottom, bottom)
    }

    /** The area is what the sides, or the paddings that stick out further, leave over. */
    ghost predicate Balanced(params: Params)
      reads this
    {
      w == params.outerWidth - CombinedWidth() && h == params.outerHeight - CombinedHeight()
    }
  }

  /** A position of the placing cursor. */
  datatype Spot = Spot(x: real, y: real)

  // ----- the space account -----

  /** The space a layout box is counted for, and where. */
  datatype Part = Part(side: Side, size: real)

  /** `parts` is what the boxes are counted for at present. */
  ghost predicate Ledger(boxes: seq<LayoutBox>, parts: seq<Part>)
    reads Objects(boxes)
  {
    |parts| == |boxes| && forall i {:trigger parts[i]} :: 0 <= i < |boxes| ==>
      parts[i] == Part(boxes[i].side, boxes[i].size)
  }

  ghost function Total(parts: seq<Part>, side: Side): real {
    if parts == [] then 0.0
    else Total(parts[..|parts| - 1], side) + if parts[|parts| - 1].side == side then parts[|parts| - 1].size else 0.0
  }

  lemma {:induction false} TotalUpdate(parts: seq<Part>, i: nat, p: Part, side: Side)
    requires i < |parts| && p.side == parts[i].side
    ensures Total(parts[i := p], side) == Total(parts, side) + if p.side == side then p.size - parts[i].size else 0.0
  {
    var n := |parts| - 1;
    if i == n {
      assert parts[i := p][..n] == parts[..n];
    } else {
      assert parts[i := p][..n] == parts[..n][i := p];
      TotalUpdate(parts[..n], i, p, side);
    }
  }

  lemma {:induction false} TotalAppend(a: seq<Part>, b: seq<Part>, side: Side)
    ensures Total(a + b, side) == Total(a, side) + Total(b, side)
  {
    if b == [] {
      assert a + b == a;
    } else {
      assert (a + b)[..|a + b| - 1] == a + b[..|b| - 1];
      TotalAppend(a, b[..|b| - 1], side);
    }
  }

  lemma {:induction false} TotalElsewhere(parts: seq<Part>, side: Side)
    requires forall i :: 0 <= i < |parts| ==> parts[i].side != side
    ensures Total(parts, side) == 0.0
  {
    if parts != [] {
      TotalElsewhere(parts[..|parts| - 1], side);
    }
  }

  ghost function Objects(boxes: seq<LayoutBox>): (r: set<object>)
    ensures forall i :: 0 <= i < |boxes| ==> boxes[i] in r && boxes[i].box in r
  {
    (set i | 0 <= i < |boxes| :: boxes[i] as object) + (set i | 0 <= i < |boxes| :: boxes[i].box as object)
  }

  /** No box and no layout box occurs twice. */
  ghost predicate Separate(boxes: seq<LayoutBox>) {
    forall i, j :: 0 <= i < j < |boxes| ==> boxes[i] != boxes[j] && boxes[i].box != boxes[j].box
  }

  /** Each side of the area is the padding plus the boxes counted there. */
  ghost predicate Counted(area: ChartArea, params: Params, parts: seq<Part>)
    reads area
  {
    && area.left == params.padding.left + Total(parts, Left)
    && area.top == params.padding.top + Total(parts, Top)
    && area.right == params.padding.right + Total(parts, Right)
    && area.bottom == params.padding.bottom + Total(parts, Bottom)
  }

  /** The size a box is to be counted for. */
  ghost function Measure(b: LayoutBox): real
    reads b.box
  {
    if b.side.Horizontal() then b.box.height else b.box.width
  }

  /** Takes back the size a box was counted for and counts its present one. */
  method Recount(area: ChartArea, params: Params, layout: LayoutBox, ghost parts: seq<Part>, ghost i: nat)
    returns (ghost parts': seq<Part>)
    requires i < |parts| && parts[i] == Part(layout.side, layout.size) && Counted(area, params, parts)
    modifies area`left, area`top, area`right, area`bottom, layout
    ensures layout.size == Measure(layout) && parts' == parts[i := Part(layout.side, layout.size)]
    ensures Counted(area, params, parts')
  {
    if layout.size != 0.0 {
      // counted before: takes the count back
      area.Add(layout.side, -layout.size);
    }
    layout.size := if layout.side.Horizontal() then layout.box.height else layout.box.width;
    area.Add(layout.side, layout.size);
    ghost var part := Part(layout.side, layout.size);
    parts' := parts[i := part];
    forall s ensures Total(parts', s) == Total(parts, s) + if part.side == s then part.size - parts[i].size else 0.0 {
      TotalUpdate(parts, i, part, s);
    }
  }

  /** The larger one of two paddings on each side. */
  function Widen(m: Padding, p: Option<Padding>): Padding {
    if p.None? then m
    else
      var n := p.value;
      Padding(Max(m.left, n.left), Max(m.top, n.top), Max(m.right, n.right), Max(m.bottom, n.bottom))
  }

  /** The largest paddings after the first `n` boxes have answered. */
  ghost function WidestOf(m: Padding, boxes: seq<LayoutBox>, ask: Answers, n: nat): Padding
    requires n <= |boxes|
  {
    if n == 0 then m else Widen(WidestOf(m, boxes, ask, n - 1), ask(boxes[n - 1].box).padding)
  }

  /** `x` is the largest of `base` and what the boxes answer for the side. */
  ghost predicate LargestPadding(x: real, base: real, boxes: seq<LayoutBox>, ask: Answers, side: Side) {
    && base <= x
    && (forall b :: b in boxes && ask(b.box).padding.Some? ==> ask(b.box).padding.value.Of(side) <= x)
    && (x == base || exists b :: b in boxes && ask(b.box).padding.Some? && ask(b.box).padding.value.Of(side) == x)
  }

  lemma {:induction false} WidestIsLargest(m: Padding, boxes: seq<LayoutBox>, ask: Answers, n: nat, side: Side)
    requires n <= |boxes|
    ensures LargestPadding(WidestOf(m, boxes, ask, n).Of(side), m.Of(side), boxes[..n], ask, side)
  {
    if n > 0 {
      WidestIsLargest(m, boxes, ask, n - 1, side);
      var last := boxes[n - 1];
      assert boxes[..n] == boxes[..n - 1] + [last];
      assert last in boxes[..n];
    }
  }

  /** The largest paddings of a group on top of the largest ones of another. */
  lemma LargestOfBoth(m: Padding, n: Padding, a: seq<LayoutBox>, b: seq<LayoutBox>, ask: Answers, side: Side)
    requires LargestPadding(n.Of(side), m.Of(side), a, ask, side)
    ensures var all := WidestOf(n, b, ask, |b|).Of(side);
      && LargestPadding(all, m.Of(side), a + b, ask, side)
      && ((forall c :: c in b ==> c in a) ==> LargestPadding(all, m.Of(side), a, ask, side))
  {
    assert b[..|b|] == b;
    WidestIsLargest(n, b, ask, |b|, side);
    assert forall c :: c in a || c in b ==> c in a + b;
  }

  /** `n` are the largest of the paddings `m` and those of all boxes. */
  ghost predicate Largest(n: Padding, m: Padding, boxes: seq<LayoutBox>, ask: Answers) {
    forall side: Side :: LargestPadding(n.Of(side), m.Of(side), boxes, ask, side)
  }

  lemma AllLargest(m: Padding, vertical: seq<LayoutBox>, horizontal: seq<LayoutBox>, ask: Answers)
    ensures Largest(WidestOf(WidestOf(m, vertical, ask, |vertical|), horizontal, ask, |horizontal|), m,
                    vertical + horizontal, ask)
  {
    var n := WidestOf(m, vertical, ask, |vertical|);
    assert vertical[..|vertical|] == vertical;
    forall side: Side
      ensures LargestPadding(WidestOf(n, horizontal, ask, |horizontal|).Of(side), m.Of(side),
                             vertical + horizontal, ask, side)
    {
      WidestIsLargest(m, vertical, ask, |vertical|, side);
      LargestOfBoth(m, n, vertical, horizontal, ask, side);
    }
  }

  /** Boxes that answer once more change nothing. */
  lemma StillLargest(m: Padding, n: Padding, vertical: seq<LayoutBox>, horizontal: seq<LayoutBox>, ask: Answers)
    requires Largest(n, m, vertical + horizontal, ask)
    ensures Largest(WidestOf(n, vertical, ask, |vertical|), m, vertical + horizontal, ask)
  {
    forall side: Side
      ensures LargestPadding(WidestOf(n, vertical, ask, |vertical|).Of(side), m.Of(side),
                             vertical + horizontal, ask, side)
    {
      LargestOfBoth(m, n, vertical + horizontal, vertical, ask, side);
    }
  }

  /** What a box is to be counted for by its answer. */
  function SizeOf(b: LayoutBox, ask: Answers): real {
    if b.side == Left || b.side == Right then ask(b.box).width else ask(b.box).height
  }

  /** The counts of `boxes`, from `parts[start]` on, are for the sizes that they answer. */
  ghost predicate AnsweredAt(boxes: seq<LayoutBox>, parts: seq<Part>, start: nat, ask: Answers) {
    start + |boxes| <= |parts| &&
    forall j {:trigger boxes[j]} :: 0 <= j < |boxes| ==>
      parts[start + j] == Part(boxes[j].side, SizeOf(boxes[j], ask))
  }

  /** Counts a box that has just measured itself; `parts` are the counts of all boxes.
      The result is meant to tell whether the area changed along the box; it is never true,
      because the sizes are compared after they were made equal. */
  method UpdateDims(area: ChartArea, params: Params, layout: LayoutBox, boxPadding: Option<Padding>,
                    ghost parts: seq<Part>, ghost i: nat) returns (changed: bool, ghost parts': seq<Part>)
    requires i < |parts| && parts[i] == Part(layout.side, layout.size) && Counted(area, params, parts)
    modifies area, layout
    ensures !changed
    ensures layout.size == Measure(layout) && parts' == parts[i := Part(layout.side, layout.size)]
    ensures Counted(area, params, parts') && area.Balanced(params)
    ensures area.x == old(area.x) && area.y == old(area.y)
    ensures area.maxPadding == Widen(old(area.maxPadding), boxPadding)
  {
    parts' := Recount(area, params, layout, parts, i);
    if boxPadding.Some? {
      var m, p := area.maxPadding, boxPadding.value;
      area.maxPadding :=
        Padding(Max(m.left, p.left), Max(m.top, p.top), Max(m.right, p.right), Max(m.bottom, p.bottom));
    }
    var newWidth := params.outerWidth - area.CombinedWidth();
    var newHeight := params.outerHeight - area.CombinedHeight();
    changed := false;
    if newWidth != area.w || newHeight != area.h {
      area.w := newWidth;
      area.h := newHeight;
      changed := if layout.side.Horizontal() then newWidth != area.w else newHeight != area.h;
    }
  }

  /** Every box is counted for its present size. */
  ghost predicate Fitted(boxes: seq<LayoutBox>)
    reads Objects(boxes)
  {
    forall i :: 0 <= i < |boxes| ==> boxes[i].size == Measure(boxes[i])
  }

  ghost predicate FittedFirst(boxes: seq<LayoutBox>, n: nat)
    requires n <= |boxes|
    reads Objects(boxes)
  {
    forall i {:trigger boxes[i]} :: 0 <= i < n ==> boxes[i].size == Measure(boxes[i])
  }

  /** Lets one box measure itself and counts it. */
  method FitBox(layout: LayoutBox, area: ChartArea, params: Params, ask: Answers, ghost parts: seq<Part>, ghost i: nat)
    returns (changed: bool, ghost parts': seq<Part>)
    requires i < |parts| && parts[i] == Part(layout.side, layout.size) && Counted(area, params, parts)
    modifies area, layout, layout.box
    ensures !changed && layout.size == SizeOf(layout, ask)
    ensures layout.size == Measure(layout) && parts' == parts[i := Part(layout.side, layout.size)]
    ensures Counted(area, params, parts') && area.Balanced(params)
    ensures area.x == old(area.x) && area.y == old(area.y)
    ensures area.maxPadding == Widen(old(area.maxPadding), ask(layout.box).padding)
  {
    // box.update(...) and box.getPadding()
    var box, answer := layout.box, ask(layout.box);
    box.width, box.height := answer.width, answer.height;
    changed, parts' := UpdateDims(area, params, layout, answer.padding, parts, i);
  }

  /** The counts of `boxes` are those from `parts[start]` on. */
  ghost predicate LedgerAt(boxes: seq<LayoutBox>, parts: seq<Part>, start: nat)
    reads boxes
  {
    start + |boxes| <= |parts| &&
    forall j {:trigger boxes[j]} :: 0 <= j < |boxes| ==> parts[start + j] == Part(boxes[j].side, boxes[j].size)
  }

  /** The counts after the first `n` of `boxes` have answered. */
  ghost predicate Recounted(boxes: seq<LayoutBox>, before: seq<Part>, parts: seq<Part>, start: nat, ask: Answers,
                            n: nat)
    requires n <= |boxes|
  {
    |parts| == |before| && forall k :: 0 <= k < |before| ==>
      parts[k] ==
        if start <= k < start + n then Part(boxes[k - start].side, SizeOf(boxes[k - start], ask)) else before[k]
  }

  lemma NextRecounted(boxes: seq<LayoutBox>, before: seq<Part>, parts: seq<Part>, start: nat, ask: Answers, n: nat)
    requires n < |boxes| && start + |boxes| <= |parts| && Recounted(boxes, before, parts, start, ask, n)
    ensures Recounted(boxes, before, parts[start + n := Part(boxes[n].side, SizeOf(boxes[n], ask))], start, ask, n + 1)
  {
  }

  lemma AllRecounted(boxes: seq<LayoutBox>, before: seq<Part>, parts: seq<Part>, start: nat, ask: Answers)
    requires start + |boxes| <= |parts| && Recounted(boxes, before, parts, start, ask, |boxes|)
    ensures AnsweredAt(boxes, parts, start, ask)
    ensures forall k :: 0 <= k < |parts| && !(start <= k < start + |boxes|) ==> parts[k] == before[k]
  {
    forall j | 0 <= j < |boxes| ensures parts[start + j] == Part(boxes[j].side, SizeOf(boxes[j], ask)) {
      var k := start + j;
      assert boxes[k - start] == boxes[j];
    }
  }

  /** The account is right, and the cursor is where it was. */
  ghost predicate Kept(area: ChartArea, params: Params, parts: seq<Part>, spot: Spot)
    reads area
  {
    Counted(area, params, parts) && area.Balanced(params) && Spot(area.x, area.y) == spot
  }

  /** Fits one of several boxes. */
  method FitNext(boxes: seq<LayoutBox>, i: nat, area: ChartArea, params: Params, ask: Answers,
                 ghost parts: seq<Part>, ghost start: nat)
    returns (changed: bool, ghost parts': seq<Part>)
    requires Separate(boxes) && i < |boxes| && LedgerAt(boxes, parts, start) && Counted(area, params, parts)
    modifies area, boxes[i], boxes[i].box
    ensures !changed && (old(FittedFirst(boxes, i)) ==> FittedFirst(boxes, i + 1))
    ensures parts' == parts[start + i := Part(boxes[i].side, SizeOf(boxes[i], ask))] && LedgerAt(boxes, parts', start)
    ensures Kept(area, params, parts', old(Spot(area.x, area.y)))
    ensures area.maxPadding == Widen(old(area.maxPadding), ask(boxes[i].box).padding)
  {
    changed, parts' := FitBox(boxes[i], area, params, ask, parts, start + i);
  }

  /** Lets `boxes` measure themselves and counts them. */
  method FitBoxes(boxes: seq<LayoutBox>, area: ChartArea, params: Params, ask: Answers,
                  ghost parts: seq<Part>, ghost start: nat)
    returns (changed: bool, ghost parts': seq<Part>)
    requires Separate(boxes) && LedgerAt(boxes, parts, start)
    requires Counted(area, params, parts) && area.Balanced(params)
    modifies area, Objects(boxes)
    ensures |parts'| == |parts|
    ensures forall j :: 0 <= j < |parts| && !(start <= j < start + |boxes|) ==> parts'[j] == parts[j]
    ensures LedgerAt(boxes, parts', start)
    ensures Kept(area, params, parts', old(Spot(area.x, area.y)))
    ensures Fitted(boxes) && AnsweredAt(boxes, parts', start, ask)
    ensures area.maxPadding == WidestOf(old(area.maxPadding), boxes, ask, |boxes|)
  {
    var refit := false;
    var refitBoxes := [];
    changed := false;
    parts' := parts;
    for i := 0 to |boxes|
      invariant Recounted(boxes, parts, parts', start, ask, i) && LedgerAt(boxes, parts', start)
      invariant Kept(area, params, parts', old(Spot(area.x, area.y)))
      invariant area.maxPadding == WidestOf(old(area.maxPadding), boxes, ask, i)
      invariant FittedFirst(boxes, i)
      invariant !changed && !refit
    {
      NextRecounted(boxes, parts, parts', start, ask, i);
      var c;
      c, parts' := FitNext(boxes, i, area, params, ask, parts', start);
      if c {
        changed := true;
        if |refitBoxes| > 0 {
          refit := true;
        }
      }
      if !boxes[i].box.fullWidth {
        refitBoxes := refitBoxes + [boxes[i]];
      }
    }
    AllRecounted(boxes, parts, parts', start, ask);
    // the source would now fit `refitBoxes` again if `refit` were set
    assert !refit;
  }

  /** Paddings that stick out further than the boxes of a side are added to that side. */
  method HandleMaxPadding(area: ChartArea, params: Params)
    requires area.Balanced(params)
    modifies area
    ensures area.Edges() == Widen(old(area.Edges()), Some(old(area.maxPadding)))
    ensures area.x - old(area.x) == area.left - old(area.left) && area.y - old(area.y) == area.top - old(area.top)
    ensures area.left + area.w + area.right == params.outerWidth
    ensures area.top + area.h + area.bottom == params.outerHeight
  {
    var m := area.maxPadding;
    var change := Max(m.top - area.top, 0.0);
    area.top, area.y := area.top + change, area.y + change;
    change := Max(m.left - area.left, 0.0);
    area.left, area.x := area.left + change, area.x + change;
    area.right := area.right + Max(m.right - area.right, 0.0);
    area.bottom := area.bottom + Max(m.bottom - area.bottom, 0.0);
  }

  // ----- placing the boxes -----

  datatype Rect = Rect(left: real, top: real, right: real, bottom: real)

  ghost function RectOf(b: Box): Rect
    reads b
  {
    Rect(b.left, b.top, b.right, b.bottom)
  }

  /** Side by side without gaps from `from` to `to`, all between `top` and `bottom`. */
  ghost predicate Columns(r: seq<Rect>, from: real, to: real, top: real, bottom: real) {
    && (forall i :: 0 <= i < |r| ==> r[i].top == top && r[i].bottom == bottom)
    && (forall i, j :: 0 <= i && j == i + 1 < |r| ==> r[j].left == r[i].right)
    && if r == [] then from == to else r[0].left == from && r[|r| - 1].right == to
  }

  /** Below each other without gaps from `from` to `to`. */
  ghost predicate Rows(r: seq<Rect>, from: real, to: real) {
    && (forall i, j :: 0 <= i && j == i + 1 < |r| ==> r[j].top == r[i].bottom)
    && if r == [] then from == to else r[0].top == from && r[|r| - 1].bottom == to
  }

  /** Placing one box of the given size moves the cursor from `p` to `q` along the box at `r`;
      `c` is the chart area. A full-width row ends at the user's paddings. */
  ghost predicate Step(horizontal: bool, fullWidth: bool, size: real, p: Spot, r: Rect, q: Spot, c: Rect,
                       params: Params) {
    if horizontal then
      && q.x == p.x && r.top == p.y && r.bottom == q.y == p.y + size
      && r.left == (if fullWidth then params.padding.left else c.left)
      && r.right == if fullWidth then params.outerWidth - params.padding.right else c.right
    else
      && q.y == p.y && r.left == p.x && r.right == q.x == p.x + size
      && r.top == c.top && r.bottom == c.bottom
  }

  /** Placing boxes of the given counts one by one, at `e`, moves the cursor along `t`. */
  ghost predicate Path(boxes: seq<LayoutBox>, parts: seq<Part>, e: seq<Rect>, t: seq<Spot>, c: Rect, params: Params) {
    && |parts| == |e| == |boxes| && |t| == |boxes| + 1
    && forall j {:trigger e[j]} :: 0 <= j < |boxes| ==>
         Step(parts[j].side.Horizontal(), boxes[j].box.fullWidth, parts[j].size, t[j], e[j], t[j + 1], c, params)
  }

  ghost function AreaRect(area: ChartArea): Rect
    reads area
  {
    Rect(area.left, area.top, area.left + area.w, area.top + area.h)
  }

  method PlaceBox(layout: LayoutBox, x: real, y: real, area: ChartArea, params: Params) returns (x': real, y': real)
    requires layout.size == Measure(layout)
    modifies layout.box
    ensures Step(layout.side.Horizontal(), layout.box.fullWidth, layout.size,
                 Spot(x, y), RectOf(layout.box), Spot(x', y'), AreaRect(area), params)
    ensures Stands(layout.box, RectOf(layout.box))
  {
    var box := layout.box;
    x', y' := x, y;
    if layout.side.Horizontal() {
      box.left := if box.fullWidth then params.padding.left else area.left;
      box.right := if box.fullWidth then params.outerWidth - params.padding.right else area.left + area.w;
      box.top := y;
      box.bottom := y + box.height;
      box.width := box.right - box.left;
      y' := box.bottom;
    } else {
      box.left := x;
      box.right := x + box.width;
      box.top := area.top;
      box.bottom := area.top + area.h;
      box.height := box.bottom - box.top;
      x' := box.right;
    }
  }

  ghost predicate PlacedAt(boxes: seq<LayoutBox>, r: seq<Rect>)
    reads Objects(boxes)
  {
    |r| == |boxes| && forall j {:trigger r[j]} :: 0 <= j < |boxes| ==> Stands(boxes[j].box, r[j])
  }

  /** A box has its edges, its width and its height from a rectangle. */
  ghost predicate Stands(b: Box, r: Rect)
    reads b
  {
    RectOf(b) == r && b.width == r.right - r.left && b.height == r.bottom - r.top
  }

  /** The shape of a placed box, `c` being the chart area: a column is as wide as the box answered and as high as the
      area; a row is as high as the box answered, and as wide as the area or, at full width, as the padded canvas. */
  ghost predicate Shaped(r: Rect, b: LayoutBox, ask: Answers, c: Rect, params: Params) {
    if b.side == Left || b.side == Right then
      r.right - r.left == ask(b.box).width && r.top == c.top && r.bottom == c.bottom
    else
      && r.bottom - r.top == ask(b.box).height
      && (b.box.fullWidth ==> r.left == params.padding.left && r.right == params.outerWidth - params.padding.right)
      && (!b.box.fullWidth ==> r.left == c.left && r.right == c.right)
  }

  ghost predicate AllShaped(boxes: seq<LayoutBox>, r: seq<Rect>, ask: Answers, c: Rect, params: Params) {
    |r| == |boxes| && forall j {:trigger r[j]} :: 0 <= j < |boxes| ==> Shaped(r[j], boxes[j], ask, c, params)
  }

  /** A placement gives the boxes the sizes that they answered. */
  lemma PathShaped(boxes: seq<LayoutBox>, parts: seq<Part>, e: seq<Rect>, t: seq<Spot>, c: Rect, params: Params,
                   ask: Answers)
    requires Path(boxes, parts, e, t, c, params) && AnsweredAt(boxes, parts, 0, ask)
    ensures AllShaped(boxes, e, ask, c, params)
  {
    forall j | 0 <= j < |boxes| ensures Shaped(e[j], boxes[j], ask, c, params) {
      var b := boxes[j];
      assert parts[0 + j] == Part(b.side, SizeOf(b, ask));
    }
  }

  /** Places the boxes from the position (area.x, area.y) on: vertical ones next to each other,
      horizontal ones below each other. `e` are the rectangles, `t` the cursor's positions. */
  method PlaceBoxes(boxes: seq<LayoutBox>, area: ChartArea, params: Params, ghost parts: seq<Part>)
    returns (ghost e: seq<Rect>, ghost t: seq<Spot>)
    requires Separate(boxes) && Fitted(boxes) && Ledger(boxes, parts)
    modifies area`x, area`y, set b | b in boxes :: b.box
    ensures PlacedAt(boxes, e) && Path(boxes, parts, e, t, AreaRect(area), params)
    ensures t[0] == Spot(old(area.x), old(area.y)) && t[|boxes|] == Spot(area.x, area.y)
    ensures AreaRect(area) == old(AreaRect(area)) && area.right == old(area.right) && area.bottom == old(area.bottom)
  {
    var x, y := area.x, area.y;
    e, t := [], [Spot(x, y)];
    ghost var c := AreaRect(area);
    for i := 0 to |boxes|
      invariant |e| == i && |t| == i + 1 && AreaRect(area) == c
      invariant t[0] == Spot(old(area.x), old(area.y)) && t[i] == Spot(x, y)
      invariant forall j {:trigger e[j]} :: 0 <= j < i ==>
        && Stands(boxes[j].box, e[j])
        && Step(parts[j].side.Horizontal(), boxes[j].box.fullWidth, parts[j].size, t[j], e[j], t[j + 1], c, params)
      invariant forall j :: i <= j < |boxes| ==> boxes[j].size == Measure(boxes[j])
    {
      var layout := boxes[i];
      assert layout in boxes;
      assert parts[i] == Part(layout.side, layout.size);
      var x', y' := PlaceBox(layout, x, y, area, params);
      e := e + [RectOf(layout.box)];
      t := t + [Spot(x', y')];
      x, y := x', y';
    }
    area.x := x;
    area.y := y;
  }

  // ----- the geometry of a placement -----

  /** Along the columns the cursor moves right by their sizes, along the rows down by theirs. */
  lemma {:induction false} Cursor(boxes: seq<LayoutBox>, parts: seq<Part>, e: seq<Rect>, t: seq<Spot>, c: Rect,
                                  params: Params, side: Side, side': Side, n: nat, k: nat)
    requires Path(boxes, parts, e, t, c, params) && n <= |parts| && k <= |parts|
    requires !side.Horizontal() && side'.Horizontal()
    requires forall j :: 0 <= j < |parts| ==> parts[j].side == if j < n then side else side'
    ensures t[k] == Spot(t[0].x + Total(parts[..k], side), t[0].y + Total(parts[..k], side'))
    ensures k >= n ==> t[k].x == t[n].x
    ensures k <= n ==> t[k].y == t[0].y
  {
    if k > 0 {
      Cursor(boxes, parts, e, t, c, params, side, side', n, k - 1);
      var r := e[k - 1];
      assert parts[..k][..k - 1] == parts[..k - 1];
    }
  }

  /** Columns, then rows: each side tiles its stretch of the cursor's way. */
  lemma PathTiles(boxes: seq<LayoutBox>, parts: seq<Part>, e: seq<Rect>, t: seq<Spot>, c: Rect, params: Params,
                  side: Side, side': Side, n: nat)
    requires Path(boxes, parts, e, t, c, params) && n <= |parts|
    requires !side.Horizontal() && side'.Horizontal()
    requires forall j :: 0 <= j < |parts| ==> parts[j].side == if j < n then side else side'
    ensures var p, q := t[0], t[|parts|];
      && q == Spot(p.x + Total(parts, side), p.y + Total(parts, side'))
      && Columns(e[..n], p.x, q.x, c.top, c.bottom)
      && Rows(e[n..], p.y, q.y)
  {
    var m := |parts|;
    Cursor(boxes, parts, e, t, c, params, side, side', n, m);
    Cursor(boxes, parts, e, t, c, params, side, side', n, n);
    assert parts[..m] == parts;
    PathColumns(boxes, parts, e, t, c, params, n);
    PathRows(boxes, parts, e, t, c, params, n);
  }

  lemma PathColumns(boxes: seq<LayoutBox>, parts: seq<Part>, e: seq<Rect>, t: seq<Spot>, c: Rect, params: Params,
                    n: nat)
    requires Path(boxes, parts, e, t, c, params) && n <= |parts|
    requires forall j :: 0 <= j < n ==> !parts[j].side.Horizontal()
    ensures Columns(e[..n], t[0].x, t[n].x, c.top, c.bottom)
  {
    var r := e[..n];
    forall j | 0 <= j < n
      ensures r[j].left == t[j].x && r[j].right == t[j + 1].x && r[j].top == c.top && r[j].bottom == c.bottom
    {
      assert e[j] == r[j];
    }
  }

  lemma PathRows(boxes: seq<LayoutBox>, parts: seq<Part>, e: seq<Rect>, t: seq<Spot>, c: Rect, params: Params, n: nat)
    requires Path(boxes, parts, e, t, c, params) && n <= |parts|
    requires forall j :: n <= j < |parts| ==> parts[j].side.Horizontal()
    ensures Rows(e[n..], t[n].y, t[|parts|].y)
  {
    var r, u := e[n..], t[n..];
    forall j | 0 <= j < |r| ensures r[j].top == u[j].y && r[j].bottom == u[j + 1].y {
      assert e[n + j] == r[j];
      assert u[j] == t[n + j] && u[j + 1] == t[n + j + 1];
    }
  }

  /** The rectangles around the chart area: columns and rows fill, without gaps, exactly the
      space between the chart area's edges and a line inside the padded canvas. */
  datatype Geometry = Geometry(area: Rect, left: seq<Rect>, top: seq<Rect>, right: seq<Rect>, bottom: seq<Rect>)

  ghost predicate LaidOut(g: Geometry, params: Params) {
    && (exists x :: params.padding.left <= x && Columns(g.left, x, g.area.left, g.area.top, g.area.bottom))
    && (exists y :: params.padding.top <= y && Rows(g.top, y, g.area.top))
    && (exists x :: x <= params.outerWidth - params.padding.right &&
          Columns(g.right, g.area.right, x, g.area.top, g.area.bottom))
    && (exists y :: y <= params.outerHeight - params.padding.bottom && Rows(g.bottom, g.area.bottom, y))
  }

  ghost predicate Apart(a: Rect, b: Rect) {
    a.right <= b.left || b.right <= a.left || a.bottom <= b.top || b.bottom <= a.top
  }

  ghost predicate PairwiseApart(r: seq<Rect>) {
    forall i, j :: 0 <= i < j < |r| ==> Apart(r[i], r[j])
  }

  lemma {:induction false} ColumnsOrdered(r: seq<Rect>, from: real, to: real, top: real, bottom: real, i: nat, j: nat)
    requires Columns(r, from, to, top, bottom) && i <= j < |r| && forall k :: 0 <= k < |r| ==> r[k].left <= r[k].right
    ensures r[i].left <= r[j].left && r[i].right <= r[j].right && (i < j ==> r[i].right <= r[j].left)
    decreases j
  {
    if i < j {
      ColumnsOrdered(r, from, to, top, bottom, i, j - 1);
    }
  }

  lemma {:induction false} RowsOrdered(r: seq<Rect>, from: real, to: real, i: nat, j: nat)
    requires Rows(r, from, to) && i <= j < |r| && forall k :: 0 <= k < |r| ==> r[k].top <= r[k].bottom
    ensures r[i].top <= r[j].top && r[i].bottom <= r[j].bottom && (i < j ==> r[i].bottom <= r[j].top)
    decreases j
  {
    if i < j {
      RowsOrdered(r, from, to, i, j - 1);
    }
  }

  lemma ColumnsInside(r: seq<Rect>, from: real, to: real, top: real, bottom: real)
    requires Columns(r, from, to, top, bottom) && forall k :: 0 <= k < |r| ==> r[k].left <= r[k].right
    ensures PairwiseApart(r)
    ensures forall a :: a in r ==> from <= a.left && a.right <= to && a.top == top && a.bottom == bottom
  {
    forall i, j | 0 <= i < j < |r| ensures Apart(r[i], r[j]) {
      ColumnsOrdered(r, from, to, top, bottom, i, j);
    }
    forall i | 0 <= i < |r| ensures from <= r[i].left && r[i].right <= to {
      ColumnsOrdered(r, from, to, top, bottom, 0, i);
      ColumnsOrdered(r, from, to, top, bottom, i, |r| - 1);
    }
  }

  lemma RowsInside(r: seq<Rect>, from: real, to: real)
    requires Rows(r, from, to) && forall k :: 0 <= k < |r| ==> r[k].top <= r[k].bottom
    ensures PairwiseApart(r)
    ensures forall a :: a in r ==> from <= a.top && a.bottom <= to
  {
    forall i, j | 0 <= i < j < |r| ensures Apart(r[i], r[j]) {
      RowsOrdered(r, from, to, i, j);
    }
    forall i | 0 <= i < |r| ensures from <= r[i].top && r[i].bottom <= to {
      RowsOrdered(r, from, to, 0, i);
      RowsOrdered(r, from, to, i, |r| - 1);
    }
  }

  /** With non-negative sizes no two boxes overlap, nor a box and the chart area, and no box
      leaves the padded canvas on its side. */
  lemma NoOverlap(g: Geometry, params: Params)
    requires LaidOut(g, params)
    requires g.area.left <= g.area.right && g.area.top <= g.area.bottom
    requires forall i :: 0 <= i < |g.left| ==> g.left[i].left <= g.left[i].right
    requires forall i :: 0 <= i < |g.right| ==> g.right[i].left <= g.right[i].right
    requires forall i :: 0 <= i < |g.top| ==> g.top[i].top <= g.top[i].bottom
    requires forall i :: 0 <= i < |g.bottom| ==> g.bottom[i].top <= g.bottom[i].bottom
    ensures PairwiseApart(g.left) && PairwiseApart(g.top) && PairwiseApart(g.right) && PairwiseApart(g.bottom)
    ensures forall a, b :: a in g.left && (b in g.top || b in g.right || b in g.bottom || b == g.area) ==> Apart(a, b)
    ensures forall a, b :: a in g.top && (b in g.right || b in g.bottom || b == g.area) ==> Apart(a, b)
    ensures forall a, b :: a in g.right && (b in g.bottom || b == g.area) ==> Apart(a, b)
    ensures forall a :: a in g.bottom ==> Apart(a, g.area)
    ensures forall a :: a in g.left ==> params.padding.left <= a.left
    ensures forall a :: a in g.top ==> params.padding.top <= a.top
    ensures forall a :: a in g.right ==> a.right <= params.outerWidth - params.padding.right
    ensures forall a :: a in g.bottom ==> a.bottom <= params.outerHeight - params.padding.bottom
  {
    var c := g.area;
    var x :| params.padding.left <= x && Columns(g.left, x, c.left, c.top, c.bottom);
    ColumnsInside(g.left, x, c.left, c.top, c.bottom);
    var y :| params.padding.top <= y && Rows(g.top, y, c.top);
    RowsInside(g.top, y, c.top);
    var x' :| x' <= params.outerWidth - params.padding.right && Columns(g.right, c.right, x', c.top, c.bottom);
    ColumnsInside(g.right, c.right, x', c.top, c.bottom);
    var y' :| y' <= params.outerHeight - params.padding.bottom && Rows(g.bottom, c.bottom, y');
    RowsInside(g.bottom, c.bottom, y');
  }

  // ----- the whole update -----

  ghost predicate OnSide(boxes: seq<LayoutBox>, side: Side) {
    forall j :: 0 <= j < |boxes| ==> boxes[j].side == side
  }

  ghost predicate CountsOf(parts: seq<Part>, side: Side) {
    forall j :: 0 <= j < |parts| ==> parts[j].side == side
  }

  lemma TotalsBySide(l: seq<Part>, r: seq<Part>, t: seq<Part>, b: seq<Part>)
    requires CountsOf(l, Left) && CountsOf(r, Right) && CountsOf(t, Top) && CountsOf(b, Bottom)
    ensures forall s :: Total((l + r) + (t + b), s) == Total(l + t, s) + Total(r + b, s)
    ensures forall s :: (s == Left || s == Top) ==> Total(r + b, s) == 0.0
    ensures forall s :: (s == Right || s == Bottom) ==> Total(l + t, s) == 0.0
  {
    forall s ensures Total((l + r) + (t + b), s) == Total(l + t, s) + Total(r + b, s) {
      TotalAppend(l + r, t + b, s);
      TotalAppend(l, r, s);
      TotalAppend(t, b, s);
      TotalAppend(l, t, s);
      TotalAppend(r, b, s);
    }
    forall s | s == Left || s == Top ensures Total(r + b, s) == 0.0 {
      TotalElsewhere(r + b, s);
    }
    forall s | s == Right || s == Bottom ensures Total(l + t, s) == 0.0 {
      TotalElsewhere(l + t, s);
    }
  }

  /** Layout boxes that were never counted stand in the ledger with zero. */
  lemma FreshLedger(vertical: seq<LayoutBox>, horizontal: seq<LayoutBox>) returns (parts: seq<Part>)
    requires forall b :: b in vertical + horizontal ==> b.size == 0.0
    ensures |parts| == |vertical| + |horizontal| && (forall s :: Total(parts, s) == 0.0)
    ensures LedgerAt(vertical, parts, 0) && LedgerAt(horizontal, parts, |vertical|)
  {
    var all := vertical + horizontal;
    parts := seq(|all|, i requires 0 <= i < |all| => Part(all[i].side, 0.0));
    forall s ensures Total(parts, s) == 0.0 {
      TotalZero(parts, s);
    }
    assert forall i :: 0 <= i < |vertical| ==> all[i] == vertical[i];
    assert forall i :: 0 <= i < |horizontal| ==> all[|vertical| + i] == horizontal[i];
  }

  /** Fits one group of boxes; what the account says of the other group stays true. */
  method FitGroup(boxes: seq<LayoutBox>, area: ChartArea, params: Params, ask: Answers, ghost parts: seq<Part>,
                  ghost start: nat, ghost others: seq<LayoutBox>, ghost place: nat)
    returns (changed: bool, ghost parts': seq<Part>)
    requires Separate(boxes) && Objects(boxes) !! Objects(others)
    requires LedgerAt(boxes, parts, start) && LedgerAt(others, parts, place)
    requires start + |boxes| <= place || place + |others| <= start
    requires Counted(area, params, parts) && area.Balanced(params)
    modifies area, Objects(boxes)
    ensures Kept(area, params, parts', old(Spot(area.x, area.y)))
    ensures |parts'| == |parts| && LedgerAt(boxes, parts', start) && LedgerAt(others, parts', place)
    ensures Fitted(boxes) && (old(Fitted(others)) ==> Fitted(others))
    ensures AnsweredAt(boxes, parts', start, ask)
    ensures AnsweredAt(others, parts, place, ask) ==> AnsweredAt(others, parts', place, ask)
    ensures area.maxPadding == WidestOf(old(area.maxPadding), boxes, ask, |boxes|)
  {
    assert forall j {:trigger others[j]} :: 0 <= j < |others| ==> others[j] in Objects(others);
    changed, parts' := FitBoxes(boxes, area, params, ask, parts, start);
  }

  /** Fits the vertical boxes, then the horizontal ones: all end up counted for their sizes. */
  method FitAll(vertical: seq<LayoutBox>, horizontal: seq<LayoutBox>, params: Params, area: ChartArea, ask: Answers,
                ghost parts: seq<Part>)
    returns (ghost parts': seq<Part>)
    requires Separate(vertical) && Separate(horizontal) && Objects(vertical) !! Objects(horizontal)
    requires |parts| == |vertical| + |horizontal|
    requires LedgerAt(vertical, parts, 0) && LedgerAt(horizontal, parts, |vertical|)
    requires Counted(area, params, parts) && area.Balanced(params)
    modifies area, Objects(vertical) + Objects(horizontal)
    ensures |parts'| == |parts| && Kept(area, params, parts', old(Spot(area.x, area.y)))
    ensures LedgerAt(vertical, parts', 0) && LedgerAt(horizontal, parts', |vertical|)
    ensures Fitted(vertical) && Fitted(horizontal)
    ensures AnsweredAt(vertical, parts', 0, ask) && AnsweredAt(horizontal, parts', |vertical|, ask)
    ensures Largest(area.maxPadding, old(area.maxPadding), vertical + horizontal, ask)
  {
    var changed;
    changed, parts' := FitGroup(vertical, area, params, ask, parts, 0, horizontal, |vertical|);
    changed, parts' := FitGroup(horizontal, area, params, ask, parts', |vertical|, vertical, 0);
    AllLargest(old(area.maxPadding), vertical, horizontal, ask);
    if changed {
      StillLargest(old(area.maxPadding), area.maxPadding, vertical, horizontal, ask);
      changed, parts' := FitGroup(vertical, area, params, ask, parts', 0, horizontal, |vertical|);
    }
  }

  lemma {:induction false} TotalZero(parts: seq<Part>, side: Side)
    requires forall i :: 0 <= i < |parts| ==> parts[i].size == 0.0
    ensures Total(parts, side) == 0.0
  {
    if parts != [] {
      TotalZero(parts[..|parts| - 1], side);
    }
  }

  lemma SeparateParts(a: seq<LayoutBox>, b: seq<LayoutBox>)
    requires Separate(a + b)
    ensures Separate(a) && Separate(b) && Objects(a) !! Objects(b)
  {
    forall i, j | 0 <= i < |a| && 0 <= j < |b| ensures a[i] != b[j] && a[i].box != b[j].box {
      assert (a + b)[i] == a[i] && (a + b)[|a| + j] == b[j];
    }
    forall i, j | 0 <= i < j < |a| ensures a[i] != a[j] && a[i].box != a[j].box {
      assert (a + b)[i] == a[i] && (a + b)[j] == a[j];
    }
    forall i, j | 0 <= i < j < |b| ensures b[i] != b[j] && b[i].box != b[j].box {
      assert (a + b)[|a| + i] == b[i] && (a + b)[|a| + j] == b[j];
    }
  }

  /** Places one pair of sides: the first `n` boxes as columns, the others as rows. */
  method PlaceSides(boxes: seq<LayoutBox>, area: ChartArea, params: Params, ghost parts: seq<Part>,
                    ghost ask: Answers, ghost side: Side, ghost side': Side, ghost n: nat)
    returns (ghost columns: seq<Rect>, ghost rows: seq<Rect>)
    requires Separate(boxes) && Fitted(boxes) && Ledger(boxes, parts)
    requires !side.Horizontal() && side'.Horizontal() && AnsweredAt(boxes, parts, 0, ask)
    requires n <= |parts| && forall j :: 0 <= j < |parts| ==> parts[j].side == if j < n then side else side'
    modifies area`x, area`y, Objects(boxes)
    ensures PlacedAt(boxes, columns + rows) && |columns| == n
    ensures AllShaped(boxes, columns + rows, ask, AreaRect(area), params)
    ensures AreaRect(area) == old(AreaRect(area)) && area.right == old(area.right) && area.bottom == old(area.bottom)
    ensures area.x == old(area.x) + Total(parts, side) && area.y == old(area.y) + Total(parts, side')
    ensures Columns(columns, old(area.x), area.x, area.top, area.top + area.h) && Rows(rows, old(area.y), area.y)
  {
    ghost var e, t;
    e, t := PlaceBoxes(boxes, area, params, parts);
    PathTiles(boxes, parts, e, t, AreaRect(area), params, side, side', n);
    PathShaped(boxes, parts, e, t, AreaRect(area), params, ask);
    columns, rows := e[..n], e[n..];
    assert e == columns + rows;
  }

  /** Moves across the chart area and places the sides there. */
  method PlaceOpposite(boxes: seq<LayoutBox>, area: ChartArea, params: Params, ghost parts: seq<Part>,
                       ghost ask: Answers, ghost n: nat)
    returns (ghost columns: seq<Rect>, ghost rows: seq<Rect>)
    requires Separate(boxes) && Fitted(boxes) && Ledger(boxes, parts) && AnsweredAt(boxes, parts, 0, ask)
    requires n <= |parts| && forall j :: 0 <= j < |parts| ==> parts[j].side == if j < n then Right else Bottom
    modifies area`x, area`y, Objects(boxes)
    ensures PlacedAt(boxes, columns + rows) && |columns| == n
    ensures AllShaped(boxes, columns + rows, ask, AreaRect(area), params)
    ensures AreaRect(area) == old(AreaRect(area)) && area.right == old(area.right) && area.bottom == old(area.bottom)
    ensures var x, y := old(area.x) + area.w, old(area.y) + area.h;
      && Columns(columns, x, x + Total(parts, Right), area.top, area.top + area.h)
      && Rows(rows, y, y + Total(parts, Bottom))
  {
    area.x := area.x + area.w;
    area.y := area.y + area.h;
    columns, rows := PlaceSides(boxes, area, params, parts, ask, Right, Bottom, n);
  }

  ghost function SideTotals(lt: seq<Part>, rb: seq<Part>): Padding {
    Padding(Total(lt, Left), Total(lt, Top), Total(rb, Right), Total(rb, Bottom))
  }

  /** From (x, y) on the left and top boxes reach as far as `totals` say; the right and bottom ones start across the
      chart area from there. */
  ghost predicate Around(g: Geometry, x: real, y: real, totals: Padding) {
    var x', y' := x + totals.left, y + totals.top;
    var x'', y'' := x' + (g.area.right - g.area.left), y' + (g.area.bottom - g.area.top);
    && Columns(g.left, x, x', g.area.top, g.area.bottom) && Rows(g.top, y, y')
    && Columns(g.right, x'', x'' + totals.right, g.area.top, g.area.bottom) && Rows(g.bottom, y'', y'' + totals.bottom)
  }

  /** Places both pairs of sides; `lt` and `rb` are the counts of the boxes. */
  method PlaceAll(leftAndTop: seq<LayoutBox>, rightAndBottom: seq<LayoutBox>, area: ChartArea, params: Params,
                  ghost ask: Answers, ghost nl: nat, ghost nr: nat, ghost lt: seq<Part>, ghost rb: seq<Part>)
    returns (ghost g: Geometry)
    requires Ready(leftAndTop, rightAndBottom, lt, rb)
    requires AnsweredAt(leftAndTop, lt, 0, ask) && AnsweredAt(rightAndBottom, rb, 0, ask)
    requires nl <= |lt| && forall j :: 0 <= j < |lt| ==> lt[j].side == if j < nl then Left else Top
    requires nr <= |rb| && forall j :: 0 <= j < |rb| ==> rb[j].side == if j < nr then Right else Bottom
    modifies area`x, area`y, Objects(leftAndTop), Objects(rightAndBottom)
    ensures g.area == AreaRect(area) == old(AreaRect(area)) && area.right == old(area.right)
    ensures area.bottom == old(area.bottom)
    ensures PlacedAt(leftAndTop, g.left + g.top) && |g.left| == nl
    ensures PlacedAt(rightAndBottom, g.right + g.bottom) && |g.right| == nr
    ensures AllShaped(leftAndTop, g.left + g.top, ask, g.area, params)
    ensures AllShaped(rightAndBottom, g.right + g.bottom, ask, g.area, params)
    ensures Around(g, old(area.x), old(area.y), SideTotals(lt, rb))
  {
    ghost var l, t, r, b;
    l, t := PlaceSides(leftAndTop, area, params, lt, ask, Left, Top, nl);
    r, b := PlaceOpposite(rightAndBottom, area, params, rb, ask, nr);
    g := Geometry(AreaRect(area), l, t, r, b);
  }

  /** The counts of the left and top boxes among those of the left, right, top and bottom ones. */
  ghost function LeftTop(parts: seq<Part>, left: nat, right: nat, top: nat): seq<Part>
    requires left + right + top <= |parts|
  {
    parts[..left] + parts[left + right..left + right + top]
  }

  ghost function RightBottom(parts: seq<Part>, left: nat, right: nat, top: nat): seq<Part>
    requires left + right + top <= |parts|
  {
    parts[left..left + right] + parts[left + right + top..]
  }

  /** The counts of four groups of boxes. */
  lemma Quarters(left: seq<LayoutBox>, top: seq<LayoutBox>, right: seq<LayoutBox>, bottom: seq<LayoutBox>,
                 parts: seq<Part>, i: nat, j: nat, k: nat)
    requires |parts| == |left + right| + |top + bottom|
    requires i == |left| && j == |left| + |right| && k == |left| + |right| + |top|
    requires LedgerAt(left + right, parts, 0) && LedgerAt(top + bottom, parts, j)
    ensures parts == (parts[..i] + parts[i..j]) + (parts[j..k] + parts[k..])
    ensures Ledger(left, parts[..i]) && Ledger(right, parts[i..j])
    ensures Ledger(top, parts[j..k]) && Ledger(bottom, parts[k..])
  {
    LedgerSplit(left, right, parts, 0);
    LedgerSplit(top, bottom, parts, j);
    assert parts[0..i] == parts[..i] && parts[k..k + |bottom|] == parts[k..];
    assert parts[..i] + parts[i..j] == parts[..j] && parts[j..k] + parts[k..] == parts[j..];
  }

  lemma JoinSides(a: seq<LayoutBox>, p: seq<Part>, side: Side, b: seq<LayoutBox>, q: seq<Part>, side': Side)
    requires Ledger(a, p) && Ledger(b, q) && OnSide(a, side) && OnSide(b, side')
    ensures CountsOf(p, side) && CountsOf(q, side') && Ledger(a + b, p + q)
    ensures forall j :: 0 <= j < |p + q| ==> (p + q)[j].side == if j < |a| then side else side'
  {
  }

  /** The counts of four groups of boxes, regrouped by the order in which they are placed. */
  lemma Regroup(left: seq<LayoutBox>, top: seq<LayoutBox>, right: seq<LayoutBox>, bottom: seq<LayoutBox>,
                parts: seq<Part>)
    requires OnSide(left, Left) && OnSide(top, Top) && OnSide(right, Right) && OnSide(bottom, Bottom)
    requires |parts| == |left + right| + |top + bottom|
    requires LedgerAt(left + right, parts, 0) && LedgerAt(top + bottom, parts, |left + right|)
    ensures var lt := LeftTop(parts, |left|, |right|, |top|);
      && Ledger(left + top, lt) && Total(lt, Left) == Total(parts, Left) && Total(lt, Top) == Total(parts, Top)
      && forall j :: 0 <= j < |lt| ==> lt[j].side == if j < |left| then Left else Top
    ensures var rb := RightBottom(parts, |left|, |right|, |top|);
      && Ledger(right + bottom, rb)
      && Total(rb, Right) == Total(parts, Right) && Total(rb, Bottom) == Total(parts, Bottom)
      && forall j :: 0 <= j < |rb| ==> rb[j].side == if j < |right| then Right else Bottom
  {
    var i, j, k := |left|, |left| + |right|, |left| + |right| + |top|;
    var l, r, t, b := parts[..i], parts[i..j], parts[j..k], parts[k..];
    Quarters(left, top, right, bottom, parts, i, j, k);
    JoinSides(left, l, Left, top, t, Top);
    JoinSides(right, r, Right, bottom, b, Bottom);
    TotalsBySide(l, r, t, b);
  }

  lemma LedgerSplit(a: seq<LayoutBox>, b: seq<LayoutBox>, parts: seq<Part>, start: nat)
    requires LedgerAt(a + b, parts, start)
    ensures start + |a| + |b| <= |parts|
    ensures Ledger(a, parts[start..start + |a|]) && Ledger(b, parts[start + |a|..start + |a| + |b|])
  {
    forall m | 0 <= m < |a| ensures parts[start + m] == Part(a[m].side, a[m].size) {
      assert (a + b)[m] == a[m];
    }
    forall m | 0 <= m < |b| ensures parts[start + |a| + m] == Part(b[m].side, b[m].size) {
      assert (a + b)[|a| + m] == b[m];
    }
  }

  /** Groups by which the boxes are placed rather than fitted, ready for placing. */
  ghost predicate Ready(leftAndTop: seq<LayoutBox>, rightAndBottom: seq<LayoutBox>, lt: seq<Part>, rb: seq<Part>)
    reads Objects(leftAndTop), Objects(rightAndBottom)
  {
    && Separate(leftAndTop) && Separate(rightAndBottom) && Objects(leftAndTop) !! Objects(rightAndBottom)
    && Fitted(leftAndTop) && Fitted(rightAndBottom) && Ledger(leftAndTop, lt) && Ledger(rightAndBottom, rb)
  }

  ghost function Totals(parts: seq<Part>): Padding {
    Padding(Total(parts, Left), Total(parts, Top), Total(parts, Right), Total(parts, Bottom))
  }

  /** An edge of the chart area is at the user's padding and the boxes placed there, of the given total extent, or at
      the largest padding if that reaches further. */
  ghost predicate ReachOn(edge: real, own: real, total: real, boxes: seq<LayoutBox>, ask: Answers, side: Side) {
    exists widest :: LargestPadding(widest, own, boxes, ask, side) && edge == Max(own + total, widest)
  }

  ghost predicate Reach(edges: Padding, own: Padding, totals: Padding, boxes: seq<LayoutBox>, ask: Answers) {
    && ReachOn(edges.left, own.left, totals.left, boxes, ask, Left)
    && ReachOn(edges.top, own.top, totals.top, boxes, ask, Top)
    && ReachOn(edges.right, own.right, totals.right, boxes, ask, Right)
    && ReachOn(edges.bottom, own.bottom, totals.bottom, boxes, ask, Bottom)
  }

  lemma EdgesReach(edges: Padding, own: Padding, widest: Padding, totals: Padding, boxes: seq<LayoutBox>, ask: Answers)
    requires Largest(widest, own, boxes, ask)
    requires edges.left == own.left + totals.left && edges.top == own.top + totals.top
    requires edges.right == own.right + totals.right && edges.bottom == own.bottom + totals.bottom
    ensures Reach(Widen(edges, Some(widest)), own, totals, boxes, ask)
  {
    assert LargestPadding(widest.Of(Left), own.Of(Left), boxes, ask, Left);
    assert LargestPadding(widest.Of(Top), own.Of(Top), boxes, ask, Top);
    assert LargestPadding(widest.Of(Right), own.Of(Right), boxes, ask, Right);
    assert LargestPadding(widest.Of(Bottom), own.Of(Bottom), boxes, ask, Bottom);
  }

  lemma EdgesAtLeast(edges: Padding, own: Padding, totals: Padding, boxes: seq<LayoutBox>, ask: Answers)
    requires Reach(edges, own, totals, boxes, ask)
    ensures own.left + totals.left <= edges.left && own.top + totals.top <= edges.top
    ensures own.right + totals.right <= edges.right && own.bottom + totals.bottom <= edges.bottom
  {
  }

  /** Fits all boxes into a new area and makes room for paddings that stick out. */
  method FitCanvas(vertical: seq<LayoutBox>, horizontal: seq<LayoutBox>, params: Params, ask: Answers)
    returns (area: ChartArea, ghost parts: seq<Part>)
    requires Separate(vertical) && Separate(horizontal) && Objects(vertical) !! Objects(horizontal)
    requires forall b :: b in vertical + horizontal ==> b.size == 0.0
    modifies Objects(vertical) + Objects(horizontal)
    ensures fresh(area) && area !in Objects(vertical) + Objects(horizontal)
    ensures |parts| == |vertical| + |horizontal|
    ensures LedgerAt(vertical, parts, 0) && LedgerAt(horizontal, parts, |vertical|)
    ensures Fitted(vertical) && Fitted(horizontal)
    ensures AnsweredAt(vertical, parts, 0, ask) && AnsweredAt(horizontal, parts, |vertical|, ask)
    ensures area.x == area.left - Total(parts, Left) && area.y == area.top - Total(parts, Top)
    ensures Reach(area.Edges(), params.padding, Totals(parts), vertical + horizontal, ask)
    ensures area.left + area.w + area.right == params.outerWidth
    ensures area.top + area.h + area.bottom == params.outerHeight
  {
    ghost var zero := FreshLedger(vertical, horizontal);
    area := new ChartArea(params);
    assert area !in Objects(vertical) && area !in Objects(horizontal);
    parts := FitAll(vertical, horizontal, params, area, ask, zero);
    EdgesReach(area.Edges(), params.padding, area.maxPadding, Totals(parts), vertical + horizontal, ask);
    HandleMaxPadding(area, params);
  }

  lemma GetReady(left: seq<LayoutBox>, top: seq<LayoutBox>, right: seq<LayoutBox>, bottom: seq<LayoutBox>,
                 parts: seq<Part>)
    requires OnSide(left, Left) && OnSide(top, Top) && OnSide(right, Right) && OnSide(bottom, Bottom)
    requires Separate((left + right) + (top + bottom)) && Fitted(left + right) && Fitted(top + bottom)
    requires |parts| == |left + right| + |top + bottom|
    requires LedgerAt(left + right, parts, 0) && LedgerAt(top + bottom, parts, |left + right|)
    ensures Ready(left + top, right + bottom, LeftTop(parts, |left|, |right|, |top|),
                  RightBottom(parts, |left|, |right|, |top|))
    ensures Objects(left + top) + Objects(right + bottom) == Objects(left + right) + Objects(top + bottom)
  {
    SeparateGroups(left, right, top, bottom);
    Regroup(left, top, right, bottom, parts);
  }

  lemma SidesLaidOut(g: Geometry, params: Params, x: real, y: real, totals: Padding, edges: Padding)
    requires Around(g, x, y, totals)
    requires g.area.left == edges.left && g.area.right == params.outerWidth - edges.right
    requires g.area.top == edges.top && g.area.bottom == params.outerHeight - edges.bottom
    requires params.padding.left <= x == edges.left - totals.left && params.padding.top <= y == edges.top - totals.top
    requires params.padding.right + totals.right <= edges.right && params.padding.bottom + totals.bottom <= edges.bottom
    ensures LaidOut(g, params) && Extents(g) == totals
  {
    ColumnsWidth(g.left, x, g.area.left, g.area.top, g.area.bottom);
    ColumnsWidth(g.right, g.area.right, g.area.right + totals.right, g.area.top, g.area.bottom);
    RowsHeight(g.top, y, g.area.top);
    RowsHeight(g.bottom, g.area.bottom, g.area.bottom + totals.bottom);
  }

  ghost function Widths(r: seq<Rect>): real {
    if r == [] then 0.0 else r[0].right - r[0].left + Widths(r[1..])
  }

  ghost function Heights(r: seq<Rect>): real {
    if r == [] then 0.0 else r[0].bottom - r[0].top + Heights(r[1..])
  }

  /** The total extents of the boxes on the four sides. */
  ghost function Extents(g: Geometry): Padding {
    Padding(Widths(g.left), Heights(g.top), Widths(g.right), Heights(g.bottom))
  }

  lemma {:induction false} ColumnsWidth(r: seq<Rect>, from: real, to: real, top: real, bottom: real)
    requires Columns(r, from, to, top, bottom)
    ensures Widths(r) == to - from
  {
    if r != [] {
      ColumnsWidth(r[1..], r[0].right, to, top, bottom);
    }
  }

  lemma {:induction false} RowsHeight(r: seq<Rect>, from: real, to: real)
    requires Rows(r, from, to)
    ensures Heights(r) == to - from
  {
    if r != [] {
      RowsHeight(r[1..], r[0].bottom, to);
    }
  }

  lemma AnsweredSplit(left: seq<LayoutBox>, top: seq<LayoutBox>, right: seq<LayoutBox>, bottom: seq<LayoutBox>,
                      ask: Answers, parts: seq<Part>)
    requires |parts| == |left + right| + |top + bottom|
    requires AnsweredAt(left + right, parts, 0, ask) && AnsweredAt(top + bottom, parts, |left + right|, ask)
    ensures AnsweredAt(left + top, LeftTop(parts, |left|, |right|, |top|), 0, ask)
    ensures AnsweredAt(right + bottom, RightBottom(parts, |left|, |right|, |top|), 0, ask)
  {
    var lt, rb := LeftTop(parts, |left|, |right|, |top|), RightBottom(parts, |left|, |right|, |top|);
    forall j | 0 <= j < |left + top|
      ensures lt[j] == Part((left + top)[j].side, SizeOf((left + top)[j], ask))
    {
      if j < |left| {
        assert (left + right)[j] == left[j];
      } else {
        assert (top + bottom)[j - |left|] == top[j - |left|];
      }
    }
    forall j | 0 <= j < |right + bottom|
      ensures rb[j] == Part((right + bottom)[j].side, SizeOf((right + bottom)[j], ask))
    {
      if j < |right| {
        assert (left + right)[|left| + j] == right[j];
      } else {
        assert (top + bottom)[|top| + (j - |right|)] == bottom[j - |right|];
      }
    }
  }

  /** Places fitted boxes around the chart area; `totals` are the extents for which they are counted. */
  method PlaceReady(leftAndTop: seq<LayoutBox>, rightAndBottom: seq<LayoutBox>, area: ChartArea, params: Params,
                    ghost ask: Answers, ghost nl: nat, ghost nr: nat, ghost lt: seq<Part>, ghost rb: seq<Part>,
                    ghost totals: Padding)
    returns (ghost g: Geometry)
    requires Ready(leftAndTop, rightAndBottom, lt, rb)
    requires AnsweredAt(leftAndTop, lt, 0, ask) && AnsweredAt(rightAndBottom, rb, 0, ask)
    requires nl <= |lt| && forall j :: 0 <= j < |lt| ==> lt[j].side == if j < nl then Left else Top
    requires nr <= |rb| && forall j :: 0 <= j < |rb| ==> rb[j].side == if j < nr then Right else Bottom
    requires totals == SideTotals(lt, rb)
    requires area.x == area.left - totals.left >= params.padding.left
    requires area.y == area.top - totals.top >= params.padding.top
    requires params.padding.right + totals.right <= area.right && params.padding.bottom + totals.bottom <= area.bottom
    requires area.left + area.w + area.right == params.outerWidth
    requires area.top + area.h + area.bottom == params.outerHeight
    modifies area`x, area`y, Objects(leftAndTop), Objects(rightAndBottom)
    ensures g.area == AreaRect(area) == old(AreaRect(area)) && area.Edges() == old(area.Edges())
    ensures LaidOut(g, params) && Extents(g) == totals
    ensures PlacedAt(leftAndTop, g.left + g.top) && |g.left| == nl
    ensures PlacedAt(rightAndBottom, g.right + g.bottom) && |g.right| == nr
    ensures AllShaped(leftAndTop, g.left + g.top, ask, g.area, params)
    ensures AllShaped(rightAndBottom, g.right + g.bottom, ask, g.area, params)
  {
    ghost var x, y, edges := area.x, area.y, area.Edges();
    g := PlaceAll(leftAndTop, rightAndBottom, area, params, ask, nl, nr, lt, rb);
    SidesLaidOut(g, params, x, y, totals, edges);
  }

  /** Fits and places all boxes. The chart area and the two sides next to it fill the canvas in both directions, the
      boxes have the sizes that they answered and fill the sides, and each edge of the area is where these or the
      paddings ask for it. */
  method Update(left: seq<LayoutBox>, top: seq<LayoutBox>, right: seq<LayoutBox>, bottom: seq<LayoutBox>,
                params: Params, ask: Answers)
    returns (area: ChartArea, ghost g: Geometry)
    requires Separate((left + right) + (top + bottom))
    requires OnSide(left, Left) && OnSide(top, Top) && OnSide(right, Right) && OnSide(bottom, Bottom)
    requires forall b :: b in (left + right) + (top + bottom) ==> b.size == 0.0
    modifies Objects(left + right) + Objects(top + bottom)
    ensures fresh(area) && g.area == AreaRect(area) && LaidOut(g, params)
    ensures PlacedAt(left + top, g.left + g.top) && |g.left| == |left|
    ensures PlacedAt(right + bottom, g.right + g.bottom) && |g.right| == |right|
    ensures AllShaped(left + top, g.left + g.top, ask, g.area, params)
    ensures AllShaped(right + bottom, g.right + g.bottom, ask, g.area, params)
    ensures Reach(area.Edges(), params.padding, Extents(g), (left + right) + (top + bottom), ask)
    ensures area.left + area.w + area.right == params.outerWidth
    ensures area.top + area.h + area.bottom == params.outerHeight
  {
    SeparateParts(left + right, top + bottom);
    ghost var parts;
    area, parts := FitCanvas(left + right, top + bottom, params, ask);
    EdgesAtLeast(area.Edges(), params.padding, Totals(parts), (left + right) + (top + bottom), ask);
    GetReady(left, top, right, bottom, parts);
    Regroup(left, top, right, bottom, parts);
    AnsweredSplit(left, top, right, bottom, ask, parts);
    g := PlaceReady(left + top, right + bottom, area, params, ask, |left|, |right|,
                    LeftTop(parts, |left|, |right|, |top|), RightBottom(parts, |left|, |right|, |top|), Totals(parts));
  }

  lemma ObjectsAppend(a: seq<LayoutBox>, b: seq<LayoutBox>)
    ensures Objects(a + b) == Objects(a) + Objects(b)
  {
    assert forall i :: 0 <= i < |a| ==> (a + b)[i] == a[i];
    assert forall i :: 0 <= i < |b| ==> (a + b)[|a| + i] == b[i];
  }

  lemma SeparateJoin(a: seq<LayoutBox>, b: seq<LayoutBox>)
    requires Separate(a) && Separate(b) && Objects(a) !! Objects(b)
    ensures Separate(a + b)
    ensures Fitted(a + b) <==> Fitted(a) && Fitted(b)
  {
    assert forall i :: 0 <= i < |a| ==> (a + b)[i] == a[i];
    assert forall i :: 0 <= i < |b| ==> (a + b)[|a| + i] == b[i];
  }

  lemma SeparateGroups(left: seq<LayoutBox>, right: seq<LayoutBox>, top: seq<LayoutBox>, bottom: seq<LayoutBox>)
    requires Separate((left + right) + (top + bottom)) && Fitted(left + right) && Fitted(top + bottom)
    ensures Separate(left + top) && Separate(right + bottom) && Objects(left + top) !! Objects(right + bottom)
    ensures Objects(left + top) + Objects(right + bottom) == Objects(left + right) + Objects(top + bottom)
    ensures Fitted(left + top) && Fitted(right + bottom)
  {
    SeparateParts(left + right, top + bottom);
    SeparateParts(left, right);
    SeparateParts(top, bottom);
    ObjectsAppend(left, right);
    ObjectsAppend(top, bottom);
    ObjectsAppend(left, top);
    ObjectsAppend(right, bottom);
    SeparateJoin(left, right);
    SeparateJoin(top, bottom);
    SeparateJoin(left, top);
    SeparateJoin(right, bottom);
  }
}
