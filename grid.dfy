/**
 * The mutable grid of src/toggle/core.rs. A `Grid` owns its buttons in
 * row-major order (the button of `(x, y)` is at `y * width + x`); every
 * operation after construction changes only the lights, and each is proved
 * to leave the lights as the matching rule of module `Rules` says.
 */
module Grids {
  import opened BitArrays
  import opened Buttons
  import opened Rules
  import RuleProperties

  datatype Option<T> = None | Some(value: T)

  /** The rule of the button at an in-range cell. */
  function FuncAt(f: seq<ButtonFunction>, w: nat, h: nat, x: int, y: int): ButtonFunction
    requires |f| == w * h && InRange(w, h, x, y)
  {
    IndexInRange(w, h, x, y);
    f[Index(w, x, y)]
  }

  /** The bytes of an `n`-bit array hold every bit below `n`. */
  lemma CoveredByBytes(n: nat, j: nat)
    requires j < n
    ensures j / 8 < ByteCount(n)
  {
  }

  /** The first `i` bits of `v` are those of `bits`, and the rest are clear. */
  ghost predicate StoredBelow(v: Bits, bits: seq<bool>, i: nat)
  {
    forall j: nat :: j / 8 < |v.bytes| ==> BitAt(v, j) == (j < i && j < |bits| && bits[j])
  }

  /** A ray that starts in the grid, or past an edge it is moving away from,
      never enters the grid again once it has left it. */
  predicate RayEntry(w: nat, h: nat, sx: int, sy: int, dx: int, dy: int)
  {
    (dx > 0 ==> sx >= 0) && (dx < 0 ==> sx < w) && (dy > 0 ==> sy >= 0) && (dy < 0 ==> sy < h)
  }

  /** The loop of toggle_follow_direction stops for good: once the walk is
      outside the grid, no cell further along the ray is inside it. */
  lemma RayLeaves(w: nat, h: nat, sx: int, sy: int, dx: int, dy: int, cx: int, cy: int)
    requires RayEntry(w, h, sx, sy, dx, dy) && !InRange(w, h, sx, sy)
    requires OnRay(sx, sy, dx, dy, cx, cy)
    ensures !InRange(w, h, cx, cy)
  {
  }

  /** The lights once toggle_follow_direction has walked from `(sx, sy)`
      to `(x2, y2)`: the cells of the ray before `(x2, y2)` are toggled. */
  ghost predicate RayToggled(l: seq<bool>, l0: seq<bool>, w: nat, h: nat,
                             sx: int, sy: int, dx: int, dy: int, x2: int, y2: int)
    requires |l| == |l0| == w * h
  {
    forall i :: 0 <= i < |l| ==>
      l[i] == (l0[i] != (OnRay(sx, sy, dx, dy, Col(w, h, i), Row(w, h, i)) &&
                         !OnRay(x2, y2, dx, dy, Col(w, h, i), Row(w, h, i))))
  }

  /** Toggling `(x2, y2)` moves the walk one step along the ray. */
  lemma RayWalkStep(l: seq<bool>, l0: seq<bool>, l': seq<bool>, w: nat, h: nat,
                    sx: int, sy: int, dx: int, dy: int, x2: int, y2: int, x3: int, y3: int)
    requires |l| == |l0| == |l'| == w * h && UnitStep(dx, dy) && x3 == x2 + dx && y3 == y2 + dy
    requires RayToggled(l, l0, w, h, sx, sy, dx, dy, x2, y2) && OnRay(sx, sy, dx, dy, x2, y2)
    requires forall i :: 0 <= i < |l| ==> l'[i] == (l[i] != (Col(w, h, i) == x2 && Row(w, h, i) == y2))
    ensures RayToggled(l', l0, w, h, sx, sy, dx, dy, x3, y3)
  {
    forall i | 0 <= i < |l|
      ensures OnRay(x2, y2, dx, dy, Col(w, h, i), Row(w, h, i)) <==>
        ((Col(w, h, i) == x2 && Row(w, h, i) == y2) || OnRay(x2 + dx, y2 + dy, dx, dy, Col(w, h, i), Row(w, h, i)))
    {
      RayStep(x2, y2, dx, dy, Col(w, h, i), Row(w, h, i));
    }
  }

  /** A walk that has left the grid has toggled the whole ray. */
  lemma RayWalkDone(l: seq<bool>, l0: seq<bool>, w: nat, h: nat,
                    sx: int, sy: int, dx: int, dy: int, x2: int, y2: int)
    requires |l| == |l0| == w * h && RayToggled(l, l0, w, h, sx, sy, dx, dy, x2, y2)
    requires RayEntry(w, h, x2, y2, dx, dy) && !InRange(w, h, x2, y2)
    ensures forall i :: 0 <= i < |l| ==> l[i] == (l0[i] != OnRay(sx, sy, dx, dy, Col(w, h, i), Row(w, h, i)))
  {
    forall i | 0 <= i < |l|
      ensures !OnRay(x2, y2, dx, dy, Col(w, h, i), Row(w, h, i))
    {
      if OnRay(x2, y2, dx, dy, Col(w, h, i), Row(w, h, i)) {
        RayLeaves(w, h, x2, y2, dx, dy, Col(w, h, i), Row(w, h, i));
      }
    }
  }

  /** The offset at place `i` of `Directions` is the only one indexed `i`. */
  lemma DirectionIndexIs(i: int, dx: int, dy: int)
    requires 0 <= i < 8
    ensures DirectionIndex(dx, dy) == i <==> Directions[i] == (dx, dy)
  {
    RuleProperties.DirectionIndexOf(i);
  }

  /** solve_twoarrow toggles the centre, then the ray on one side, then the
      ray on the other: together the cells of the TwoArrow rule. */
  lemma TwoArrowParts(l0: seq<bool>, l1: seq<bool>, l2: seq<bool>, l3: seq<bool>,
                      w: nat, h: nat, axis: TwoArrow, x: int, y: int)
    requires |l0| == |l1| == |l2| == |l3| == w * h
    requires var dx, dy := TwoArrowStep(axis).0, TwoArrowStep(axis).1;
      (forall i :: 0 <= i < |l1| ==> l1[i] == (l0[i] != (Col(w, h, i) == x && Row(w, h, i) == y))) &&
      (forall i :: 0 <= i < |l2| ==> l2[i] == (l1[i] != OnRay(x + dx, y + dy, dx, dy, Col(w, h, i), Row(w, h, i)))) &&
      (forall i :: 0 <= i < |l3| ==> l3[i] == (l2[i] != OnRay(x - dx, y - dy, -dx, -dy, Col(w, h, i), Row(w, h, i))))
    ensures l3 == FlipRule(l0, w, h, TwoArrow(axis), x, y)
  {
    forall i | 0 <= i < |l3|
      ensures l3[i] == FlipRule(l0, w, h, TwoArrow(axis), x, y)[i]
    {
      RuleProperties.TwoArrowPartsDisjoint(axis, x, y, Col(w, h, i), Row(w, h, i));
    }
  }

  /** The lights once solve_aroundeight has toggled the centre and the
      in-range neighbours at the first `i` places of `Directions`. */
  ghost predicate EightToggled(l: seq<bool>, l0: seq<bool>, w: nat, h: nat, x: int, y: int, i: int)
    requires |l| == |l0| == w * h
  {
    forall j :: 0 <= j < |l| ==>
      l[j] == (l0[j] != ((Col(w, h, j) == x && Row(w, h, j) == y) ||
                         DirectionIndex(Col(w, h, j) - x, Row(w, h, j) - y) < i))
  }

  /** Toggling the neighbour at place `i` of `Directions`, when it is in
      the grid, extends `EightToggled` by one place. */
  lemma EightStep(l: seq<bool>, l0: seq<bool>, l': seq<bool>, w: nat, h: nat, x: int, y: int, i: int)
    requires |l| == |l0| == |l'| == w * h && 0 <= i < 8 && EightToggled(l, l0, w, h, x, y, i)
    requires forall j :: 0 <= j < |l| ==>
      l'[j] == (l[j] != (InRange(w, h, x + Directions[i].0, y + Directions[i].1) &&
                         Col(w, h, j) == x + Directions[i].0 && Row(w, h, j) == y + Directions[i].1))
    ensures EightToggled(l', l0, w, h, x, y, i + 1)
  {
    forall j | 0 <= j < |l|
      ensures l'[j] == (l0[j] != ((Col(w, h, j) == x && Row(w, h, j) == y) ||
                                  DirectionIndex(Col(w, h, j) - x, Row(w, h, j) - y) < i + 1))
    {
      DirectionIndexIs(i, Col(w, h, j) - x, Row(w, h, j) - y);
    }
  }

  /** Toggling the centre alone is `EightToggled` at place 0. */
  lemma EightStart(l: seq<bool>, l0: seq<bool>, w: nat, h: nat, x: int, y: int)
    requires |l| == |l0| == w * h
    requires forall j :: 0 <= j < |l| ==> l[j] == (l0[j] != (Col(w, h, j) == x && Row(w, h, j) == y))
    ensures EightToggled(l, l0, w, h, x, y, 0)
  {
  }

  /** Once all eight places are done, the lights are those of the
      AroundEight rule. */
  lemma EightDone(l: seq<bool>, l0: seq<bool>, w: nat, h: nat, x: int, y: int)
    requires |l| == |l0| == w * h && EightToggled(l, l0, w, h, x, y, 8)
    ensures l == FlipRule(l0, w, h, AroundEight, x, y)
  {
    var r := FlipRule(l0, w, h, AroundEight, x, y);
    forall j | 0 <= j < |l|
      ensures l[j] == r[j]
    {
      var dx, dy := Col(w, h, j) - x, Row(w, h, j) - y;
      if -1 <= dx <= 1 && -1 <= dy <= 1 && (dx, dy) != (0, 0) {
        assert DirectionIndex(dx, dy) < 8;
      }
    }
  }

  /** The lights once solve_rotate has toggled the centre and written back
      the neighbours at the first `i` places of `Directions`. */
  function RotatedUpTo(l: seq<bool>, w: nat, h: nat, x: int, y: int, ns: seq<bool>, i: nat): (r: seq<bool>)
    requires |l| == w * h && |ns| == 8 && i <= 8
    ensures |r| == |l|
  {
    seq(|l|, j requires 0 <= j < |l| =>
      var cx, cy := Col(w, h, j), Row(w, h, j);
      var k := DirectionIndex(cx - x, cy - y);
      if cx == x && cy == y then !l[j] else if k < i then ns[k] else l[j])
  }

  /** Writing back the neighbour at place `i` (when it exists) extends the
      written prefix by one place. */
  lemma RotatedStep(l: seq<bool>, w: nat, h: nat, x: int, y: int, ns: seq<bool>, i: nat,
                    current: seq<bool>, next: seq<bool>)
    requires |l| == w * h && |ns| == 8 && i < 8
    requires current == RotatedUpTo(l, w, h, x, y, ns, i) && |next| == |current|
    requires forall j :: 0 <= j < |next| ==>
      next[j] == if Col(w, h, j) == x + Directions[i].0 && Row(w, h, j) == y + Directions[i].1
                 then ns[i] else current[j]
    ensures next == RotatedUpTo(l, w, h, x, y, ns, i + 1)
  {
    forall j | 0 <= j < |next|
      ensures next[j] == RotatedUpTo(l, w, h, x, y, ns, i + 1)[j]
    {
      DirectionIndexIs(i, Col(w, h, j) - x, Row(w, h, j) - y);
    }
  }

  /** Toggling the centre does not change what its neighbours read. */
  lemma NeighboursIgnoreCentre(l: seq<bool>, current: seq<bool>, w: nat, h: nat, x: int, y: int)
    requires |l| == w * h && |current| == |l|
    requires forall j :: 0 <= j < |current| ==>
      current[j] == (l[j] != (Col(w, h, j) == x && Row(w, h, j) == y))
    ensures NeighbourStates(current, w, h, x, y) == NeighbourStates(l, w, h, x, y)
  {
    forall k | 0 <= k < 8
      ensures NeighbourStates(current, w, h, x, y)[k] == NeighbourStates(l, w, h, x, y)[k]
    {
      var nx, ny := x + Directions[k].0, y + Directions[k].1;
      if InRange(w, h, nx, ny) {
        CellIndex(w, h, nx, ny);
      }
    }
  }

  /** Before any write-back only the centre differs. */
  lemma RotatedNone(l: seq<bool>, w: nat, h: nat, x: int, y: int, ns: seq<bool>, current: seq<bool>)
    requires |l| == w * h && |ns| == 8 && |current| == |l|
    requires forall j :: 0 <= j < |current| ==>
      current[j] == (l[j] != (Col(w, h, j) == x && Row(w, h, j) == y))
    ensures current == RotatedUpTo(l, w, h, x, y, ns, 0)
  {
  }

  /** The lights once solve_symmetry has toggled the centre and handled the
      first `k` rows (horizontal) or columns (vertical). */
  function MirroredUpTo(l: seq<bool>, w: nat, h: nat, x: int, y: int, horizontal: bool, k: int): (r: seq<bool>)
    requires |l| == w * h && InRange(w, h, x, y)
    ensures |r| == |l|
  {
    var target := SymmetryRule(l, w, h, x, y, horizontal);
    seq(|l|, j requires 0 <= j < |l| =>
      var cx, cy := Col(w, h, j), Row(w, h, j);
      if (if horizontal then cy < k else cx < k) || (cx == x && cy == y) then target[j] else l[j])
  }

  lemma MirroredNone(l: seq<bool>, w: nat, h: nat, x: int, y: int, horizontal: bool, current: seq<bool>)
    requires |l| == w * h && InRange(w, h, x, y) && |current| == |l|
    requires forall j :: 0 <= j < |current| ==>
      current[j] == (l[j] != (Col(w, h, j) == x && Row(w, h, j) == y))
    ensures current == MirroredUpTo(l, w, h, x, y, horizontal, 0)
  {
  }

  lemma MirroredAll(l: seq<bool>, w: nat, h: nat, x: int, y: int, horizontal: bool)
    requires |l| == w * h && InRange(w, h, x, y)
    ensures MirroredUpTo(l, w, h, x, y, horizontal, if horizontal then h else w) == SymmetryRule(l, w, h, x, y, horizontal)
  {
  }

  /** Handling row `k` as the loop body of a horizontal solve_symmetry does
      extends the handled part by one row. */
  lemma MirrorColumnsStep(l: seq<bool>, w: nat, h: nat, x: int, y: int, k: int,
                          current: seq<bool>, next: seq<bool>)
    requires |l| == w * h && InRange(w, h, x, y) && 0 <= k < h
    requires current == MirroredUpTo(l, w, h, x, y, true, k) && |next| == |current|
    requires forall j :: 0 <= j < |next| ==>
      var cx, cy := Col(w, h, j), Row(w, h, j);
      next[j] ==
        if InRange(w, h, x - 1, y) && (cx, cy) == (x - 1, k) then InRange(w, h, x + 1, y) && LightAt(current, w, h, x + 1, k)
        else if InRange(w, h, x + 1, y) && (cx, cy) == (x + 1, k) then InRange(w, h, x - 1, y) && LightAt(current, w, h, x - 1, k)
        else current[j]
    ensures next == MirroredUpTo(l, w, h, x, y, true, k + 1)
  {
    var target := SymmetryRule(l, w, h, x, y, true);
    forall j | 0 <= j < |next|
      ensures next[j] == MirroredUpTo(l, w, h, x, y, true, k + 1)[j]
    {
      var cx, cy := Col(w, h, j), Row(w, h, j);
      if cy == k && cx == x - 1 && InRange(w, h, x + 1, y) {
        CellIndex(w, h, x + 1, k);
      } else if cy == k && cx == x + 1 && InRange(w, h, x - 1, y) {
        CellIndex(w, h, x - 1, k);
      }
    }
  }

  /** Handling column `k` as the loop body of a vertical solve_symmetry does
      extends the handled part by one column. */
  lemma MirrorRowsStep(l: seq<bool>, w: nat, h: nat, x: int, y: int, k: int,
                       current: seq<bool>, next: seq<bool>)
    requires |l| == w * h && InRange(w, h, x, y) && 0 <= k < w
    requires current == MirroredUpTo(l, w, h, x, y, false, k) && |next| == |current|
    requires forall j :: 0 <= j < |next| ==>
      var cx, cy := Col(w, h, j), Row(w, h, j);
      next[j] ==
        if InRange(w, h, x, y + 1) && (cx, cy) == (k, y + 1) then InRange(w, h, x, y - 1) && LightAt(current, w, h, k, y - 1)
        else if InRange(w, h, x, y - 1) && (cx, cy) == (k, y - 1) then InRange(w, h, x, y + 1) && LightAt(current, w, h, k, y + 1)
        else current[j]
    ensures next == MirroredUpTo(l, w, h, x, y, false, k + 1)
  {
    var target := SymmetryRule(l, w, h, x, y, false);
    forall j | 0 <= j < |next|
      ensures next[j] == MirroredUpTo(l, w, h, x, y, false, k + 1)[j]
    {
      var cx, cy := Col(w, h, j), Row(w, h, j);
      if cx == k && cy == y + 1 && InRange(w, h, x, y - 1) {
        CellIndex(w, h, k, y - 1);
      } else if cx == k && cy == y - 1 && InRange(w, h, x, y + 1) {
        CellIndex(w, h, k, y + 1);
      }
    }
  }

  /** The middle block of solve_rotate: `dst` receives `src` rotated one
      place, clockwise (towards higher places) or counter-clockwise. */
  method RotateBuffer(src: array<bool>, dst: array<bool>, clockwise: bool)
    requires src.Length == 8 && dst.Length == 8 && src != dst
    modifies dst
    ensures src[..] == old(src[..])
    ensures dst[..] == Rotated(src[..], clockwise)
  {
    if clockwise {
      dst[0] := src[7];
      for i := 1 to 8
        invariant dst[0] == src[7]
        invariant forall k :: 1 <= k < i ==> dst[k] == src[k - 1]
      {
        dst[i] := src[i - 1];
      }
    } else {
      dst[7] := src[0];
      for i := 0 to 7
        invariant dst[7] == src[0]
        invariant forall k :: 0 <= k < i ==> dst[k] == src[k + 1]
      {
        dst[i] := src[i + 1];
      }
    }
  }

  /** The middle block of solve_shift: the first `w` places of `dst` receive
      the first `w` places of `src` shifted one place (see `ShiftedRow`).
      `dst` starts cleared, which is what leaves place 0 off on a leftward
      shift of a row of at least two cells (a one-cell row keeps its cell). */
  method ShiftBuffer(src: array<bool>, dst: array<bool>, w: int, right: bool)
    requires 1 <= w <= src.Length && w <= dst.Length && src != dst
    requires forall k :: 0 <= k < dst.Length ==> !dst[k]
    modifies dst
    ensures dst[..w] == ShiftedRow(src[..w], right)
  {
    if right {
      dst[0] := src[w - 1];
      for i := 1 to w
        invariant dst[0] == src[w - 1]
        invariant forall k :: 1 <= k < i ==> dst[k] == src[k - 1]
      {
        dst[i] := src[i - 1];
      }
    } else {
      dst[w - 1] := src[0];
      var i := 1;
      while i < w - 1
        invariant 1 <= i && (w >= 2 ==> i <= w - 1)
        invariant forall k :: 0 <= k < w ==>
          dst[k] == if k == w - 1 then src[0] else if 1 <= k < i then src[k + 1] else false
      {
        dst[i] := src[i + 1];
        i := i + 1;
      }
    }
  }

  /** With all eight places written back, the lights are those of `RotateRule`. */
  lemma RotatedAll(l: seq<bool>, w: nat, h: nat, x: int, y: int, clockwise: bool)
    requires |l| == w * h
    ensures RotatedUpTo(l, w, h, x, y, Rotated(NeighbourStates(l, w, h, x, y), clockwise), 8)
         == RotateRule(l, w, h, x, y, clockwise)
  {
  }

  lemma StepsAreUnit(d: OneArrow, a: TwoArrow)
    ensures UnitStep(OneArrowStep(d).0, OneArrowStep(d).1)
    ensures UnitStep(TwoArrowStep(a).0, TwoArrowStep(a).1)
  {
  }

  class Grid {
    var buttons: seq<Button>
    var width: int
    var height: int

    /** Every cell has one button, and the button at position `i` carries
        the coordinate of the cell stored at `i`. */
    predicate Valid()
      reads this
    {
      0 <= width && 0 <= height && |buttons| == width * height &&
      forall i :: 0 <= i < |buttons| ==>
        buttons[i].coord == Coordinate(Col(width, height, i), Row(width, height, i))
    }

    /** The on/off state of every button, in button order. */
    function Lights(): (l: seq<bool>)
      reads this
      ensures |l| == |buttons|
    {
      seq(|buttons|, i requires 0 <= i < |buttons| reads this => buttons[i].isOn)
    }

    /** The rule of every button, in button order. */
    function Funcs(): (f: seq<ButtonFunction>)
      reads this
      ensures |f| == |buttons|
    {
      seq(|buttons|, i requires 0 <= i < |buttons| reads this => buttons[i].func)
    }

    /** Grid::new: a `w` by `h` grid of buttons that are off and inert. */
    constructor New(w: int, h: int)
      requires 0 <= w && 0 <= h
      ensures Valid() && width == w && height == h
      ensures forall i :: 0 <= i < |buttons| ==> !buttons[i].isOn && buttons[i].func == Nothing
    {
      width, height := w, h;
      buttons := [];
      new;
      for y := 0 to h
        invariant width == w && height == h
        invariant |buttons| == y * w
        invariant forall i :: 0 <= i < |buttons| ==> buttons[i] == NewButton(i % w, i / w)
      {
        for x := 0 to w
          invariant width == w && height == h
          invariant |buttons| == y * w + x
          invariant forall i :: 0 <= i < |buttons| ==> buttons[i] == NewButton(i % w, i / w)
        {
          IndexCell(w, x, y);
          buttons := buttons + [NewButton(x, y)];
        }
      }
      forall i | 0 <= i < |buttons|
        ensures buttons[i].coord == Coordinate(Col(width, height, i), Row(width, height, i))
      {
      }
    }

    /** Grid::at: the button stored at `y * width + x`, if that position exists. */
    function At(x: int, y: int): (r: Option<Button>)
      reads this
      ensures r.Some? <==> 0 <= y * width + x < |buttons|
      ensures r.Some? ==> r.value in buttons
    {
      var i := y * width + x;
      if 0 <= i < |buttons| then Some(buttons[i]) else None
    }

    /** At an in-range cell, Grid::at finds the button of that cell. */
    lemma AtCell(x: int, y: int)
      requires Valid() && InRange(width, height, x, y)
      ensures At(x, y).Some? && At(x, y).value.coord == Coordinate(x, y)
      ensures At(x, y).value.isOn == LightAt(Lights(), width, height, x, y)
      ensures At(x, y).value.func == FuncAt(Funcs(), width, height, x, y)
    {
      CellIndex(width, height, x, y);
    }

    /** Grid::check_range: a cell is in range exactly when Grid::at finds
        the button of that very cell. */
    function CheckRange(x: int, y: int): (r: bool)
      reads this
      ensures Valid() ==> (r <==> At(x, y).Some? && At(x, y).value.coord == Coordinate(x, y))
    {
      CheckRangeMeansAt(x, y);
      0 <= x < width && 0 <= y < height
    }

    lemma CheckRangeMeansAt(x: int, y: int)
      ensures Valid() ==>
        (InRange(width, height, x, y) <==> At(x, y).Some? && At(x, y).value.coord == Coordinate(x, y))
    {
      if Valid() {
        if InRange(width, height, x, y) {
          AtCell(x, y);
        } else if At(x, y).Some? {
          var i := y * width + x;
          assert buttons[i].coord == Coordinate(Col(width, height, i), Row(width, height, i));
        }
      }
    }

    /** Writes `is_on` of the button of `(x, y)`; nothing else changes. */
    method SetLight(x: int, y: int, on: bool)
      requires Valid() && InRange(width, height, x, y)
      modifies this
      ensures Valid() && width == old(width) && height == old(height) && Funcs() == old(Funcs())
      ensures |Lights()| == |old(Lights())|
      ensures forall i :: 0 <= i < |Lights()| ==>
        Lights()[i] == if Col(width, height, i) == x && Row(width, height, i) == y then on else old(Lights())[i]
    {
      CellIndex(width, height, x, y);
      var i := Index(width, x, y);
      buttons := buttons[i := buttons[i].(isOn := on)];
    }

    /** Button::toggle on the button of `(x, y)`; nothing else changes. */
    method Toggle(x: int, y: int)
      requires Valid() && InRange(width, height, x, y)
      modifies this
      ensures Valid() && width == old(width) && height == old(height) && Funcs() == old(Funcs())
      ensures |Lights()| == |old(Lights())|
      ensures forall i :: 0 <= i < |Lights()| ==>
        Lights()[i] == (old(Lights())[i] != (Col(width, height, i) == x && Row(width, height, i) == y))
    {
      CellIndex(width, height, x, y);
      var i := Index(width, x, y);
      buttons := buttons[i := buttons[i].Toggled()];
    }

    /** Grid::get_states: a fresh bit array whose bit `x * height + y` is the
        light of `(x, y)`, with clear padding bits. */
    method GetStates() returns (result: BitArray)
      requires Valid()
      ensures fresh(result)
      ensures result.Value() == Snapshot(Lights(), width, height)
    {
      var n := width * height;
      result := new BitArray(n);
      ghost var bits := StatesOf(Lights(), width, height);
      for x := 0 to width
        invariant result.len == n && |result.bytes| == ByteCount(n)
        invariant StoredBelow(result.Value(), bits, x * height)
      {
        StoreColumn(result, x, bits);
        assert x * height + height == (x + 1) * height;
      }
      PackedAs(result.Value(), bits);
    }

    /** The inner loop of get_states: the lights of column `x` go to bits
        `x * height` up to `(x + 1) * height`. */
    method StoreColumn(result: BitArray, x: int, ghost bits: seq<bool>)
      requires Valid() && 0 <= x < width && bits == StatesOf(Lights(), width, height)
      requires result.len == width * height && |result.bytes| == ByteCount(width * height)
      requires StoredBelow(result.Value(), bits, x * height)
      modifies result
      ensures result.len == old(result.len) && |result.bytes| == old(|result.bytes|)
      ensures StoredBelow(result.Value(), bits, x * height + height)
    {
      for y := 0 to height
        invariant result.len == width * height && |result.bytes| == ByteCount(width * height)
        invariant StoredBelow(result.Value(), bits, x * height + y)
      {
        StoreLight(result, x, y, bits);
      }
    }

    /** One turn of get_states: bit `x * height + y` of `result` becomes
        the light of `(x, y)`. */
    method StoreLight(result: BitArray, x: int, y: int, ghost bits: seq<bool>)
      requires Valid() && InRange(width, height, x, y) && bits == StatesOf(Lights(), width, height)
      requires result.len == width * height && |result.bytes| == ByteCount(width * height)
      requires StoredBelow(result.Value(), bits, x * height + y)
      modifies result
      ensures result.len == old(result.len) && |result.bytes| == old(|result.bytes|)
      ensures StoredBelow(result.Value(), bits, x * height + y + 1)
    {
      var i := x * height + y;
      CellIndex(height, width, y, x);
      CoveredByBytes(width * height, i);
      var btn := At(x, y);
      AtCell(x, y);
      result.Set(i, btn.value.isOn);
    }

    /** Grid::set_states: the light of `(x, y)` becomes bit `x * height + y`
        of `b`; the rules of the buttons stay. */
    method SetStates(b: Bits)
      requires Valid() && width * height <= 8 * |b.bytes|
      modifies this
      ensures Valid() && width == old(width) && height == old(height) && Funcs() == old(Funcs())
      ensures Lights() == LightsOf(b, width, height)
    {
      ghost var target := LightsOf(b, width, height);
      var i := 0;
      for x := 0 to width
        invariant Valid() && width == old(width) && height == old(height) && Funcs() == old(Funcs())
        invariant i == x * height
        invariant forall j :: 0 <= j < |Lights()| ==>
          Lights()[j] == if Col(width, height, j) < x then target[j] else old(Lights())[j]
      {
        for y := 0 to height
          invariant Valid() && width == old(width) && height == old(height) && Funcs() == old(Funcs())
          invariant i == x * height + y
          invariant forall j :: 0 <= j < |Lights()| ==>
            Lights()[j] == if Col(width, height, j) < x || (Col(width, height, j) == x && Row(width, height, j) < y)
                           then target[j] else old(Lights())[j]
        {
          CellIndex(width, height, x, y);
          IndexInRange(height, width, y, x);
          SetLight(x, y, BitAt(b, i));
          i := i + 1;
        }
        assert x * height + height == (x + 1) * height;
      }
    }

    /** Grid::click_button (Grid::click forwards to it): applies the rule of
        the clicked button; the lights end as `Rules.Click` says and the
        layout stays. */
    method Click(x: int, y: int)
      requires Valid() && InRange(width, height, x, y)
      requires FuncAt(Funcs(), width, height, x, y).Shift? ==> width <= 16
      modifies this
      ensures Valid() && width == old(width) && height == old(height) && Funcs() == old(Funcs())
      ensures Lights() == Rules.Click(old(Lights()), width, height, FuncAt(Funcs(), width, height, x, y), x, y)
    {
      var btn := At(x, y);
      AtCell(x, y);
      match btn.value.func
      case Nothing =>
      case OneArrow(dir) => SolveOneArrow(x, y, dir);
      case TwoArrow(axis) => SolveTwoArrow(x, y, axis);
      case FourArrow => SolveFourArrow(x, y);
      case Rotate(clockwise) => SolveRotate(x, y, clockwise);
      case Shift(right) => SolveShift(y, right);
      case Symmetry(horizontal) => SolveSymmetry(x, y, horizontal);
      case AroundEight => SolveAroundEight(x, y);
    }

    /** solve_onearrow: toggle the clicked cell and every cell after it in
        the arrow's direction. */
    method SolveOneArrow(x: int, y: int, dir: OneArrow)
      requires Valid() && InRange(width, height, x, y)
      modifies this
      ensures Valid() && width == old(width) && height == old(height) && Funcs() == old(Funcs())
      ensures Lights() == FlipRule(old(Lights()), width, height, OneArrow(dir), x, y)
    {
      var step := OneArrowStep(dir);
      StepsAreUnit(dir, BothHorizontal);
      ToggleFollowDirection(x, y, step.0, step.1);
    }

    /** solve_twoarrow: toggle the clicked cell and every cell after it in
        both directions of the axis. */
    method SolveTwoArrow(x: int, y: int, axis: TwoArrow)
      requires Valid() && InRange(width, height, x, y)
      modifies this
      ensures Valid() && width == old(width) && height == old(height) && Funcs() == old(Funcs())
      ensures Lights() == FlipRule(old(Lights()), width, height, TwoArrow(axis), x, y)
    {
      var step := TwoArrowStep(axis);
      var dx, dy := step.0, step.1;
      StepsAreUnit(Up, axis);
      Toggle(x, y);
      ghost var l1 := Lights();
      ToggleFollowDirection(x + dx, y + dy, dx, dy);
      ghost var l2 := Lights();
      ToggleFollowDirection(x - dx, y - dy, -dx, -dy);
      TwoArrowParts(old(Lights()), l1, l2, Lights(), width, height, axis, x, y);
    }

    /** toggle_follow_direction: toggle the cells from `(startX, startY)`
        onwards in steps of `(dx, dy)` for as long as they are in range. */
    method ToggleFollowDirection(startX: int, startY: int, dx: int, dy: int)
      requires Valid() && UnitStep(dx, dy) && RayEntry(width, height, startX, startY, dx, dy)
      modifies this
      ensures Valid() && width == old(width) && height == old(height) && Funcs() == old(Funcs())
      ensures |Lights()| == |old(Lights())|
      ensures forall i :: 0 <= i < |Lights()| ==>
        Lights()[i] == (old(Lights())[i] != OnRay(startX, startY, dx, dy, Col(width, height, i), Row(width, height, i)))
    {
      var x2, y2 := startX, startY;
      while CheckRange(x2, y2)
        invariant Valid() && width == old(width) && height == old(height) && Funcs() == old(Funcs())
        invariant |Lights()| == |old(Lights())|
        invariant RayEntry(width, height, x2, y2, dx, dy) && OnRay(startX, startY, dx, dy, x2, y2)
        invariant RayToggled(Lights(), old(Lights()), width, height, startX, startY, dx, dy, x2, y2)
        decreases (if dx > 0 then width - x2 else if dx < 0 then x2 + 1 else 0) +
                  (if dy > 0 then height - y2 else if dy < 0 then y2 + 1 else 0)
      {
        ghost var before := Lights();
        var x3, y3 := x2 + dx, y2 + dy;
        RayStep(startX, startY, dx, dy, x3, y3);
        Toggle(x2, y2);
        RayWalkStep(before, old(Lights()), Lights(), width, height, startX, startY, dx, dy, x2, y2, x3, y3);
        x2, y2 := x3, y3;
      }
      RayWalkDone(Lights(), old(Lights()), width, height, startX, startY, dx, dy, x2, y2);
    }

    /** solve_fourarrow: toggle the clicked cell, the rest of its row and the
        rest of its column. */
    method SolveFourArrow(x: int, y: int)
      requires Valid() && InRange(width, height, x, y)
      modifies this
      ensures Valid() && width == old(width) && height == old(height) && Funcs() == old(Funcs())
      ensures Lights() == FlipRule(old(Lights()), width, height, FourArrow, x, y)
    {
      Toggle(x, y);
      for x2 := 0 to width
        invariant Valid() && width == old(width) && height == old(height) && Funcs() == old(Funcs())
        invariant |Lights()| == |old(Lights())|
        invariant forall i :: 0 <= i < |Lights()| ==>
          Lights()[i] == (old(Lights())[i] !=
            (Row(width, height, i) == y && (Col(width, height, i) < x2 || Col(width, height, i) == x)))
      {
        if x == x2 {
          continue;
        }
        Toggle(x2, y);
      }
      for y2 := 0 to height
        invariant Valid() && width == old(width) && height == old(height) && Funcs() == old(Funcs())
        invariant |Lights()| == |old(Lights())|
        invariant forall i :: 0 <= i < |Lights()| ==>
          Lights()[i] == (old(Lights())[i] !=
            (Row(width, height, i) == y || (Col(width, height, i) == x && Row(width, height, i) < y2)))
      {
        if y == y2 {
          continue;
        }
        Toggle(x, y2);
      }
    }

    /** solve_rotate: toggle the clicked cell, read the eight neighbours
        (a missing one reads as off), rotate the readings one place and write
        them back to the neighbours that exist. */
    method SolveRotate(x: int, y: int, clockwise: bool)
      requires Valid() && InRange(width, height, x, y)
      modifies this
      ensures Valid() && width == old(width) && height == old(height) && Funcs() == old(Funcs())
      ensures Lights() == RotateRule(old(Lights()), width, height, x, y, clockwise)
    {
      Toggle(x, y);
      var oldStates := new bool[8](_ => false);
      var newStates := new bool[8](_ => false);
      ReadNeighbours(x, y, oldStates);
      ghost var before := NeighbourStates(old(Lights()), width, height, x, y);
      NeighboursIgnoreCentre(old(Lights()), Lights(), width, height, x, y);
      RotateBuffer(oldStates, newStates, clockwise);
      ghost var after := Rotated(before, clockwise);
      assert newStates[..] == after;
      ghost var l0 := old(Lights());
      RotatedNone(l0, width, height, x, y, after, Lights());
      WriteNeighbours(x, y, newStates, l0);
      RotatedAll(l0, width, height, x, y, clockwise);
    }

    /** The last loop of solve_rotate: each neighbour of `(x, y)` that
        exists takes its state from `buffer`. */
    method WriteNeighbours(x: int, y: int, buffer: array<bool>, ghost l0: seq<bool>)
      requires Valid() && buffer.Length == 8 && |l0| == width * height
      requires Lights() == RotatedUpTo(l0, width, height, x, y, buffer[..], 0)
      modifies this
      ensures Valid() && width == old(width) && height == old(height) && Funcs() == old(Funcs())
      ensures Lights() == RotatedUpTo(l0, width, height, x, y, buffer[..], 8)
    {
      ghost var ns := buffer[..];
      for i := 0 to 8
        invariant Valid() && width == old(width) && height == old(height) && Funcs() == old(Funcs())
        invariant Lights() == RotatedUpTo(l0, width, height, x, y, ns, i)
      {
        var x2, y2 := x + Directions[i].0, y + Directions[i].1;
        ghost var current := Lights();
        if CheckRange(x2, y2) {
          SetLight(x2, y2, buffer[i]);
        }
        RotatedStep(l0, width, height, x, y, ns, i, current, Lights());
      }
    }

    /** The first loop of solve_rotate: `buffer` receives the states of the
        eight neighbours of `(x, y)`, with `false` for a missing one. */
    method ReadNeighbours(x: int, y: int, buffer: array<bool>)
      requires Valid() && buffer.Length == 8
      requires forall k :: 0 <= k < 8 ==> !buffer[k]
      modifies buffer
      ensures buffer[..] == NeighbourStates(Lights(), width, height, x, y)
    {
      for i := 0 to 8
        invariant forall k :: 0 <= k < i ==> buffer[k] == NeighbourStates(Lights(), width, height, x, y)[k]
        invariant forall k :: i <= k < 8 ==> !buffer[k]
      {
        var x2, y2 := x + Directions[i].0, y + Directions[i].1;
        if CheckRange(x2, y2) {
          var btn := At(x2, y2);
          AtCell(x2, y2);
          buffer[i] := btn.value.isOn;
        }
      }
    }

    /** The first loop of solve_shift: the first `width` places of `buffer`
        receive row `y`. */
    method ReadRow(y: int, buffer: array<bool>)
      requires Valid() && 0 <= y < height && width <= buffer.Length
      modifies buffer
      ensures buffer[..width] == RowOf(Lights(), width, height, y)
    {
      for i := 0 to width
        invariant forall k :: 0 <= k < i ==> buffer[k] == RowOf(Lights(), width, height, y)[k]
      {
        var btn := At(i, y);
        AtCell(i, y);
        buffer[i] := btn.value.isOn;
      }
    }

    /** solve_shift: read row `y` into a 16-entry buffer, shift it one place
        (see `ShiftedRow` for the leftward quirk) and write it back. */
    method SolveShift(y: int, right: bool)
      requires Valid() && 0 <= y < height && 1 <= width <= 16
      modifies this
      ensures Valid() && width == old(width) && height == old(height) && Funcs() == old(Funcs())
      ensures Lights() == ShiftRule(old(Lights()), width, height, y, right)
    {
      var oldStates := new bool[16](_ => false);
      var newStates := new bool[16](_ => false);
      ghost var row := RowOf(Lights(), width, height, y);
      ReadRow(y, oldStates);
      ShiftBuffer(oldStates, newStates, width, right);
      ghost var shifted := ShiftedRow(row, right);
      for i := 0 to width
        invariant Valid() && width == old(width) && height == old(height) && Funcs() == old(Funcs())
        invariant forall k :: 0 <= k < width ==> newStates[k] == shifted[k]
        invariant |Lights()| == |old(Lights())|
        invariant forall j :: 0 <= j < |Lights()| ==>
          Lights()[j] == if Row(width, height, j) == y && Col(width, height, j) < i
                         then shifted[Col(width, height, j)] else old(Lights())[j]
      {
        SetLight(i, y, newStates[i]);
      }
    }

    /** solve_symmetry: toggle the clicked cell, then for every row (or
        column) swap the two neighbouring columns (or rows), or clear the
        one that exists when only one does. */
    method SolveSymmetry(x: int, y: int, horizontal: bool)
      requires Valid() && InRange(width, height, x, y)
      modifies this
      ensures Valid() && width == old(width) && height == old(height) && Funcs() == old(Funcs())
      ensures Lights() == SymmetryRule(old(Lights()), width, height, x, y, horizontal)
    {
      Toggle(x, y);
      if horizontal {
        MirrorColumns(x, y, old(Lights()));
      } else {
        MirrorRows(x, y, old(Lights()));
      }
    }

    /** The horizontal branch of solve_symmetry, run after the centre of
        `l0` has been toggled. */
    method MirrorColumns(x: int, y: int, ghost l0: seq<bool>)
      requires Valid() && InRange(width, height, x, y) && |l0| == |Lights()|
      requires forall j :: 0 <= j < |l0| ==>
        Lights()[j] == (l0[j] != (Col(width, height, j) == x && Row(width, height, j) == y))
      modifies this
      ensures Valid() && width == old(width) && height == old(height) && Funcs() == old(Funcs())
      ensures Lights() == SymmetryRule(l0, width, height, x, y, true)
    {
      var leftX, rightX := x - 1, x + 1;
      var existsLeft := CheckRange(leftX, y);
      var existsRight := CheckRange(rightX, y);
      MirroredNone(l0, width, height, x, y, true, Lights());
      for y2 := 0 to height
        invariant Valid() && width == old(width) && height == old(height) && Funcs() == old(Funcs())
        invariant Lights() == MirroredUpTo(l0, width, height, x, y, true, y2)
      {
        ghost var current := Lights();
        SwapOrClear(leftX, y2, rightX, y2, existsLeft, existsRight);
        MirrorColumnsStep(l0, width, height, x, y, y2, current, Lights());
      }
      MirroredAll(l0, width, height, x, y, true);
    }

    /** The vertical branch of solve_symmetry, run after the centre of `l0`
        has been toggled. */
    method MirrorRows(x: int, y: int, ghost l0: seq<bool>)
      requires Valid() && InRange(width, height, x, y) && |l0| == |Lights()|
      requires forall j :: 0 <= j < |l0| ==>
        Lights()[j] == (l0[j] != (Col(width, height, j) == x && Row(width, height, j) == y))
      modifies this
      ensures Valid() && width == old(width) && height == old(height) && Funcs() == old(Funcs())
      ensures Lights() == SymmetryRule(l0, width, height, x, y, false)
    {
      var upY, downY := y + 1, y - 1;
      var existsUp := CheckRange(x, upY);
      var existsDown := CheckRange(x, downY);
      MirroredNone(l0, width, height, x, y, false, Lights());
      for x2 := 0 to width
        invariant Valid() && width == old(width) && height == old(height) && Funcs() == old(Funcs())
        invariant Lights() == MirroredUpTo(l0, width, height, x, y, false, x2)
      {
        ghost var current := Lights();
        SwapOrClear(x2, upY, x2, downY, existsUp, existsDown);
        MirrorRowsStep(l0, width, height, x, y, x2, current, Lights());
      }
      MirroredAll(l0, width, height, x, y, false);
    }

    /** The body of the loops of solve_symmetry: when both cells exist their
        lights are swapped, when only one does it is switched off. */
    method SwapOrClear(aX: int, aY: int, bX: int, bY: int, existsA: bool, existsB: bool)
      requires Valid() && (aX, aY) != (bX, bY)
      requires existsA ==> InRange(width, height, aX, aY)
      requires existsB ==> InRange(width, height, bX, bY)
      modifies this
      ensures Valid() && width == old(width) && height == old(height) && Funcs() == old(Funcs())
      ensures |Lights()| == |old(Lights())|
      ensures forall j :: 0 <= j < |Lights()| ==>
        var cx, cy := Col(width, height, j), Row(width, height, j);
        Lights()[j] ==
          if existsA && (cx, cy) == (aX, aY) then existsB && LightAt(old(Lights()), width, height, bX, bY)
          else if existsB && (cx, cy) == (bX, bY) then existsA && LightAt(old(Lights()), width, height, aX, aY)
          else old(Lights())[j]
    {
      if existsA && existsB {
        AtCell(aX, aY);
        AtCell(bX, bY);
        var stateA := At(aX, aY).value.isOn;
        var stateB := At(bX, bY).value.isOn;
        SetLight(bX, bY, stateA);
        SetLight(aX, aY, stateB);
      } else if existsA {
        SetLight(aX, aY, false);
      } else if existsB {
        SetLight(bX, bY, false);
      }
    }

    /** solve_aroundeight: toggle the clicked cell and its neighbours that exist. */
    method SolveAroundEight(x: int, y: int)
      requires Valid() && InRange(width, height, x, y)
      modifies this
      ensures Valid() && width == old(width) && height == old(height) && Funcs() == old(Funcs())
      ensures Lights() == FlipRule(old(Lights()), width, height, AroundEight, x, y)
    {
      Toggle(x, y);
      EightStart(Lights(), old(Lights()), width, height, x, y);
      for i := 0 to 8
        invariant Valid() && width == old(width) && height == old(height) && Funcs() == old(Funcs())
        invariant |Lights()| == |old(Lights())|
        invariant EightToggled(Lights(), old(Lights()), width, height, x, y, i)
      {
        var x2, y2 := x + Directions[i].0, y + Directions[i].1;
        ghost var before := Lights();
        if CheckRange(x2, y2) {
          Toggle(x2, y2);
        }
        EightStep(before, old(Lights()), Lights(), width, height, x, y, i);
      }
      EightDone(Lights(), old(Lights()), width, height, x, y);
    }

    /** Grid::set_all_state: every light becomes `state`. */
    method SetAllState(state: bool)
      requires Valid()
      modifies this
      ensures Valid() && width == old(width) && height == old(height) && Funcs() == old(Funcs())
      ensures |Lights()| == |old(Lights())|
      ensures forall i :: 0 <= i < |Lights()| ==> Lights()[i] == state
    {
      for i := 0 to |buttons|
        invariant Valid() && width == old(width) && height == old(height) && Funcs() == old(Funcs())
        invariant forall j :: 0 <= j < i ==> buttons[j].isOn == state
      {
        buttons := buttons[i := buttons[i].(isOn := state)];
      }
    }
  }

  /** Grid::from_level: the grid of a decoded level. The light of `(x, y)` is
      bit `x * height + y` of the level's states and its rule is the subtype
      at `y * width + x`. */
  method FromLevel(level: ToggleLevel) returns (g: Grid)
    requires level.width * level.height <= |level.subtypes|
    requires level.width * level.height <= 8 * |level.states.bytes|
    ensures fresh(g) && g.Valid() && g.width == level.width && g.height == level.height
    ensures g.Lights() == LightsOf(level.states, level.width, level.height)
    ensures g.Funcs() == LevelFuncs(level)
  {
    var w, h := level.width, level.height;
    g := new Grid.New(w, h);
    for y := 0 to h
      invariant g.Valid() && g.width == w && g.height == h
      invariant forall j :: 0 <= j < |g.buttons| ==>
        if j < y * w then g.Lights()[j] == LightsOf(level.states, w, h)[j] && g.Funcs()[j] == LevelFuncs(level)[j]
        else true
    {
      for x := 0 to w
        invariant g.Valid() && g.width == w && g.height == h
        invariant forall j :: 0 <= j < |g.buttons| ==>
          if j < y * w + x then g.Lights()[j] == LightsOf(level.states, w, h)[j] && g.Funcs()[j] == LevelFuncs(level)[j]
          else true
      {
        var stateIndex := x * h + y;
        var subtypeIndex := y * w + x;
        CellIndex(w, h, x, y);
        IndexInRange(h, w, y, x);
        var i := Index(w, x, y);
        g.buttons := g.buttons[i := g.buttons[i].(isOn := BitAt(level.states, stateIndex),
                                                   func := ConvertSubtypeToFunc(level.subtypes[subtypeIndex]))];
      }
      assert y * w + w == (y + 1) * w;
    }
  }

  /** The rule of every cell of a level, in button order. */
  function LevelFuncs(level: ToggleLevel): (f: seq<ButtonFunction>)
    requires level.width * level.height <= |level.subtypes|
    ensures |f| == level.width * level.height
  {
    seq(level.width * level.height, i requires 0 <= i < level.width * level.height =>
      ConvertSubtypeToFunc(level.subtypes[i]))
  }
}
