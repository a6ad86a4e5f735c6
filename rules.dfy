/**
 * What a click does (src/toggle/core.rs), stated on values.
 *
 * The lights of a `w` by `h` grid are a `seq<bool>` of length `w * h` in the
 * grid's own row-major order: the light of `(x, y)` is at `y * w + x`. Each
 * rule below is a function from the lights before a click to the lights
 * after it; the methods of `Grids.Grid` are proved to compute exactly these.
 */
module Rules {
  import opened BitArrays
  import opened Buttons

  /** Grid::check_range. */
  predicate InRange(w: nat, h: nat, x: int, y: int)
  {
    0 <= x < w && 0 <= y < h
  }

  /** The position of `(x, y)` in the row-major button vector. */
  function Index(w: nat, x: int, y: int): int
  {
    y * w + x
  }

  lemma MulMonotone(a: int, b: int, c: nat)
    requires a <= b
    ensures a * c <= b * c
  {
  }

  lemma IndexInRange(w: nat, h: nat, x: int, y: int)
    requires InRange(w, h, x, y)
    ensures 0 <= Index(w, x, y) < w * h
  {
    MulMonotone(y, h - 1, w);
    assert (h - 1) * w == h * w - w;
  }

  /** Division and remainder by `w` recover the coordinates of an index. */
  lemma IndexCell(w: nat, x: int, y: int)
    requires 0 <= x < w && 0 <= y
    ensures Index(w, x, y) / w == y && Index(w, x, y) % w == x
  {
    var i := Index(w, x, y);
    var q, r := i / w, i % w;
    assert i == q * w + r && 0 <= r < w;
    if q > y {
      MulMonotone(y + 1, q, w);
      assert false;
    } else if q < y {
      MulMonotone(q + 1, y, w);
      assert false;
    }
  }

  lemma CellOf(w: nat, h: nat, i: int)
    requires 0 <= i < w * h
    ensures w > 0 && InRange(w, h, i % w, i / w) && Index(w, i % w, i / w) == i
  {
    var q, r := i / w, i % w;
    assert i == q * w + r;
    if q >= h {
      MulMonotone(h, q, w);
      assert false;
    }
  }

  /** The column of position `i`. */
  function Col(w: nat, h: nat, i: int): (x: int)
    requires 0 <= i < w * h
    ensures 0 <= x < w
  {
    CellOf(w, h, i);
    i % w
  }

  /** The row of position `i`; `(Col, Row)` is the cell stored at `i`. */
  function Row(w: nat, h: nat, i: int): (y: int)
    requires 0 <= i < w * h
    ensures 0 <= y < h && Index(w, Col(w, h, i), y) == i
  {
    CellOf(w, h, i);
    i / w
  }

  /** Each cell has one position and each position one cell. */
  lemma CellIndex(w: nat, h: nat, x: int, y: int)
    requires InRange(w, h, x, y)
    ensures 0 <= Index(w, x, y) < w * h
    ensures Col(w, h, Index(w, x, y)) == x && Row(w, h, Index(w, x, y)) == y
  {
    IndexInRange(w, h, x, y);
    IndexCell(w, x, y);
  }

  /** Grid::at on the lights: the light of an in-range cell. */
  function LightAt(l: seq<bool>, w: nat, h: nat, x: int, y: int): bool
    requires |l| == w * h && InRange(w, h, x, y)
  {
    IndexInRange(w, h, x, y);
    l[Index(w, x, y)]
  }

  // ---------------------------------------------------------------------
  // Arrows and the eight-neighbourhood: each toggles a fixed set of cells.

  /** The step of a single arrow (solve_onearrow). */
  function OneArrowStep(d: OneArrow): (int, int)
  {
    match d
    case Up => (0, 1)
    case Down => (0, -1)
    case Left => (-1, 0)
    case Right => (1, 0)
    case LeftUp => (-1, 1)
    case RightUp => (1, 1)
    case LeftDown => (-1, -1)
    case RightDown => (1, -1)
  }

  /** The positive step of a double arrow (solve_twoarrow). */
  function TwoArrowStep(a: TwoArrow): (int, int)
  {
    match a
    case BothHorizontal => (1, 0)
    case BothVertical => (0, 1)
    case LeftUpRightDown => (-1, 1)
    case LeftDownRightUp => (-1, -1)
  }

  predicate UnitStep(dx: int, dy: int)
  {
    -1 <= dx <= 1 && -1 <= dy <= 1 && (dx != 0 || dy != 0)
  }

  /** How far `c` lies from `s` in the direction of the sign of `d`. */
  function Dist(s: int, d: int, c: int): int
  {
    if d > 0 then c - s else s - c
  }

  /** `(cx, cy)` is `(sx + k * dx, sy + k * dy)` for some `k >= 0`. */
  predicate OnRay(sx: int, sy: int, dx: int, dy: int, cx: int, cy: int)
  {
    (if dx == 0 then cx == sx else Dist(sx, dx, cx) >= 0) &&
    (if dy == 0 then cy == sy else Dist(sy, dy, cy) >= 0) &&
    (dx != 0 && dy != 0 ==> Dist(sx, dx, cx) == Dist(sy, dy, cy))
  }

  /** A ray is its start followed by the ray one step further. */
  lemma RayStep(sx: int, sy: int, dx: int, dy: int, cx: int, cy: int)
    requires UnitStep(dx, dy)
    ensures OnRay(sx, sy, dx, dy, cx, cy) <==>
            ((cx == sx && cy == sy) || OnRay(sx + dx, sy + dy, dx, dy, cx, cy))
  {
  }

  /** The rules that toggle a fixed set of cells. */
  predicate Flips(f: ButtonFunction)
  {
    f.OneArrow? || f.TwoArrow? || f.FourArrow? || f.AroundEight?
  }

  /** The cells that a click of `f` at `(x, y)` toggles, for the rules in `Flips`. */
  predicate Hit(f: ButtonFunction, x: int, y: int, cx: int, cy: int)
  {
    match f
    case OneArrow(d) =>
      OnRay(x, y, OneArrowStep(d).0, OneArrowStep(d).1, cx, cy)
    case TwoArrow(a) =>
      var dx, dy := TwoArrowStep(a).0, TwoArrowStep(a).1;
      (cx == x && cy == y) || OnRay(x + dx, y + dy, dx, dy, cx, cy) || OnRay(x - dx, y - dy, -dx, -dy, cx, cy)
    case FourArrow => cx == x || cy == y
    case AroundEight => -1 <= cx - x <= 1 && -1 <= cy - y <= 1
    case _ => false
  }

  /** Toggle exactly the in-range cells that `f` hits. */
  function FlipRule(l: seq<bool>, w: nat, h: nat, f: ButtonFunction, x: int, y: int): (r: seq<bool>)
    requires |l| == w * h
    ensures |r| == |l|
  {
    seq(|l|, i requires 0 <= i < |l| => l[i] != Hit(f, x, y, Col(w, h, i), Row(w, h, i)))
  }

  // ---------------------------------------------------------------------
  // Rotate

  /** The neighbour offsets in the order N, NE, E, SE, S, SW, W, NW. */
  const Directions: seq<(int, int)> := [(0, 1), (1, 1), (1, 0), (1, -1), (0, -1), (-1, -1), (-1, 0), (-1, 1)]

  /** Every offset of `Directions` leads to one of the eight cells around. */
  lemma DirectionIsNeighbour(k: int)
    requires 0 <= k < 8
    ensures -1 <= Directions[k].0 <= 1 && -1 <= Directions[k].1 <= 1 && Directions[k] != (0, 0)
  {
  }

  /** The place of an offset among `Directions`, or 8 when it is not a neighbour. */
  function DirectionIndex(dx: int, dy: int): (k: nat)
    ensures k <= 8
    ensures k < 8 ==> Directions[k] == (dx, dy)
    ensures k == 8 ==> forall j :: 0 <= j < 8 ==> Directions[j] != (dx, dy)
  {
    if (dx, dy) == (0, 1) then 0
    else if (dx, dy) == (1, 1) then 1
    else if (dx, dy) == (1, 0) then 2
    else if (dx, dy) == (1, -1) then 3
    else if (dx, dy) == (0, -1) then 4
    else if (dx, dy) == (-1, -1) then 5
    else if (dx, dy) == (-1, 0) then 6
    else if (dx, dy) == (-1, 1) then 7
    else 8
  }

  /** The neighbour states as solve_rotate reads them: a neighbour outside
      the grid reads as `false`. */
  function NeighbourStates(l: seq<bool>, w: nat, h: nat, x: int, y: int): (s: seq<bool>)
    requires |l| == w * h
    ensures |s| == 8
  {
    seq(8, k requires 0 <= k < 8 =>
      var nx, ny := x + Directions[k].0, y + Directions[k].1;
      if InRange(w, h, nx, ny) then LightAt(l, w, h, nx, ny) else false)
  }

  /** One step of cyclic rotation of the eight neighbour states. */
  function Rotated(s: seq<bool>, clockwise: bool): (r: seq<bool>)
    requires |s| == 8
    ensures |r| == 8
  {
    if clockwise then [s[7]] + s[..7] else s[1..] + [s[0]]
  }

  /** solve_rotate: toggle the centre and write the rotated neighbour states
      back to the neighbours that exist. */
  function RotateRule(l: seq<bool>, w: nat, h: nat, x: int, y: int, clockwise: bool): (r: seq<bool>)
    requires |l| == w * h
    ensures |r| == |l|
  {
    var ns := Rotated(NeighbourStates(l, w, h, x, y), clockwise);
    seq(|l|, i requires 0 <= i < |l| =>
      var cx, cy := Col(w, h, i), Row(w, h, i);
      var k := DirectionIndex(cx - x, cy - y);
      if cx == x && cy == y then !l[i]
      else if k < 8 then ns[k]
      else l[i])
  }

  // ---------------------------------------------------------------------
  // Shift

  /** The lights of row `y`, from left to right. */
  function RowOf(l: seq<bool>, w: nat, h: nat, y: int): (row: seq<bool>)
    requires |l| == w * h && 0 <= y < h
    ensures |row| == w
  {
    seq(w, x requires 0 <= x < w => LightAt(l, w, h, x, y))
  }

  /** The row that solve_shift writes back. Rightward is a cyclic rotation;
      leftward moves cell `i + 1` to `i` for `1 <= i <= w - 2` and cell 0 to
      `w - 1`. When the row has at least two cells, cell 0 is never assigned
      and is left false; a one-cell row keeps its cell. */
  function ShiftedRow(row: seq<bool>, right: bool): (r: seq<bool>)
    requires |row| >= 1
    ensures |r| == |row|
  {
    var w := |row|;
    seq(w, i requires 0 <= i < w =>
      if right then (if i == 0 then row[w - 1] else row[i - 1])
      else if i == w - 1 then row[0]
      else if 1 <= i then row[i + 1]
      else false)
  }

  /** solve_shift: replace row `y` by its shifted form. */
  function ShiftRule(l: seq<bool>, w: nat, h: nat, y: int, right: bool): (r: seq<bool>)
    requires |l| == w * h && 0 <= y < h && w >= 1
    ensures |r| == |l|
  {
    var row := ShiftedRow(RowOf(l, w, h, y), right);
    seq(|l|, i requires 0 <= i < |l| => if Row(w, h, i) == y then row[Col(w, h, i)] else l[i])
  }

  // ---------------------------------------------------------------------
  // Symmetry

  /** solve_symmetry: toggle the centre, then swap the two neighbouring
      columns (horizontal) or rows (vertical) across the whole grid, or clear
      the one that exists when only one does. */
  function SymmetryRule(l: seq<bool>, w: nat, h: nat, x: int, y: int, horizontal: bool): (r: seq<bool>)
    requires |l| == w * h && InRange(w, h, x, y)
    ensures |r| == |l|
  {
    seq(|l|, i requires 0 <= i < |l| =>
      var cx, cy := Col(w, h, i), Row(w, h, i);
      if cx == x && cy == y then !l[i]
      else if horizontal then
        var left, right := InRange(w, h, x - 1, y), InRange(w, h, x + 1, y);
        if left && right && cx == x - 1 then LightAt(l, w, h, x + 1, cy)
        else if left && right && cx == x + 1 then LightAt(l, w, h, x - 1, cy)
        else if left && !right && cx == x - 1 then false
        else if right && !left && cx == x + 1 then false
        else l[i]
      else
        var up, down := InRange(w, h, x, y + 1), InRange(w, h, x, y - 1);
        if up && down && cy == y + 1 then LightAt(l, w, h, cx, y - 1)
        else if up && down && cy == y - 1 then LightAt(l, w, h, cx, y + 1)
        else if up && !down && cy == y + 1 then false
        else if down && !up && cy == y - 1 then false
        else l[i])
  }

  // ---------------------------------------------------------------------
  // Dispatch

  /** Grid::click_button on the lights: the effect of clicking a button with
      rule `f` at `(x, y)`. */
  function Click(l: seq<bool>, w: nat, h: nat, f: ButtonFunction, x: int, y: int): (r: seq<bool>)
    requires |l| == w * h && InRange(w, h, x, y)
    ensures |r| == |l|
  {
    match f
    case Nothing => l
    case Rotate(cw) => RotateRule(l, w, h, x, y, cw)
    case Shift(right) => ShiftRule(l, w, h, y, right)
    case Symmetry(hz) => SymmetryRule(l, w, h, x, y, hz)
    case _ => FlipRule(l, w, h, f, x, y)
  }

  // ---------------------------------------------------------------------
  // Projection to and from bit arrays (get_states / set_states).

  /** Where get_states puts the light of position `i`: `x * h + y`. */
  function Transposed(w: nat, h: nat, i: int): (j: int)
    requires 0 <= i < w * h
    ensures 0 <= j < w * h
  {
    IndexInRange(h, w, Row(w, h, i), Col(w, h, i));
    Index(h, Row(w, h, i), Col(w, h, i))
  }

  /** The bits that get_states stores: bit `x * h + y` is the light of `(x, y)`. */
  function StatesOf(l: seq<bool>, w: nat, h: nat): (bits: seq<bool>)
    requires |l| == w * h
    ensures |bits| == w * h
  {
    seq(w * h, j requires 0 <= j < w * h => LightAt(l, w, h, Row(h, w, j), Col(h, w, j)))
  }

  /** The lights that set_states writes: the light of `(x, y)` is bit `x * h + y`. */
  function LightsOf(b: Bits, w: nat, h: nat): (l: seq<bool>)
    requires w * h <= 8 * |b.bytes|
    ensures |l| == w * h
  {
    seq(w * h, i requires 0 <= i < w * h => BitAt(b, Transposed(w, h, i)))
  }

  /** The packed bit array that get_states returns. */
  function Snapshot(l: seq<bool>, w: nat, h: nat): (b: Bits)
    requires |l| == w * h
    ensures b.len == w * h && |b.bytes| == ByteCount(w * h)
    ensures w * h <= 8 * |b.bytes|
  {
    Pack(StatesOf(l, w, h))
  }

  /** set_states(get_states()) leaves the lights as they were. */
  lemma SetStatesOfSnapshot(l: seq<bool>, w: nat, h: nat)
    requires |l| == w * h
    ensures LightsOf(Snapshot(l, w, h), w, h) == l
  {
    var bits := StatesOf(l, w, h);
    forall i | 0 <= i < w * h
      ensures LightsOf(Snapshot(l, w, h), w, h)[i] == l[i]
    {
      var x, y := Col(w, h, i), Row(w, h, i);
      var j := Transposed(w, h, i);
      PackBitAt(bits, j);
      CellIndex(h, w, y, x);
    }
  }

  /** After set_states(b), get_states agrees with `b` on every bit below `w * h`. */
  lemma SnapshotOfSetStates(b: Bits, w: nat, h: nat)
    requires w * h <= 8 * |b.bytes|
    ensures StatesOf(LightsOf(b, w, h), w, h) == Unpack(b, w * h)
  {
    var l := LightsOf(b, w, h);
    forall j | 0 <= j < w * h
      ensures StatesOf(l, w, h)[j] == BitAt(b, j)
    {
      var y, x := Col(h, w, j), Row(h, w, j);
      CellIndex(w, h, x, y);
    }
  }

  /** Taking the snapshot of the lights that a snapshot sets gives it back. */
  lemma SnapshotStable(l: seq<bool>, w: nat, h: nat)
    requires |l| == w * h
    ensures Snapshot(LightsOf(Snapshot(l, w, h), w, h), w, h) == Snapshot(l, w, h)
  {
    SetStatesOfSnapshot(l, w, h);
  }

  /** Two grids have the same snapshot bits exactly when they have the same
      lights. */
  lemma SnapshotBitsInjective(l1: seq<bool>, l2: seq<bool>, w: nat, h: nat)
    requires |l1| == |l2| == w * h
    ensures Unpack(Snapshot(l1, w, h), w * h) == Unpack(Snapshot(l2, w, h), w * h) <==> l1 == l2
  {
    UnpackPack(StatesOf(l1, w, h));
    UnpackPack(StatesOf(l2, w, h));
    if StatesOf(l1, w, h) == StatesOf(l2, w, h) {
      SetStatesOfSnapshot(l1, w, h);
      SetStatesOfSnapshot(l2, w, h);
    }
  }
}
