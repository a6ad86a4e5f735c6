/**
 * Properties of the click rules of src/toggle/core.rs: which clicks undo
 * themselves, how many cells a cross toggles, and which cells each rule may
 * touch.
 */
module RuleProperties {
  import opened Buttons
  import opened Rules

  // ---------------------------------------------------------------------
  // Self-inverse clicks

  /** A click of an arrow or of AroundEight toggles a fixed set of cells,
      so clicking the same button twice restores the lights. */
  lemma ArrowClickSelfInverse(l: seq<bool>, w: nat, h: nat, f: ButtonFunction, x: int, y: int)
    requires |l| == w * h && InRange(w, h, x, y) && Flips(f)
    ensures Click(Click(l, w, h, f, x, y), w, h, f, x, y) == l
  {
    var once := Click(l, w, h, f, x, y);
    var twice := Click(once, w, h, f, x, y);
    forall i | 0 <= i < |l|
      ensures twice[i] == l[i]
    {
      assert once[i] == (l[i] != Hit(f, x, y, Col(w, h, i), Row(w, h, i)));
    }
  }

  /** Clicking a `Nothing` button changes nothing. */
  lemma NothingClickIsNoOp(l: seq<bool>, w: nat, h: nat, x: int, y: int)
    requires |l| == w * h && InRange(w, h, x, y)
    ensures Click(l, w, h, Nothing, x, y) == l
  {
  }

  /** The three parts a double arrow toggles (the centre, the ray forwards
      from one step past it, the ray backwards from one step before it) are
      disjoint, so every cell of their union is toggled exactly once. */
  lemma TwoArrowPartsDisjoint(a: TwoArrow, x: int, y: int, cx: int, cy: int)
    ensures var dx, dy := TwoArrowStep(a).0, TwoArrowStep(a).1;
      var centre := cx == x && cy == y;
      var forward := OnRay(x + dx, y + dy, dx, dy, cx, cy);
      var backward := OnRay(x - dx, y - dy, -dx, -dy, cx, cy);
      !(centre && forward) && !(centre && backward) && !(forward && backward)
  {
  }

  /** A single arrow toggles the clicked cell itself and every cell from it to
      the edge of the grid in its direction. */
  lemma OneArrowRayFromClicked(d: OneArrow, x: int, y: int, k: nat)
    ensures Hit(OneArrow(d), x, y, x, y)
    ensures Hit(OneArrow(d), x, y, x + k * OneArrowStep(d).0, y + k * OneArrowStep(d).1)
    ensures !Hit(OneArrow(d), x, y, x - OneArrowStep(d).0, y - OneArrowStep(d).1)
  {
  }

  // ---------------------------------------------------------------------
  // FourArrow toggles w + h - 1 cells

  /** The number of positions below `n` where `a` and `b` differ. */
  function CountDiff(a: seq<bool>, b: seq<bool>, n: nat): (c: nat)
    requires n <= |a| && n <= |b|
    ensures c <= n
  {
    if n == 0 then 0 else CountDiff(a, b, n - 1) + (if a[n - 1] != b[n - 1] then 1 else 0)
  }

  /** The number of positions below `n` whose cell `f` hits. */
  function HitCount(w: nat, h: nat, f: ButtonFunction, x: int, y: int, n: nat): nat
    requires n <= w * h
  {
    if n == 0 then 0
    else HitCount(w, h, f, x, y, n - 1) + (if Hit(f, x, y, Col(w, h, n - 1), Row(w, h, n - 1)) then 1 else 0)
  }

  lemma {:induction false} FlipChangesHits(l: seq<bool>, w: nat, h: nat, f: ButtonFunction, x: int, y: int, n: nat)
    requires |l| == w * h && n <= w * h
    ensures CountDiff(l, FlipRule(l, w, h, f, x, y), n) == HitCount(w, h, f, x, y, n)
  {
    if n > 0 {
      FlipChangesHits(l, w, h, f, x, y, n - 1);
    }
  }

  /** Counting the cross cell by cell, row by row: the first `r` rows and `c`
      cells of row `r`, which are the first `i` positions. */
  lemma {:induction false} CrossCount(w: nat, h: nat, x: int, y: int, r: int, c: int, i: nat)
    requires InRange(w, h, x, y) && 0 <= r < h && 0 <= c <= w && i == r * w + c && i <= w * h
    ensures HitCount(w, h, FourArrow, x, y, i) ==
            r + (if y < r then w - 1 else 0) + (if r == y then c else if x < c then 1 else 0)
  {
    if c > 0 {
      CrossCount(w, h, x, y, r, c - 1, i - 1);
      CellIndex(w, h, c - 1, r);
      assert Index(w, c - 1, r) == i - 1;
    } else if r > 0 {
      assert (r - 1) * w + w == i;
      CrossCount(w, h, x, y, r - 1, w, i);
    }
  }

  /** FourArrow toggles exactly `w + h - 1` cells: its whole row and its
      whole column, the clicked cell once. */
  lemma FourArrowTogglesCross(l: seq<bool>, w: nat, h: nat, x: int, y: int)
    requires |l| == w * h && InRange(w, h, x, y)
    ensures CountDiff(l, Click(l, w, h, FourArrow, x, y), w * h) == w + h - 1
  {
    FlipChangesHits(l, w, h, FourArrow, x, y, w * h);
    assert (h - 1) * w + w == w * h;
    CrossCount(w, h, x, y, h - 1, w, w * h);
  }

  // ---------------------------------------------------------------------
  // Rotate

  lemma DirectionIndexOf(k: int)
    requires 0 <= k < 8
    ensures DirectionIndex(Directions[k].0, Directions[k].1) == k
  {
  }

  /** A rotation changes nothing outside the 3 by 3 block around the click. */
  lemma RotateStaysInBlock(l: seq<bool>, w: nat, h: nat, x: int, y: int, clockwise: bool, cx: int, cy: int)
    requires |l| == w * h && InRange(w, h, x, y) && InRange(w, h, cx, cy)
    requires !(-1 <= cx - x <= 1 && -1 <= cy - y <= 1)
    ensures LightAt(RotateRule(l, w, h, x, y, clockwise), w, h, cx, cy) == LightAt(l, w, h, cx, cy)
  {
    CellIndex(w, h, cx, cy);
  }

  /** The neighbour states read after a rotation of an interior cell are the
      rotated neighbour states. */
  lemma RotatedNeighbours(l: seq<bool>, w: nat, h: nat, x: int, y: int, clockwise: bool)
    requires |l| == w * h && 1 <= x < w - 1 && 1 <= y < h - 1
    ensures NeighbourStates(RotateRule(l, w, h, x, y, clockwise), w, h, x, y) ==
            Rotated(NeighbourStates(l, w, h, x, y), clockwise)
  {
    var l1 := RotateRule(l, w, h, x, y, clockwise);
    var ns := Rotated(NeighbourStates(l, w, h, x, y), clockwise);
    forall k | 0 <= k < 8
      ensures NeighbourStates(l1, w, h, x, y)[k] == ns[k]
    {
      RotatedNeighbourAt(l, w, h, x, y, clockwise, k);
    }
  }

  /** One place of RotatedNeighbours. */
  lemma RotatedNeighbourAt(l: seq<bool>, w: nat, h: nat, x: int, y: int, clockwise: bool, k: int)
    requires |l| == w * h && 1 <= x < w - 1 && 1 <= y < h - 1 && 0 <= k < 8
    ensures NeighbourStates(RotateRule(l, w, h, x, y, clockwise), w, h, x, y)[k] ==
            Rotated(NeighbourStates(l, w, h, x, y), clockwise)[k]
  {
    var l1 := RotateRule(l, w, h, x, y, clockwise);
    var nx, ny := x + Directions[k].0, y + Directions[k].1;
    DirectionIsNeighbour(k);
    CellIndex(w, h, nx, ny);
    var i := Index(w, nx, ny);
    RotateRuleAt(l, w, h, x, y, clockwise, k, nx, ny, i);
    assert NeighbourStates(l1, w, h, x, y)[k] == LightAt(l1, w, h, nx, ny);
  }

  /** The rotation writes place `k` of the rotated neighbour states to the
      neighbour `(nx, ny)` at place `k` of `Directions`, stored at `i`. */
  lemma RotateRuleAt(l: seq<bool>, w: nat, h: nat, x: int, y: int, clockwise: bool, k: int, nx: int, ny: int, i: int)
    requires |l| == w * h && 0 <= k < 8 && nx == x + Directions[k].0 && ny == y + Directions[k].1
    requires 0 <= i < |l| && Col(w, h, i) == nx && Row(w, h, i) == ny
    ensures RotateRule(l, w, h, x, y, clockwise)[i] == Rotated(NeighbourStates(l, w, h, x, y), clockwise)[k]
  {
    DirectionIndexOf(k);
    assert DirectionIndex(nx - x, ny - y) == k;
  }

  /** On an interior cell, a clockwise rotation followed by a counter-clockwise
      one restores the grid. */
  lemma RotateRoundTrip(l: seq<bool>, w: nat, h: nat, x: int, y: int)
    requires |l| == w * h && 1 <= x < w - 1 && 1 <= y < h - 1
    ensures RotateRule(RotateRule(l, w, h, x, y, true), w, h, x, y, false) == l
  {
    var l1 := RotateRule(l, w, h, x, y, true);
    var l2 := RotateRule(l1, w, h, x, y, false);
    var n0 := NeighbourStates(l, w, h, x, y);
    RotatedNeighbours(l, w, h, x, y, true);
    assert Rotated(Rotated(n0, true), false) == n0;
    forall i | 0 <= i < |l|
      ensures l2[i] == l[i]
    {
      RoundTripAt(l, l1, l2, w, h, x, y, i);
    }
  }

  /** One cell of RotateRoundTrip: the neighbour states that come back are
      those that went out. */
  lemma RoundTripAt(l: seq<bool>, l1: seq<bool>, l2: seq<bool>, w: nat, h: nat, x: int, y: int, i: int)
    requires |l| == w * h && 1 <= x < w - 1 && 1 <= y < h - 1 && 0 <= i < |l|
    requires l1 == RotateRule(l, w, h, x, y, true) && l2 == RotateRule(l1, w, h, x, y, false)
    requires Rotated(NeighbourStates(l1, w, h, x, y), false) == NeighbourStates(l, w, h, x, y)
    ensures l2[i] == l[i]
  {
    var cx, cy := Col(w, h, i), Row(w, h, i);
    var k := DirectionIndex(cx - x, cy - y);
    if !(cx == x && cy == y) && k < 8 {
      var n0 := NeighbourStates(l, w, h, x, y);
      assert l2[i] == n0[k];
      assert cx == x + Directions[k].0 && cy == y + Directions[k].1;
      assert InRange(w, h, cx, cy);
      assert n0[k] == LightAt(l, w, h, cx, cy);
      assert Index(w, cx, cy) == i;
    }
  }

  /** A counter-clockwise rotation at the corner (0, 0) moves into (1, 0) the
      state of its south-east neighbour (1, -1), which is outside the grid
      and reads as `false`: so (1, 0) always ends dark. */
  lemma RotateCornerClearsEast(l: seq<bool>, w: nat, h: nat)
    requires |l| == w * h && w >= 2 && h >= 1
    ensures !LightAt(RotateRule(l, w, h, 0, 0, false), w, h, 1, 0)
  {
    CellIndex(w, h, 1, 0);
    assert DirectionIndex(1, 0) == 2;
  }

  /** Hence the interior condition of RotateRoundTrip is needed: at the corner
      a clockwise and a counter-clockwise rotation lose a lit (1, 0). */
  lemma RotateCornerNoRoundTrip(l: seq<bool>, w: nat, h: nat)
    requires |l| == w * h && w >= 2 && h >= 1 && LightAt(l, w, h, 1, 0)
    ensures RotateRule(RotateRule(l, w, h, 0, 0, true), w, h, 0, 0, false) != l
  {
    RotateCornerClearsEast(RotateRule(l, w, h, 0, 0, true), w, h);
  }

  // ---------------------------------------------------------------------
  // Shift

  /** Shifting right is a cyclic rotation of the row. */
  lemma ShiftRightRotatesRow(row: seq<bool>)
    requires |row| >= 1
    ensures ShiftedRow(row, true) == [row[|row| - 1]] + row[..|row| - 1]
    ensures multiset(ShiftedRow(row, true)) == multiset(row)
  {
    var w := |row|;
    assert ShiftedRow(row, true) == [row[w - 1]] + row[..w - 1];
    assert row == row[..w - 1] + [row[w - 1]];
  }

  /** On a row of at least two cells, shifting left moves cells 2 to `w - 1`
      one place left and the first to the end, loses cell 1, and leaves the
      first place false. */
  lemma ShiftLeftDropsSecond(row: seq<bool>)
    requires |row| >= 2
    ensures ShiftedRow(row, false) == [false] + row[2..] + [row[0]]
  {
  }

  /** So a right shift followed by a left shift does not restore every row:
      the row `[true, false]` becomes `[false, false]`. */
  lemma ShiftLeftNotInverse()
    ensures ShiftedRow(ShiftedRow([true, false], true), false) == [false, false]
  {
    assert ShiftedRow([true, false], true) == [false, true];
  }

  /** A shift changes only row `y`, and replaces it by the shifted row. */
  lemma ShiftOnlyRow(l: seq<bool>, w: nat, h: nat, y: int, right: bool, cx: int, cy: int)
    requires |l| == w * h && 0 <= y < h && w >= 1 && InRange(w, h, cx, cy)
    ensures LightAt(ShiftRule(l, w, h, y, right), w, h, cx, cy) ==
            if cy == y then ShiftedRow(RowOf(l, w, h, y), right)[cx] else LightAt(l, w, h, cx, cy)
  {
    CellIndex(w, h, cx, cy);
  }

  // ---------------------------------------------------------------------
  // Symmetry

  /** A horizontal symmetry with both neighbouring columns present swaps them. */
  lemma HorizontalSwapAt(l: seq<bool>, w: nat, h: nat, x: int, y: int, cx: int, cy: int)
    requires |l| == w * h && InRange(w, h, x, y) && 1 <= x < w - 1 && InRange(w, h, cx, cy)
    ensures LightAt(SymmetryRule(l, w, h, x, y, true), w, h, cx, cy) ==
      if (cx, cy) == (x, y) then !LightAt(l, w, h, cx, cy)
      else if cx == x - 1 then LightAt(l, w, h, x + 1, cy)
      else if cx == x + 1 then LightAt(l, w, h, x - 1, cy)
      else LightAt(l, w, h, cx, cy)
  {
    CellIndex(w, h, cx, cy);
  }

  /** A vertical symmetry with both neighbouring rows present swaps them. */
  lemma VerticalSwapAt(l: seq<bool>, w: nat, h: nat, x: int, y: int, cx: int, cy: int)
    requires |l| == w * h && InRange(w, h, x, y) && 1 <= y < h - 1 && InRange(w, h, cx, cy)
    ensures LightAt(SymmetryRule(l, w, h, x, y, false), w, h, cx, cy) ==
      if (cx, cy) == (x, y) then !LightAt(l, w, h, cx, cy)
      else if cy == y + 1 then LightAt(l, w, h, cx, y - 1)
      else if cy == y - 1 then LightAt(l, w, h, cx, y + 1)
      else LightAt(l, w, h, cx, cy)
  {
    CellIndex(w, h, cx, cy);
  }

  /** Two horizontal symmetries at one button restore each cell. */
  lemma HorizontalTwiceAt(l: seq<bool>, w: nat, h: nat, x: int, y: int, cx: int, cy: int)
    requires |l| == w * h && InRange(w, h, x, y) && 1 <= x < w - 1 && InRange(w, h, cx, cy)
    ensures LightAt(SymmetryRule(SymmetryRule(l, w, h, x, y, true), w, h, x, y, true), w, h, cx, cy)
      == LightAt(l, w, h, cx, cy)
  {
    var l1 := SymmetryRule(l, w, h, x, y, true);
    HorizontalSwapAt(l1, w, h, x, y, cx, cy);
    if (cx, cy) == (x, y) {
      HorizontalSwapAt(l, w, h, x, y, cx, cy);
    } else if cx == x - 1 {
      HorizontalSwapAt(l, w, h, x, y, x + 1, cy);
    } else if cx == x + 1 {
      HorizontalSwapAt(l, w, h, x, y, x - 1, cy);
    } else {
      HorizontalSwapAt(l, w, h, x, y, cx, cy);
    }
  }

  /** Two vertical symmetries at one button restore each cell. */
  lemma VerticalTwiceAt(l: seq<bool>, w: nat, h: nat, x: int, y: int, cx: int, cy: int)
    requires |l| == w * h && InRange(w, h, x, y) && 1 <= y < h - 1 && InRange(w, h, cx, cy)
    ensures LightAt(SymmetryRule(SymmetryRule(l, w, h, x, y, false), w, h, x, y, false), w, h, cx, cy)
      == LightAt(l, w, h, cx, cy)
  {
    var l1 := SymmetryRule(l, w, h, x, y, false);
    VerticalSwapAt(l1, w, h, x, y, cx, cy);
    if (cx, cy) == (x, y) {
      VerticalSwapAt(l, w, h, x, y, cx, cy);
    } else if cy == y + 1 {
      VerticalSwapAt(l, w, h, x, y, cx, y - 1);
    } else if cy == y - 1 {
      VerticalSwapAt(l, w, h, x, y, cx, y + 1);
    } else {
      VerticalSwapAt(l, w, h, x, y, cx, cy);
    }
  }

  /** Two lights vectors that agree on every cell are equal. */
  lemma CellwiseEqual(a: seq<bool>, b: seq<bool>, w: nat, h: nat)
    requires |a| == w * h && |b| == w * h
    requires forall cx, cy | InRange(w, h, cx, cy) :: LightAt(a, w, h, cx, cy) == LightAt(b, w, h, cx, cy)
    ensures a == b
  {
    forall i | 0 <= i < |a|
      ensures a[i] == b[i]
    {
      var cx, cy := Col(w, h, i), Row(w, h, i);
      assert LightAt(a, w, h, cx, cy) == LightAt(b, w, h, cx, cy);
    }
  }

  /** When both neighbouring columns (or rows) exist, symmetry swaps them,
      so clicking the same button twice restores the grid. */
  lemma SymmetryTwiceRestores(l: seq<bool>, w: nat, h: nat, x: int, y: int, horizontal: bool)
    requires |l| == w * h && InRange(w, h, x, y)
    requires horizontal ==> 1 <= x < w - 1
    requires !horizontal ==> 1 <= y < h - 1
    ensures SymmetryRule(SymmetryRule(l, w, h, x, y, horizontal), w, h, x, y, horizontal) == l
  {
    var l2 := SymmetryRule(SymmetryRule(l, w, h, x, y, horizontal), w, h, x, y, horizontal);
    forall cx, cy | InRange(w, h, cx, cy)
      ensures LightAt(l2, w, h, cx, cy) == LightAt(l, w, h, cx, cy)
    {
      if horizontal {
        HorizontalTwiceAt(l, w, h, x, y, cx, cy);
      } else {
        VerticalTwiceAt(l, w, h, x, y, cx, cy);
      }
    }
    CellwiseEqual(l2, l, w, h);
  }

  /** Symmetry changes only the clicked cell and the two neighbouring
      columns (horizontal) or rows (vertical). */
  lemma SymmetryStaysNear(l: seq<bool>, w: nat, h: nat, x: int, y: int, horizontal: bool, cx: int, cy: int)
    requires |l| == w * h && InRange(w, h, x, y) && InRange(w, h, cx, cy)
    requires (cx, cy) != (x, y)
    requires horizontal ==> cx != x - 1 && cx != x + 1
    requires !horizontal ==> cy != y - 1 && cy != y + 1
    ensures LightAt(SymmetryRule(l, w, h, x, y, horizontal), w, h, cx, cy) == LightAt(l, w, h, cx, cy)
  {
    CellIndex(w, h, cx, cy);
  }
}
