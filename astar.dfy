/**
 * The best-first search of src/toggle/astar.rs. The search keeps a queue of
 * items (a snapshot of the lights, a coordinate, the clicks that led there)
 * ordered by `-(diff * diff + 2 * clicks)`, and a set of the snapshots it has
 * seen. Every snapshot is produced on the grid by restoring the parent's
 * snapshot, clicking one button and reading the lights back.
 */
module Astar {
  import opened BitArrays
  import opened Buttons
  import opened Rules
  import opened Grids
  import RuleProperties
  import Reader

  /** SolverItem: `coord` is never written after SolverItem::new, so every
      item of the search carries `(0, 0)` there. */
  datatype SolverItem = SolverItem(state: Bits, coord: Coordinate, orders: seq<Coordinate>)

  datatype Result = Success(orders: seq<Coordinate>) | Fail

  /** An entry of the priority queue: an item and its priority. */
  datatype Entry = Entry(item: SolverItem, priority: int)

  // ---------------------------------------------------------------------
  // The level the search runs on

  function Cells(level: ToggleLevel): nat
  {
    level.width * level.height
  }

  /** What run_astar needs of a level not to panic: a subtype and a state
      bit for every cell, and a row that fits solve_shift's 16-entry buffer
      whenever the level has a Shift button (the search clicks every button). */
  predicate LevelOk(level: ToggleLevel)
  {
    Cells(level) <= |level.subtypes| && Cells(level) <= 8 * |level.states.bytes| &&
    forall i :: 0 <= i < Cells(level) && ConvertSubtypeToFunc(level.subtypes[i]).Shift? ==> level.width <= 16
  }

  /** The rule of the button of an in-range cell of the level. */
  function FuncOf(level: ToggleLevel, c: Coordinate): ButtonFunction
    requires LevelOk(level) && InRange(level.width, level.height, c.x, c.y)
  {
    FuncAt(LevelFuncs(level), level.width, level.height, c.x, c.y)
  }

  /** A button the search may click: in range and not `Nothing`. */
  predicate Clickable(level: ToggleLevel, c: Coordinate)
    requires LevelOk(level)
  {
    InRange(level.width, level.height, c.x, c.y) && !FuncOf(level, c).Nothing?
  }

  predicate InGrid(level: ToggleLevel, orders: seq<Coordinate>)
  {
    forall k :: 0 <= k < |orders| ==> InRange(level.width, level.height, orders[k].x, orders[k].y)
  }

  /** The lights of the level as decoded. */
  function InitialLights(level: ToggleLevel): (l: seq<bool>)
    requires LevelOk(level)
    ensures |l| == Cells(level)
  {
    LightsOf(level.states, level.width, level.height)
  }

  /** The snapshot the search starts from (`previous_state` before the loop). */
  function StartState(level: ToggleLevel): Bits
    requires LevelOk(level)
  {
    Snapshot(InitialLights(level), level.width, level.height)
  }

  /** The lights of a grid of `n` cells that are all off. */
  function AllOff(n: nat): (l: seq<bool>)
    ensures |l| == n && forall i :: 0 <= i < n ==> !l[i]
  {
    seq(n, _ => false)
  }

  /** The snapshot of a grid whose lights are all off. */
  function TargetState(level: ToggleLevel): Bits
  {
    Snapshot(AllOff(Cells(level)), level.width, level.height)
  }

  /** The snapshot the search reads back after restoring `s` on the grid and
      clicking `c`. */
  function Successor(level: ToggleLevel, s: Bits, c: Coordinate): (r: Bits)
    requires LevelOk(level) && Cells(level) <= 8 * |s.bytes| && InRange(level.width, level.height, c.x, c.y)
    ensures r.len == Cells(level) && |r.bytes| == ByteCount(Cells(level)) && Cells(level) <= 8 * |r.bytes|
  {
    var w, h := level.width, level.height;
    Snapshot(Click(LightsOf(s, w, h), w, h, FuncOf(level, c), c.x, c.y), w, h)
  }

  /** The snapshot after clicking `orders` one after the other from `s`. */
  function Replay(level: ToggleLevel, s: Bits, orders: seq<Coordinate>): (r: Bits)
    requires LevelOk(level) && Cells(level) <= 8 * |s.bytes| && InGrid(level, orders)
    ensures Cells(level) <= 8 * |r.bytes|
    ensures orders != [] ==> r.len == Cells(level) && |r.bytes| == ByteCount(Cells(level))
    decreases |orders|
  {
    if orders == [] then s
    else Successor(level, Replay(level, s, orders[..|orders| - 1]), orders[|orders| - 1])
  }

  /** The lights after clicking `orders` one after the other from `l`. */
  function Play(level: ToggleLevel, l: seq<bool>, orders: seq<Coordinate>): (r: seq<bool>)
    requires LevelOk(level) && |l| == Cells(level) && InGrid(level, orders)
    ensures |r| == Cells(level)
    decreases |orders|
  {
    if orders == [] then l
    else
      var c := orders[|orders| - 1];
      Click(Play(level, l, orders[..|orders| - 1]), level.width, level.height, FuncOf(level, c), c.x, c.y)
  }

  /** Clicking `orders` from the level's own lights switches every light off. */
  predicate Solves(level: ToggleLevel, orders: seq<Coordinate>)
    requires LevelOk(level) && InGrid(level, orders)
  {
    forall i :: 0 <= i < Cells(level) ==> !Play(level, InitialLights(level), orders)[i]
  }

  /** Replaying clicks on snapshots is playing them on the lights: the
      round trip through set_states and get_states loses nothing. */
  lemma {:induction false} ReplayIsPlay(level: ToggleLevel, l: seq<bool>, orders: seq<Coordinate>)
    requires LevelOk(level) && |l| == Cells(level) && InGrid(level, orders)
    ensures Replay(level, Snapshot(l, level.width, level.height), orders) ==
            Snapshot(Play(level, l, orders), level.width, level.height)
    decreases |orders|
  {
    if orders != [] {
      var prefix := orders[..|orders| - 1];
      ReplayIsPlay(level, l, prefix);
      SetStatesOfSnapshot(Play(level, l, prefix), level.width, level.height);
    }
  }

  // ---------------------------------------------------------------------
  // calculate_diff, calculate_cost, is_arrow

  /** calculate_diff: the number of bits below the length where the two
      arrays differ (the source asserts that the lengths agree). */
  method CalculateDiff(b1: Bits, b2: Bits) returns (diff: int)
    requires b1.len == b2.len
    requires b2.len <= 8 * |b1.bytes| && b2.len <= 8 * |b2.bytes|
    ensures diff == RuleProperties.CountDiff(Unpack(b1, b2.len), Unpack(b2, b2.len), b2.len)
    ensures 0 <= diff <= b2.len
    ensures diff == 0 <==> Unpack(b1, b2.len) == Unpack(b2, b2.len)
  {
    ghost var u1, u2 := Unpack(b1, b2.len), Unpack(b2, b2.len);
    diff := 0;
    for i := 0 to b2.len
      invariant diff == RuleProperties.CountDiff(u1, u2, i)
    {
      assert u1[i] == BitAt(b1, i) && u2[i] == BitAt(b2, i);
      assert RuleProperties.CountDiff(u1, u2, i + 1) ==
             RuleProperties.CountDiff(u1, u2, i) + (if u1[i] != u2[i] then 1 else 0);
      if BitAt(b1, i) != BitAt(b2, i) {
        diff := diff + 1;
      }
    }
    CountDiffZeroAll(u1, u2);
  }

  /** The count of differing positions is zero exactly when the two agree
      on every position below `n`. */
  lemma {:induction false} CountDiffZero(a: seq<bool>, b: seq<bool>, n: nat)
    requires n <= |a| && n <= |b|
    ensures RuleProperties.CountDiff(a, b, n) == 0 <==> a[..n] == b[..n]
  {
    if n > 0 {
      CountDiffZero(a, b, n - 1);
      assert a[..n] == a[..n - 1] + [a[n - 1]];
      assert b[..n] == b[..n - 1] + [b[n - 1]];
      if a[..n] == b[..n] {
        assert a[..n - 1] == a[..n][..n - 1];
        assert b[..n - 1] == b[..n][..n - 1];
      }
    }
  }

  /** calculate_cost: the squared number of bits where the item's snapshot
      differs from the target, plus twice the number of clicks that led to
      it. The cost never falls below twice the number of clicks, and meets
      that bound exactly when the snapshot is the target. */
  function CalculateCost(a: SolverItem, targetState: Bits): (cost: int)
    requires a.state.len == targetState.len
    requires targetState.len <= 8 * |a.state.bytes| && targetState.len <= 8 * |targetState.bytes|
    ensures cost >= 2 * |a.orders|
    ensures cost == 2 * |a.orders| <==> Unpack(a.state, targetState.len) == Unpack(targetState, targetState.len)
  {
    var n := targetState.len;
    var d := RuleProperties.CountDiff(Unpack(a.state, n), Unpack(targetState, n), n);
    CountDiffZero(Unpack(a.state, n), Unpack(targetState, n), n);
    SquareOfCount(d);
    d * d + 2 * |a.orders|
  }

  lemma SquareOfCount(d: int)
    requires 0 <= d
    ensures d * d >= 0 && (d * d == 0 <==> d == 0)
  {
    if d > 0 {
      assert d * d >= d;
    }
  }

  /** is_arrow: the one-, two- and four-way arrows. */
  function IsArrow(f: ButtonFunction): (r: bool)
    ensures r ==> Flips(f)
    ensures Flips(f) && !r <==> f.AroundEight?
  {
    match f
    case OneArrow(_) | TwoArrow(_) | FourArrow => true
    case _ => false
  }

  /** Clicking a button that only flips a fixed set of lights twice in a row
      brings back the snapshot from before the two clicks; the arrows that
      the pruning of run_astar tests for are such buttons. */
  lemma FlipTwiceRestores(level: ToggleLevel, s: Bits, c: Coordinate)
    requires LevelOk(level) && InRange(level.width, level.height, c.x, c.y)
    requires Cells(level) <= 8 * |s.bytes|
    requires s == Snapshot(LightsOf(s, level.width, level.height), level.width, level.height)
    requires Flips(FuncOf(level, c))
    ensures Successor(level, Successor(level, s, c), c) == s
  {
    var w, h := level.width, level.height;
    var l := LightsOf(s, w, h);
    var once := Click(l, w, h, FuncOf(level, c), c.x, c.y);
    SetStatesOfSnapshot(once, w, h);
    RuleProperties.ArrowClickSelfInverse(l, w, h, FuncOf(level, c), c.x, c.y);
  }

  /** A level that passes LevelOk never hands solve_shift a row longer than
      its buffer. */
  lemma ShiftFits(level: ToggleLevel, c: Coordinate)
    requires LevelOk(level) && InRange(level.width, level.height, c.x, c.y)
    ensures FuncOf(level, c).Shift? ==> level.width <= 16
  {
    IndexInRange(level.width, level.height, c.x, c.y);
  }

  // ---------------------------------------------------------------------
  // The snapshots the search can meet: a finite set, so the search stops

  /** Every boolean sequence of length `n`. */
  ghost function AllBits(n: nat): set<seq<bool>>
  {
    if n == 0 then {[]}
    else set b, v | b in AllBits(n - 1) && v in {false, true} :: b + [v]
  }

  lemma {:induction false} AllBitsComplete(b: seq<bool>)
    ensures b in AllBits(|b|)
    decreases |b|
  {
    if b != [] {
      var front, last := b[..|b| - 1], b[|b| - 1];
      AllBitsComplete(front);
      assert |front| == |b| - 1 && last in {false, true};
      assert b == front + [last];
    }
  }

  /** The keys of every snapshot of the level's grid. */
  ghost function Universe(level: ToggleLevel): set<seq<bv8>>
  {
    set b | b in AllBits(Cells(level)) :: Key(Pack(b))
  }

  lemma SnapshotInUniverse(level: ToggleLevel, l: seq<bool>)
    requires |l| == Cells(level)
    ensures Key(Snapshot(l, level.width, level.height)) in Universe(level)
  {
    var b := StatesOf(l, level.width, level.height);
    AllBitsComplete(b);
    assert Key(Pack(b)) in Universe(level);
  }

  // ---------------------------------------------------------------------
  // What the search keeps true of every item in its queue

  /** No snapshot along `orders` (from the start onwards) comes back, except
      that the first click may lead back to the start: the first clicks are
      queued without a look at the visited set. */
  ghost predicate NoRepeat(level: ToggleLevel, orders: seq<Coordinate>)
    requires LevelOk(level) && InGrid(level, orders)
  {
    forall j, k :: 2 <= j <= |orders| && 0 <= k < j ==>
      Replay(level, StartState(level), orders[..j]) != Replay(level, StartState(level), orders[..k])
  }

  /** The pruning as written: it compares every cell with the item's `coord`,
      which is always `(0, 0)`, so when the button at `(0, 0)` is an arrow it
      is never clicked again after the first click. */
  ghost predicate CornerRule(level: ToggleLevel, orders: seq<Coordinate>)
    requires LevelOk(level)
  {
    InRange(level.width, level.height, 0, 0) && IsArrow(FuncOf(level, Coordinate(0, 0))) ==>
      forall k :: 1 <= k < |orders| ==> orders[k] != Coordinate(0, 0)
  }

  /** The key of the snapshot after every prefix of `orders`, the empty
      prefix included, has been visited. */
  ghost predicate PrefixesVisited(level: ToggleLevel, orders: seq<Coordinate>, visited: set<seq<bv8>>)
    requires LevelOk(level) && InGrid(level, orders)
  {
    forall k :: 0 <= k <= |orders| ==> Key(Replay(level, StartState(level), orders[..k])) in visited
  }

  /** Everything the search knows about a queued item, given the set of
      snapshot keys it has visited. */
  ghost predicate Reached(level: ToggleLevel, item: SolverItem, visited: set<seq<bv8>>)
    requires LevelOk(level)
  {
    1 <= |item.orders| && InGrid(level, item.orders) &&
    (forall k :: 0 <= k < |item.orders| ==> Clickable(level, item.orders[k])) &&
    item.coord == Coordinate(0, 0) &&
    item.state == Replay(level, StartState(level), item.orders) &&
    PrefixesVisited(level, item.orders, visited) &&
    NoRepeat(level, item.orders) &&
    CornerRule(level, item.orders)
  }

  lemma ReachedGrows(level: ToggleLevel, item: SolverItem, visited: set<seq<bv8>>, more: set<seq<bv8>>)
    requires LevelOk(level) && Reached(level, item, visited) && visited <= more
    ensures Reached(level, item, more)
  {
  }

  /** An item queued by the first loop of run_astar. */
  lemma ReachedFirst(level: ToggleLevel, c: Coordinate, visited: set<seq<bv8>>)
    requires LevelOk(level) && Clickable(level, c)
    requires Key(StartState(level)) in visited
    requires Key(Successor(level, StartState(level), c)) in visited
    ensures Reached(level, SolverItem(Successor(level, StartState(level), c), Coordinate(0, 0), [c]), visited)
  {
    var o := [c];
    assert o[..0] == [] && o[..1] == o;
    assert o[..|o| - 1] == [];
  }

  /** Appending a click keeps every prefix and replays one step further. */
  lemma ReplayAppend(level: ToggleLevel, orders: seq<Coordinate>, c: Coordinate)
    requires LevelOk(level) && InGrid(level, orders) && InRange(level.width, level.height, c.x, c.y)
    ensures InGrid(level, orders + [c])
    ensures forall k :: 0 <= k <= |orders| ==> (orders + [c])[..k] == orders[..k]
    ensures Replay(level, StartState(level), orders + [c]) ==
            Successor(level, Replay(level, StartState(level), orders), c)
  {
    var o' := orders + [c];
    assert o'[..|o'| - 1] == orders;
  }

  lemma PrefixesExtend(level: ToggleLevel, orders: seq<Coordinate>, visited: set<seq<bv8>>, c: Coordinate)
    requires LevelOk(level) && InGrid(level, orders) && InRange(level.width, level.height, c.x, c.y)
    requires PrefixesVisited(level, orders, visited)
    ensures InGrid(level, orders + [c])
    ensures PrefixesVisited(level, orders + [c],
      visited + {Key(Successor(level, Replay(level, StartState(level), orders), c))})
  {
    var o' := orders + [c];
    ReplayAppend(level, orders, c);
    assert o'[..|o'|] == o';
  }

  lemma NoRepeatExtends(level: ToggleLevel, orders: seq<Coordinate>, visited: set<seq<bv8>>, c: Coordinate)
    requires LevelOk(level) && InGrid(level, orders) && InRange(level.width, level.height, c.x, c.y)
    requires PrefixesVisited(level, orders, visited) && NoRepeat(level, orders)
    requires Key(Successor(level, Replay(level, StartState(level), orders), c)) !in visited
    ensures InGrid(level, orders + [c]) && NoRepeat(level, orders + [c])
  {
    var o' := orders + [c];
    ReplayAppend(level, orders, c);
    forall j, k | 2 <= j <= |o'| && 0 <= k < j
      ensures Replay(level, StartState(level), o'[..j]) != Replay(level, StartState(level), o'[..k])
    {
      if j > |orders| {
        NewLast(level, orders, visited, c, j, k);
      } else {
        OldPair(level, orders, c, j, k);
      }
    }
  }

  /** The snapshot after the whole extended list is new, so it differs from
      the one after every shorter prefix. */
  lemma NewLast(level: ToggleLevel, orders: seq<Coordinate>, visited: set<seq<bv8>>, c: Coordinate, j: nat, k: nat)
    requires LevelOk(level) && InGrid(level, orders) && InRange(level.width, level.height, c.x, c.y)
    requires PrefixesVisited(level, orders, visited) && j == |orders| + 1 && k <= |orders|
    requires Key(Successor(level, Replay(level, StartState(level), orders), c)) !in visited
    ensures InGrid(level, orders + [c])
    ensures Replay(level, StartState(level), (orders + [c])[..j]) !=
            Replay(level, StartState(level), (orders + [c])[..k])
  {
    var o' := orders + [c];
    ReplayAppend(level, orders, c);
    assert o'[..j] == o';
    assert o'[..k] == orders[..k];
    assert Key(Replay(level, StartState(level), orders[..k])) in visited;
  }

  /** Two prefixes that stop inside the old list are old prefixes. */
  lemma OldPair(level: ToggleLevel, orders: seq<Coordinate>, c: Coordinate, j: nat, k: nat)
    requires LevelOk(level) && InGrid(level, orders) && InRange(level.width, level.height, c.x, c.y)
    requires NoRepeat(level, orders) && 2 <= j <= |orders| && k < j
    ensures InGrid(level, orders + [c])
    ensures Replay(level, StartState(level), (orders + [c])[..j]) !=
            Replay(level, StartState(level), (orders + [c])[..k])
  {
    var o' := orders + [c];
    ReplayAppend(level, orders, c);
    assert o'[..j] == orders[..j];
    assert o'[..k] == orders[..k];
  }

  /** An item queued while expanding `item`: the click `c` leads to a
      snapshot that was not visited yet, and the pruning let `c` through. */
  lemma ReachedExtends(level: ToggleLevel, item: SolverItem, visited: set<seq<bv8>>, c: Coordinate)
    requires LevelOk(level) && Reached(level, item, visited) && Clickable(level, c)
    requires Key(Successor(level, item.state, c)) !in visited
    requires !(c == Coordinate(0, 0) && IsArrow(FuncOf(level, c)))
    ensures Reached(level,
      SolverItem(Successor(level, item.state, c), Coordinate(0, 0), item.orders + [c]),
      visited + {Key(Successor(level, item.state, c))})
  {
    var o, o' := item.orders, item.orders + [c];
    ReplayAppend(level, o, c);
    PrefixesExtend(level, o, visited, c);
    NoRepeatExtends(level, o, visited, c);
    assert forall k :: 0 <= k < |o'| ==> Clickable(level, o'[k]);
  }

  /** A queued item whose snapshot matches the target solves the level, and
      conversely. */
  lemma DiffZeroSolves(level: ToggleLevel, orders: seq<Coordinate>)
    requires LevelOk(level) && InGrid(level, orders) && orders != []
    ensures var s, t := Replay(level, StartState(level), orders), TargetState(level);
      RuleProperties.CountDiff(Unpack(s, Cells(level)), Unpack(t, Cells(level)), Cells(level)) == 0
      <==> Solves(level, orders)
  {
    var p := Play(level, InitialLights(level), orders);
    ReplayIsPlay(level, InitialLights(level), orders);
    DiffZeroMeansDark(p, level.width, level.height);
  }

  /** The snapshot of `p` differs from the all-dark one in no bit exactly
      when every light of `p` is off. */
  lemma DiffZeroMeansDark(p: seq<bool>, w: nat, h: nat)
    requires |p| == w * h
    ensures var n := w * h;
      RuleProperties.CountDiff(Unpack(Snapshot(p, w, h), n), Unpack(Snapshot(AllOff(n), w, h), n), n) == 0
      <==> forall i :: 0 <= i < n ==> !p[i]
  {
    var n := w * h;
    var z := AllOff(n);
    CountDiffZeroAll(Unpack(Snapshot(p, w, h), n), Unpack(Snapshot(z, w, h), n));
    SnapshotBitsInjective(p, z, w, h);
    AllOffIff(p);
  }

  /** CountDiffZero over whole sequences of the same length. */
  lemma CountDiffZeroAll(a: seq<bool>, b: seq<bool>)
    requires |a| == |b|
    ensures RuleProperties.CountDiff(a, b, |a|) == 0 <==> a == b
  {
    CountDiffZero(a, b, |a|);
    assert a[..|a|] == a && b[..|a|] == b;
  }

  /** The lights are all off exactly when they are `AllOff`. */
  lemma AllOffIff(p: seq<bool>)
    ensures p == AllOff(|p|) <==> forall i :: 0 <= i < |p| ==> !p[i]
  {
    if forall i :: 0 <= i < |p| ==> !p[i] {
      assert p == AllOff(|p|);
    }
  }

  /** A corollary of NoRepeat: no path the search builds clicks a flipping
      button twice in a row, the first two clicks included. */
  lemma NoFlipTwice(level: ToggleLevel, orders: seq<Coordinate>, k: nat)
    requires LevelOk(level) && InGrid(level, orders) && NoRepeat(level, orders)
    requires k + 1 < |orders| && orders[k] == orders[k + 1]
    ensures !Flips(FuncOf(level, orders[k]))
  {
    var start := StartState(level);
    var c := orders[k];
    if Flips(FuncOf(level, c)) {
      var s := Replay(level, start, orders[..k]);
      assert orders[..k + 1][..k] == orders[..k];
      assert orders[..k + 2][..k + 1] == orders[..k + 1];
      assert Replay(level, start, orders[..k + 1]) == Successor(level, s, c);
      assert Replay(level, start, orders[..k + 2]) == Successor(level, Successor(level, s, c), c);
      var p := Play(level, InitialLights(level), orders[..k]);
      ReplayIsPlay(level, InitialLights(level), orders[..k]);
      SnapshotStable(p, level.width, level.height);
      FlipTwiceRestores(level, s, c);
      assert false;
    }
  }

  // ---------------------------------------------------------------------
  // run_astar

  /** The grid run_astar works on: built from `level`, so it has the
      level's shape and rules; only its lights change during the search. */
  predicate GridOf(grid: Grid, level: ToggleLevel)
    reads grid
  {
    grid.Valid() && grid.width == level.width && grid.height == level.height &&
    level.width * level.height <= |level.subtypes| && grid.Funcs() == LevelFuncs(level)
  }

  /** A queue entry carries the negated cost of its item. */
  predicate Prioritised(e: Entry, target: Bits)
  {
    e.item.state.len == target.len &&
    target.len <= 8 * |e.item.state.bytes| && target.len <= 8 * |target.bytes| &&
    e.priority == -1 * CalculateCost(e.item, target)
  }

  /** PriorityQueue::pop: the position of an entry of highest priority (the
      first such). */
  method PopBest(pq: seq<Entry>) returns (best: nat)
    requires pq != []
    ensures best < |pq|
    ensures forall j :: 0 <= j < |pq| ==> pq[j].priority <= pq[best].priority
    ensures forall j :: 0 <= j < best ==> pq[j].priority < pq[best].priority
  {
    best := 0;
    for i := 1 to |pq|
      invariant best < i
      invariant forall j :: 0 <= j < i ==> pq[j].priority <= pq[best].priority
      invariant forall j :: 0 <= j < best ==> pq[j].priority < pq[best].priority
    {
      if pq[i].priority > pq[best].priority {
        best := i;
      }
    }
  }

  /** set_states, click, get_states: the snapshot one click away from `prev`. */
  method ClickFrom(grid: Grid, level: ToggleLevel, prev: Bits, c: Coordinate) returns (s: Bits)
    requires LevelOk(level) && GridOf(grid, level)
    requires Cells(level) <= 8 * |prev.bytes| && InRange(level.width, level.height, c.x, c.y)
    modifies grid
    ensures GridOf(grid, level)
    ensures s == Successor(level, prev, c)
  {
    grid.SetStates(prev);
    ShiftFits(level, c);
    grid.Click(c.x, c.y);
    var states := grid.GetStates();
    s := states.Value();
  }

  /** The queue and the visited set as the search keeps them: every
      visited key is the key of some snapshot of the grid, and every entry
      is a reached item with its cost as priority. */
  ghost predicate QueueOk(level: ToggleLevel, pq: seq<Entry>, visited: set<seq<bv8>>, target: Bits)
    requires LevelOk(level)
  {
    visited <= Universe(level) &&
    forall j :: 0 <= j < |pq| ==> Queued(level, pq[j], visited, target)
  }

  /** A queue entry is a reached item with its cost as priority. */
  ghost predicate Queued(level: ToggleLevel, e: Entry, visited: set<seq<bv8>>, target: Bits)
    requires LevelOk(level)
  {
    Reached(level, e.item, visited) && Prioritised(e, target)
  }

  lemma QueueGrows(level: ToggleLevel, pq: seq<Entry>, visited: set<seq<bv8>>, more: set<seq<bv8>>, target: Bits)
    requires LevelOk(level) && QueueOk(level, pq, visited, target) && visited <= more <= Universe(level)
    ensures QueueOk(level, pq, more, target)
  {
    forall j | 0 <= j < |pq|
      ensures Queued(level, pq[j], more, target)
    {
      ReachedGrows(level, pq[j].item, visited, more);
    }
  }

  /** The first click `c` has been made and its snapshot marked visited. */
  ghost predicate FirstVisited(level: ToggleLevel, visited: set<seq<bv8>>, c: Coordinate)
    requires LevelOk(level)
  {
    Clickable(level, c) ==> Key(Successor(level, StartState(level), c)) in visited
  }

  /** The entry the first loop of run_astar queues for the button `c`: its
      one click from the start, with its negated cost as priority. */
  function FirstEntry(level: ToggleLevel, target: Bits, c: Coordinate): Entry
    requires LevelOk(level) && InRange(level.width, level.height, c.x, c.y) && target == TargetState(level)
  {
    var item := SolverItem(Successor(level, StartState(level), c), Coordinate(0, 0), [c]);
    Entry(item, -1 * CalculateCost(item, target))
  }

  /** The first click of `c` is in the queue, when `c` can be clicked. */
  ghost predicate Seeded(level: ToggleLevel, target: Bits, pq: seq<Entry>, c: Coordinate)
    requires LevelOk(level) && target == TargetState(level)
  {
    Clickable(level, c) ==> exists j :: 0 <= j < |pq| && pq[j] == FirstEntry(level, target, c)
  }

  /** Appending to the queue keeps what it held. */
  lemma SeededAppend(level: ToggleLevel, target: Bits, pq: seq<Entry>, extra: seq<Entry>, c: Coordinate)
    requires LevelOk(level) && target == TargetState(level) && Seeded(level, target, pq, c)
    ensures Seeded(level, target, pq + extra, c)
  {
    if Clickable(level, c) {
      var j :| 0 <= j < |pq| && pq[j] == FirstEntry(level, target, c);
      assert (pq + extra)[j] == pq[j];
    }
  }

  /** One cell of the first loop of run_astar: a button that is not
      `Nothing` is clicked from the start, queued and its snapshot marked
      visited. */
  method SeedCell(grid: Grid, level: ToggleLevel, start: Bits, target: Bits,
                  pq0: seq<Entry>, visited0: set<seq<bv8>>, x: int, y: int)
    returns (pq: seq<Entry>, visited: set<seq<bv8>>)
    requires LevelOk(level) && GridOf(grid, level) && InRange(level.width, level.height, x, y)
    requires start == StartState(level) && target == TargetState(level)
    requires Key(start) in visited0 && QueueOk(level, pq0, visited0, target)
    modifies grid
    ensures GridOf(grid, level)
    ensures visited0 <= visited && QueueOk(level, pq, visited, target)
    ensures FirstVisited(level, visited, Coordinate(x, y))
    ensures Clickable(level, Coordinate(x, y)) ==>
      pq == pq0 + [FirstEntry(level, target, Coordinate(x, y))] &&
      visited == visited0 + {Key(Successor(level, start, Coordinate(x, y)))}
    ensures !Clickable(level, Coordinate(x, y)) ==> pq == pq0 && visited == visited0
  {
    pq, visited := pq0, visited0;
    var c := Coordinate(x, y);
    grid.AtCell(x, y);
    var func := grid.At(x, y).value.func;
    assert func == FuncOf(level, c);
    assert !func.Nothing? <==> Clickable(level, c);
    if !func.Nothing? {
      var s := ClickFrom(grid, level, start, c);
      var item := SolverItem(s, Coordinate(0, 0), [c]);
      var cost := CalculateCost(item, target);
      SetStatesOfSnapshot(InitialLights(level), level.width, level.height);
      SnapshotInUniverse(level, Click(InitialLights(level), level.width, level.height, FuncOf(level, c), x, y));
      var more := visited + {Key(s)};
      QueueGrows(level, pq, visited, more, target);
      ReachedFirst(level, c, more);
      assert Entry(item, -1 * cost) == FirstEntry(level, target, c);
      pq := pq + [Entry(item, -1 * cost)];
      visited := more;
    }
  }

  /** The first loop of run_astar: every button that is not `Nothing` is
      clicked once from the start, queued and its snapshot marked visited;
      nothing else is queued. */
  method SeedQueue(grid: Grid, level: ToggleLevel, start: Bits, target: Bits, visited0: set<seq<bv8>>)
    returns (pq: seq<Entry>, visited: set<seq<bv8>>)
    requires LevelOk(level) && GridOf(grid, level)
    requires start == StartState(level) && target == TargetState(level)
    requires Key(start) in visited0 && visited0 <= Universe(level)
    modifies grid
    ensures GridOf(grid, level)
    ensures visited0 <= visited && QueueOk(level, pq, visited, target)
    ensures forall c :: FirstVisited(level, visited, c)
    ensures forall c :: Seeded(level, target, pq, c)
    ensures OnlyFirst(level, target, pq)
  {
    pq, visited := [], visited0;
    for y := 0 to grid.height
      invariant GridOf(grid, level)
      invariant visited0 <= visited && QueueOk(level, pq, visited, target)
      invariant forall c: Coordinate :: c.y < y ==> FirstVisited(level, visited, c)
      invariant forall c: Coordinate :: c.y < y ==> Seeded(level, target, pq, c)
      invariant OnlyFirst(level, target, pq)
    {
      for x := 0 to grid.width
        invariant GridOf(grid, level)
        invariant visited0 <= visited && QueueOk(level, pq, visited, target)
        invariant forall c: Coordinate :: (c.y < y || (c.y == y && c.x < x)) ==> FirstVisited(level, visited, c)
        invariant forall c: Coordinate :: (c.y < y || (c.y == y && c.x < x)) ==> Seeded(level, target, pq, c)
        invariant OnlyFirst(level, target, pq)
      {
        pq, visited := SeedStep(grid, level, start, target, pq, visited, x, y);
      }
    }
  }

  /** Everything in the queue is the first click of some button. */
  ghost predicate OnlyFirst(level: ToggleLevel, target: Bits, pq: seq<Entry>)
    requires LevelOk(level) && target == TargetState(level)
  {
    forall j :: 0 <= j < |pq| ==> exists c :: Clickable(level, c) && pq[j] == FirstEntry(level, target, c)
  }

  /** SeedCell, with what the loop of SeedQueue keeps about the queue. */
  method SeedStep(grid: Grid, level: ToggleLevel, start: Bits, target: Bits,
                  pq0: seq<Entry>, visited0: set<seq<bv8>>, x: int, y: int)
    returns (pq: seq<Entry>, visited: set<seq<bv8>>)
    requires LevelOk(level) && GridOf(grid, level) && InRange(level.width, level.height, x, y)
    requires start == StartState(level) && target == TargetState(level)
    requires Key(start) in visited0 && QueueOk(level, pq0, visited0, target)
    requires OnlyFirst(level, target, pq0)
    modifies grid
    ensures GridOf(grid, level)
    ensures visited0 <= visited && QueueOk(level, pq, visited, target)
    ensures FirstVisited(level, visited, Coordinate(x, y))
    ensures Seeded(level, target, pq, Coordinate(x, y))
    ensures forall c :: Seeded(level, target, pq0, c) ==> Seeded(level, target, pq, c)
    ensures OnlyFirst(level, target, pq)
  {
    pq, visited := SeedCell(grid, level, start, target, pq0, visited0, x, y);
    var c := Coordinate(x, y);
    assert pq == pq0 + pq[|pq0|..];
    forall d | Seeded(level, target, pq0, d)
      ensures Seeded(level, target, pq, d)
    {
      SeededAppend(level, target, pq0, pq[|pq0|..], d);
    }
    if Clickable(level, c) {
      assert pq[|pq0|] == FirstEntry(level, target, c);
    }
    forall j | 0 <= j < |pq|
      ensures exists d :: Clickable(level, d) && pq[j] == FirstEntry(level, target, d)
    {
      if j == |pq0| {
        assert Clickable(level, c) && pq[j] == FirstEntry(level, target, c);
      } else {
        assert pq[j] == pq0[j];
      }
    }
  }

  /** The pruning test of run_astar, with `itemFunc` the rule at the item's
      `coord`. */
  predicate Pruned(level: ToggleLevel, item: SolverItem, itemFunc: ButtonFunction, c: Coordinate)
    requires LevelOk(level) && InRange(level.width, level.height, c.x, c.y)
  {
    c == item.coord && IsArrow(itemFunc) && IsArrow(FuncOf(level, c))
  }

  /** The click `c` from `item` has been tried: it is skipped, or its
      snapshot has been visited (now or earlier). */
  ghost predicate ChildVisited(level: ToggleLevel, item: SolverItem, itemFunc: ButtonFunction,
                               visited: set<seq<bv8>>, c: Coordinate)
    requires LevelOk(level) && Cells(level) <= 8 * |item.state.bytes|
  {
    Clickable(level, c) && !Pruned(level, item, itemFunc, c) ==> Key(Successor(level, item.state, c)) in visited
  }

  /** Queueing the child of `item` reached by `c` keeps the queue as the
      search keeps it. */
  lemma QueuePush(level: ToggleLevel, item: SolverItem, c: Coordinate, pq: seq<Entry>,
                  visited: set<seq<bv8>>, target: Bits)
    requires LevelOk(level) && Reached(level, item, visited) && QueueOk(level, pq, visited, target)
    requires target == TargetState(level) && Clickable(level, c)
    requires !(c == Coordinate(0, 0) && IsArrow(FuncOf(level, c)))
    requires Key(Successor(level, item.state, c)) !in visited
    ensures var next := Successor(level, item.state, c);
      var child := SolverItem(next, Coordinate(0, 0), item.orders + [c]);
      var more := visited + {Key(next)};
      Reached(level, item, more) &&
      QueueOk(level, pq + [Entry(child, -1 * CalculateCost(child, target))], more, target)
  {
    var next := Successor(level, item.state, c);
    var more := visited + {Key(next)};
    ReplayIsPlay(level, InitialLights(level), item.orders);
    SetStatesOfSnapshot(Play(level, InitialLights(level), item.orders), level.width, level.height);
    SnapshotInUniverse(level, Click(LightsOf(item.state, level.width, level.height),
      level.width, level.height, FuncOf(level, c), c.x, c.y));
    QueueGrows(level, pq, visited, more, target);
    ReachedExtends(level, item, visited, c);
    ReachedGrows(level, item, visited, more);
  }

  /** The entry run_astar queues for the child of `item` reached by `c`:
      the item's clicks plus `c`, with its negated cost as priority. */
  function ChildEntry(level: ToggleLevel, target: Bits, item: SolverItem, c: Coordinate): Entry
    requires LevelOk(level) && InRange(level.width, level.height, c.x, c.y) && target == TargetState(level)
    requires Cells(level) <= 8 * |item.state.bytes|
  {
    var child := SolverItem(Successor(level, item.state, c), Coordinate(0, 0), item.orders + [c]);
    Entry(child, -1 * CalculateCost(child, target))
  }

  /** Clicking `c` from `item` gives a child to queue: `c` is a button,
      not pruned, and its snapshot was not visited before. */
  ghost predicate NewChild(level: ToggleLevel, item: SolverItem, itemFunc: ButtonFunction,
                           visited: set<seq<bv8>>, c: Coordinate)
    requires LevelOk(level) && Cells(level) <= 8 * |item.state.bytes|
  {
    Clickable(level, c) && !Pruned(level, item, itemFunc, c) && Key(Successor(level, item.state, c)) !in visited
  }

  /** One cell of the inner double loop of run_astar. */
  method ExpandCell(grid: Grid, level: ToggleLevel, item: SolverItem, itemFunc: ButtonFunction,
                    previousState: Bits, target: Bits, pq0: seq<Entry>, visited0: set<seq<bv8>>, x: int, y: int)
    returns (pq: seq<Entry>, visited: set<seq<bv8>>)
    requires LevelOk(level) && GridOf(grid, level) && InRange(level.width, level.height, x, y)
    requires target == TargetState(level)
    requires Reached(level, item, visited0) && QueueOk(level, pq0, visited0, target)
    requires previousState == item.state && itemFunc == FuncOf(level, item.coord)
    modifies grid
    ensures GridOf(grid, level)
    ensures visited0 <= visited && Reached(level, item, visited) && QueueOk(level, pq, visited, target)
    ensures |pq0| <= |pq| && pq[..|pq0|] == pq0
    ensures visited == visited0 ==> pq == pq0
    ensures ChildVisited(level, item, itemFunc, visited, Coordinate(x, y))
    ensures NewChild(level, item, itemFunc, visited0, Coordinate(x, y)) ==>
      pq == pq0 + [ChildEntry(level, target, item, Coordinate(x, y))] &&
      visited == visited0 + {Key(Successor(level, item.state, Coordinate(x, y)))}
    ensures !NewChild(level, item, itemFunc, visited0, Coordinate(x, y)) ==> pq == pq0 && visited == visited0
  {
    pq, visited := pq0, visited0;
    var c := Coordinate(x, y);
    grid.AtCell(x, y);
    var func := grid.At(x, y).value.func;
    assert func == FuncOf(level, c);
    var shouldSkip := func.Nothing?;
    if x == item.coord.x && y == item.coord.y {
      if IsArrow(itemFunc) && IsArrow(func) {
        shouldSkip := true;
      }
    }
    assert shouldSkip <==> !(Clickable(level, c) && !Pruned(level, item, itemFunc, c));
    if !shouldSkip {
      var s := ClickFrom(grid, level, previousState, c);
      var key := Key(s);
      if key !in visited {
        var newItem := SolverItem(s, Coordinate(0, 0), item.orders + [c]);
        var cost := CalculateCost(newItem, target);
        QueuePush(level, item, c, pq, visited, target);
        pq := pq + [Entry(newItem, -1 * cost)];
        visited := visited + {key};
      }
    }
  }

  /** Between (`pq0`, `visited0`) and (`pq`, `visited`) only children of
      `item` were queued, and every snapshot newly visited was queued. */
  ghost predicate NewQueued(level: ToggleLevel, target: Bits, item: SolverItem, itemFunc: ButtonFunction,
                            pq0: seq<Entry>, visited0: set<seq<bv8>>, pq: seq<Entry>, visited: set<seq<bv8>>)
    requires LevelOk(level) && target == TargetState(level) && Cells(level) <= 8 * |item.state.bytes|
  {
    (forall j :: |pq0| <= j < |pq| ==> IsChild(level, target, item, itemFunc, pq[j])) &&
    (forall k :: k in visited && k !in visited0 ==>
       exists j :: |pq0| <= j < |pq| && Key(pq[j].item.state) == k)
  }

  /** `e` is the entry of a child of `item` the expansion may queue. */
  ghost predicate IsChild(level: ToggleLevel, target: Bits, item: SolverItem, itemFunc: ButtonFunction, e: Entry)
    requires LevelOk(level) && target == TargetState(level) && Cells(level) <= 8 * |item.state.bytes|
  {
    exists c :: Clickable(level, c) && !Pruned(level, item, itemFunc, c) && e == ChildEntry(level, target, item, c)
  }

  /** Nothing queued or visited yet. */
  lemma NewQueuedNone(level: ToggleLevel, target: Bits, item: SolverItem, itemFunc: ButtonFunction,
                      pq: seq<Entry>, visited: set<seq<bv8>>)
    requires LevelOk(level) && target == TargetState(level) && Cells(level) <= 8 * |item.state.bytes|
    ensures NewQueued(level, target, item, itemFunc, pq, visited, pq, visited)
  {
  }

  /** Two stretches of an expansion make one. */
  lemma NewQueuedTrans(level: ToggleLevel, target: Bits, item: SolverItem, itemFunc: ButtonFunction,
                       pq1: seq<Entry>, v1: set<seq<bv8>>, pq2: seq<Entry>, v2: set<seq<bv8>>,
                       pq3: seq<Entry>, v3: set<seq<bv8>>)
    requires LevelOk(level) && target == TargetState(level) && Cells(level) <= 8 * |item.state.bytes|
    requires NewQueued(level, target, item, itemFunc, pq1, v1, pq2, v2)
    requires NewQueued(level, target, item, itemFunc, pq2, v2, pq3, v3)
    requires |pq1| <= |pq2| <= |pq3| && pq3[..|pq2|] == pq2 && v1 <= v2
    ensures NewQueued(level, target, item, itemFunc, pq1, v1, pq3, v3)
  {
    forall j | |pq1| <= j < |pq3|
      ensures IsChild(level, target, item, itemFunc, pq3[j])
    {
      if j < |pq2| {
        assert pq3[j] == pq2[j];
      }
    }
    forall k | k in v3 && k !in v1
      ensures exists j :: |pq1| <= j < |pq3| && Key(pq3[j].item.state) == k
    {
      if k in v2 {
        var j :| |pq1| <= j < |pq2| && Key(pq2[j].item.state) == k;
        assert pq3[j] == pq2[j];
      }
    }
  }

  /** One cell of an expansion, as ExpandCell leaves it. */
  lemma NewQueuedCell(level: ToggleLevel, target: Bits, item: SolverItem, itemFunc: ButtonFunction,
                      pq0: seq<Entry>, v0: set<seq<bv8>>, pq: seq<Entry>, visited: set<seq<bv8>>, c: Coordinate)
    requires LevelOk(level) && target == TargetState(level) && Cells(level) <= 8 * |item.state.bytes|
    requires NewChild(level, item, itemFunc, v0, c) ==>
      pq == pq0 + [ChildEntry(level, target, item, c)] && visited == v0 + {Key(Successor(level, item.state, c))}
    requires !NewChild(level, item, itemFunc, v0, c) ==> pq == pq0 && visited == v0
    ensures NewQueued(level, target, item, itemFunc, pq0, v0, pq, visited)
  {
    if NewChild(level, item, itemFunc, v0, c) {
      assert pq[|pq0|] == ChildEntry(level, target, item, c);
      assert IsChild(level, target, item, itemFunc, pq[|pq0|]);
    }
  }

  /** Every child of `item` that was new when the expansion began has its
      snapshot in the queue, behind what was queued before. */
  ghost predicate ChildQueued(level: ToggleLevel, item: SolverItem, itemFunc: ButtonFunction,
                              pq0: seq<Entry>, visited0: set<seq<bv8>>, pq: seq<Entry>, c: Coordinate)
    requires LevelOk(level) && Cells(level) <= 8 * |item.state.bytes|
  {
    NewChild(level, item, itemFunc, visited0, c) ==>
      exists j :: |pq0| <= j < |pq| && pq[j].item.state == Successor(level, item.state, c)
  }

  /** At the end of an expansion every new child is queued. */
  lemma ChildrenQueued(level: ToggleLevel, target: Bits, item: SolverItem, itemFunc: ButtonFunction,
                       pq0: seq<Entry>, visited0: set<seq<bv8>>, pq: seq<Entry>, visited: set<seq<bv8>>)
    requires LevelOk(level) && target == TargetState(level) && Cells(level) <= 8 * |item.state.bytes|
    requires NewQueued(level, target, item, itemFunc, pq0, visited0, pq, visited)
    requires forall c :: ChildVisited(level, item, itemFunc, visited, c)
    ensures forall c :: ChildQueued(level, item, itemFunc, pq0, visited0, pq, c)
  {
    forall c | NewChild(level, item, itemFunc, visited0, c)
      ensures exists j :: |pq0| <= j < |pq| && pq[j].item.state == Successor(level, item.state, c)
    {
      var next := Successor(level, item.state, c);
      assert ChildVisited(level, item, itemFunc, visited, c);
      var j :| |pq0| <= j < |pq| && Key(pq[j].item.state) == Key(next);
      assert IsChild(level, target, item, itemFunc, pq[j]);
      var d :| Clickable(level, d) && !Pruned(level, item, itemFunc, d) &&
               pq[j] == ChildEntry(level, target, item, d);
      assert pq[j].item.state == Successor(level, item.state, d);
    }
  }

  /** Every click before `(x, y)` in row-major order has been tried. */
  ghost predicate TriedBefore(level: ToggleLevel, item: SolverItem, itemFunc: ButtonFunction,
                              visited: set<seq<bv8>>, x: int, y: int)
    requires LevelOk(level) && Cells(level) <= 8 * |item.state.bytes|
  {
    forall c: Coordinate :: (c.y < y || (c.y == y && c.x < x)) ==> ChildVisited(level, item, itemFunc, visited, c)
  }

  /** Visiting more snapshots keeps the clicks tried. */
  lemma TriedGrows(level: ToggleLevel, item: SolverItem, itemFunc: ButtonFunction,
                   v1: set<seq<bv8>>, v2: set<seq<bv8>>, x: int, y: int)
    requires LevelOk(level) && Cells(level) <= 8 * |item.state.bytes|
    requires v1 <= v2 && TriedBefore(level, item, itemFunc, v1, x, y)
    ensures TriedBefore(level, item, itemFunc, v2, x, y)
  {
  }

  /** Trying `(x, y)` moves the row-major position one place on. */
  lemma TriedNext(level: ToggleLevel, item: SolverItem, itemFunc: ButtonFunction,
                  visited: set<seq<bv8>>, x: int, y: int, x': int)
    requires LevelOk(level) && Cells(level) <= 8 * |item.state.bytes| && x' == x + 1
    requires TriedBefore(level, item, itemFunc, visited, x, y)
    requires ChildVisited(level, item, itemFunc, visited, Coordinate(x, y))
    ensures TriedBefore(level, item, itemFunc, visited, x', y)
  {
  }

  /** Past the last column of row `y` comes the first of row `y + 1`, and
      past the last row nothing is left. */
  lemma TriedRow(level: ToggleLevel, item: SolverItem, itemFunc: ButtonFunction,
                 visited: set<seq<bv8>>, y: int, y': int)
    requires LevelOk(level) && Cells(level) <= 8 * |item.state.bytes| && y' == y + 1
    requires TriedBefore(level, item, itemFunc, visited, level.width, y)
    ensures TriedBefore(level, item, itemFunc, visited, 0, y')
    ensures y' > level.height ==> forall c :: ChildVisited(level, item, itemFunc, visited, c)
  {
  }

  /** The inner double loop of run_astar: every button that is not `Nothing`
      and is not pruned is clicked from the item's snapshot, and a snapshot
      not visited before is queued with the item's clicks plus this one. */
  method Expand(grid: Grid, level: ToggleLevel, item: SolverItem, itemFunc: ButtonFunction,
                previousState: Bits, target: Bits, pq0: seq<Entry>, visited0: set<seq<bv8>>)
    returns (pq: seq<Entry>, visited: set<seq<bv8>>)
    requires LevelOk(level) && GridOf(grid, level) && target == TargetState(level)
    requires Reached(level, item, visited0) && QueueOk(level, pq0, visited0, target)
    requires previousState == item.state && itemFunc == FuncOf(level, item.coord)
    modifies grid
    ensures GridOf(grid, level)
    ensures visited0 <= visited && QueueOk(level, pq, visited, target)
    ensures |pq0| <= |pq| && pq[..|pq0|] == pq0
    ensures visited == visited0 ==> pq == pq0
    ensures forall c :: ChildVisited(level, item, itemFunc, visited, c)
    ensures NewQueued(level, target, item, itemFunc, pq0, visited0, pq, visited)
    ensures forall c :: ChildQueued(level, item, itemFunc, pq0, visited0, pq, c)
  {
    pq, visited := pq0, visited0;
    NewQueuedNone(level, target, item, itemFunc, pq, visited);
    var y := 0;
    while y < grid.height
      invariant GridOf(grid, level) && 0 <= y <= level.height
      invariant visited0 <= visited && Reached(level, item, visited) && QueueOk(level, pq, visited, target)
      invariant |pq0| <= |pq| && pq[..|pq0|] == pq0
      invariant visited == visited0 ==> pq == pq0
      invariant TriedBefore(level, item, itemFunc, visited, 0, y)
      invariant NewQueued(level, target, item, itemFunc, pq0, visited0, pq, visited)
    {
      pq, visited := ExpandStep(grid, level, item, itemFunc, previousState, target, pq0, visited0, pq, visited, y);
      y := y + 1;
    }
    TriedRow(level, item, itemFunc, visited, y, y + 1);
    ChildrenQueued(level, target, item, itemFunc, pq0, visited0, pq, visited);
  }

  /** One pass of the row loop of Expand, with what that loop keeps. */
  method ExpandStep(grid: Grid, level: ToggleLevel, item: SolverItem, itemFunc: ButtonFunction,
                    previousState: Bits, target: Bits, pq0: seq<Entry>, visited0: set<seq<bv8>>,
                    pq1: seq<Entry>, visited1: set<seq<bv8>>, y: int)
    returns (pq: seq<Entry>, visited: set<seq<bv8>>)
    requires LevelOk(level) && GridOf(grid, level) && target == TargetState(level) && 0 <= y < level.height
    requires visited0 <= visited1 && Reached(level, item, visited1) && QueueOk(level, pq1, visited1, target)
    requires previousState == item.state && itemFunc == FuncOf(level, item.coord)
    requires |pq0| <= |pq1| && pq1[..|pq0|] == pq0
    requires visited1 == visited0 ==> pq1 == pq0
    requires TriedBefore(level, item, itemFunc, visited1, 0, y)
    requires NewQueued(level, target, item, itemFunc, pq0, visited0, pq1, visited1)
    modifies grid
    ensures GridOf(grid, level)
    ensures visited0 <= visited && Reached(level, item, visited) && QueueOk(level, pq, visited, target)
    ensures |pq0| <= |pq| && pq[..|pq0|] == pq0
    ensures visited == visited0 ==> pq == pq0
    ensures TriedBefore(level, item, itemFunc, visited, 0, y + 1)
    ensures NewQueued(level, target, item, itemFunc, pq0, visited0, pq, visited)
  {
    pq, visited := ExpandRow(grid, level, item, itemFunc, previousState, target, pq1, visited1, y);
    assert pq[..|pq0|] == pq1[..|pq0|];
    NewQueuedTrans(level, target, item, itemFunc, pq0, visited0, pq1, visited1, pq, visited);
    TriedRow(level, item, itemFunc, visited, y, y + 1);
  }

  /** One row of the inner double loop of run_astar. */
  method ExpandRow(grid: Grid, level: ToggleLevel, item: SolverItem, itemFunc: ButtonFunction,
                   previousState: Bits, target: Bits, pq0: seq<Entry>, visited0: set<seq<bv8>>, y: int)
    returns (pq: seq<Entry>, visited: set<seq<bv8>>)
    requires LevelOk(level) && GridOf(grid, level) && target == TargetState(level) && 0 <= y < level.height
    requires Reached(level, item, visited0) && QueueOk(level, pq0, visited0, target)
    requires previousState == item.state && itemFunc == FuncOf(level, item.coord)
    requires TriedBefore(level, item, itemFunc, visited0, 0, y)
    modifies grid
    ensures GridOf(grid, level)
    ensures visited0 <= visited && Reached(level, item, visited) && QueueOk(level, pq, visited, target)
    ensures |pq0| <= |pq| && pq[..|pq0|] == pq0
    ensures visited == visited0 ==> pq == pq0
    ensures TriedBefore(level, item, itemFunc, visited, level.width, y)
    ensures NewQueued(level, target, item, itemFunc, pq0, visited0, pq, visited)
  {
    pq, visited := pq0, visited0;
    NewQueuedNone(level, target, item, itemFunc, pq, visited);
    var x := 0;
    while x < grid.width
      invariant GridOf(grid, level) && 0 <= x <= level.width
      invariant visited0 <= visited && Reached(level, item, visited) && QueueOk(level, pq, visited, target)
      invariant |pq0| <= |pq| && pq[..|pq0|] == pq0
      invariant visited == visited0 ==> pq == pq0
      invariant TriedBefore(level, item, itemFunc, visited, x, y)
      invariant NewQueued(level, target, item, itemFunc, pq0, visited0, pq, visited)
    {
      ghost var pqBefore, visitedBefore := pq, visited;
      pq, visited := ExpandCell(grid, level, item, itemFunc, previousState, target, pq, visited, x, y);
      assert pq[..|pq0|] == pqBefore[..|pq0|];
      NewQueuedCell(level, target, item, itemFunc, pqBefore, visitedBefore, pq, visited, Coordinate(x, y));
      NewQueuedTrans(level, target, item, itemFunc, pq0, visited0, pqBefore, visitedBefore, pq, visited);
      TriedGrows(level, item, itemFunc, visitedBefore, visited, x, y);
      var x' := x + 1;
      TriedNext(level, item, itemFunc, visited, x, y, x');
      x := x';
    }
  }

  /** Taking the popped entry out keeps the rest of the queue as it was. */
  lemma QueueWithout(level: ToggleLevel, pq: seq<Entry>, visited: set<seq<bv8>>, target: Bits, best: nat)
    requires LevelOk(level) && QueueOk(level, pq, visited, target) && best < |pq|
    ensures QueueOk(level, pq[..best] + pq[best + 1..], visited, target)
  {
    var rest := pq[..best] + pq[best + 1..];
    RemoveAt(pq, best);
    forall j | 0 <= j < |rest|
      ensures Queued(level, rest[j], visited, target)
    {
      if j < best {
        assert rest[j] == pq[j];
      } else {
        assert rest[(j + 1) - 1] == pq[j + 1];
      }
    }
  }

  /** The positions of a sequence with one element taken out. */
  lemma RemoveAt<T>(s: seq<T>, i: nat)
    requires i < |s|
    ensures |s[..i] + s[i + 1..]| == |s| - 1
    ensures forall j :: 0 <= j < i ==> (s[..i] + s[i + 1..])[j] == s[j]
    ensures forall j :: i < j < |s| ==> (s[..i] + s[i + 1..])[j - 1] == s[j]
  {
  }

  /** Growing the visited set inside the set of all keys shrinks what is
      left to visit. */
  lemma LeftToVisitShrinks(all: set<seq<bv8>>, visited: set<seq<bv8>>, more: set<seq<bv8>>)
    requires visited <= more <= all && visited != more
    ensures all - more < all - visited
  {
    var k :| k in more && k !in visited;
    assert k in all - visited && k !in all - more;
  }

  /** What a `Success` of run_astar guarantees: clicks of real buttons that
      switch every light of the level off, along which no snapshot repeats
      after the first click, and which show the pruning quirk at `(0, 0)`. */
  ghost predicate SoundSolution(level: ToggleLevel, orders: seq<Coordinate>)
    requires LevelOk(level)
  {
    1 <= |orders| && InGrid(level, orders) &&
    (forall k :: 0 <= k < |orders| ==> Clickable(level, orders[k])) &&
    Solves(level, orders) && NoRepeat(level, orders) && CornerRule(level, orders)
  }

  /** A queued item whose snapshot has no bit apart from the target is a
      sound solution. */
  lemma PoppedSolution(level: ToggleLevel, item: SolverItem, visited: set<seq<bv8>>, target: Bits)
    requires LevelOk(level) && Reached(level, item, visited) && target == TargetState(level)
    requires RuleProperties.CountDiff(Unpack(item.state, target.len), Unpack(target, target.len), target.len) == 0
    ensures SoundSolution(level, item.orders)
  {
    DiffZeroSolves(level, item.orders);
  }

  /** A level read back from its encoding can be searched: it has a
      subtype and a state bit for every cell, and a `Shift` button only in
      a row of at most 16 cells, which is all run_astar asks of it. */
  lemma ParsedLevelSearchable(version: byte, w: byte, h: byte, subtypes: seq<byte>, stateBytes: seq<byte>,
                              minClicks: nat, rest: seq<byte>)
    requires 1 <= (w as nat) * (h as nat) <= 255
    requires |subtypes| == (w as nat) * (h as nat) && |stateBytes| == ByteCount(|subtypes|)
    requires minClicks < 0x8000_0000
    requires w as nat <= 16 || forall i :: 0 <= i < |subtypes| ==> !ConvertSubtypeToFunc(subtypes[i]).Shift?
    ensures var r := Reader.Parse(Reader.EncodeLevel(version, w, h, subtypes, stateBytes, minClicks, rest));
      r.Parsed? && LevelOk(r.level)
  {
    Reader.EncodeParseRoundTrip(version, w, h, subtypes, stateBytes, minClicks, rest);
    var n := |subtypes|;
    assert 8 * ((n + 7) / 8) >= n;
  }

  /** A single click of the button `c` switches every light off. */
  ghost predicate OneClickSolution(level: ToggleLevel, c: Coordinate)
    requires LevelOk(level)
  {
    Clickable(level, c) && InGrid(level, [c]) && Solves(level, [c])
  }

  /** A non-empty first sweep implies some button can be clicked. */
  lemma SeededSomething(level: ToggleLevel, target: Bits, pq: seq<Entry>)
    requires LevelOk(level) && target == TargetState(level)
    requires OnlyFirst(level, target, pq) && pq != []
    ensures exists c :: Clickable(level, c)
  {
    var e := pq[0];
    var c :| Clickable(level, c) && e == FirstEntry(level, target, c);
  }

  /** The first-click entry of a one-click solution has the highest
      priority any entry can have, -2. */
  lemma OneClickPriority(level: ToggleLevel, target: Bits, c: Coordinate)
    requires LevelOk(level) && target == TargetState(level) && OneClickSolution(level, c)
    ensures FirstEntry(level, target, c).priority == -2
  {
    var n := Cells(level);
    var start := StartState(level);
    var s := Successor(level, start, c);
    assert Replay(level, start, [c]) == s by {
      ReplayAppend(level, [], c);
      assert [] + [c] == [c];
    }
    DiffZeroSolves(level, [c]);
    CountDiffZeroAll(Unpack(s, n), Unpack(target, n));
  }

  /** An entry of highest priority, when some entry has priority -2, is a
      one-click item whose snapshot agrees with the target. */
  lemma TopIsOneClick(level: ToggleLevel, pq: seq<Entry>, visited: set<seq<bv8>>, target: Bits, best: nat)
    requires LevelOk(level) && target == TargetState(level) && QueueOk(level, pq, visited, target)
    requires best < |pq| && forall j :: 0 <= j < |pq| ==> pq[j].priority <= pq[best].priority
    requires exists j :: 0 <= j < |pq| && pq[j].priority == -2
    ensures |pq[best].item.orders| == 1
    ensures Unpack(pq[best].item.state, target.len) == Unpack(target, target.len)
  {
    assert Queued(level, pq[best], visited, target);
  }

  /** run_astar. A `Success` is a sound solution of the level. A level
      without any button to click ends in `Fail`, and a level that one
      click solves ends in a one-click `Success`: its first-click entry has
      the highest priority possible, so the first item popped solves it. */
  method RunAstar(level: ToggleLevel) returns (result: Result)
    requires LevelOk(level)
    ensures result.Success? ==> SoundSolution(level, result.orders)
    ensures (forall c :: !Clickable(level, c)) ==> result.Fail?
    ensures (exists c :: OneClickSolution(level, c)) ==> result.Success? && |result.orders| == 1
  {
    result := Fail;
    var grid := FromLevel(level);
    var startStates := grid.GetStates();
    var previousState := startStates.Value();
    grid.SetAllState(false);
    assert grid.Lights() == AllOff(Cells(level));
    var targetStates := grid.GetStates();
    var targetState := targetStates.Value();
    SnapshotInUniverse(level, InitialLights(level));
    var visited := {Key(previousState)};
    var pq;
    pq, visited := SeedQueue(grid, level, previousState, targetState, visited);
    ghost var nothing := forall c :: !Clickable(level, c);
    ghost var oneClick := exists c :: OneClickSolution(level, c);
    if pq != [] {
      SeededSomething(level, targetState, pq);
    }
    if oneClick {
      var c :| OneClickSolution(level, c);
      OneClickPriority(level, targetState, c);
      assert Seeded(level, targetState, pq, c);
    }
    while pq != []
      invariant GridOf(grid, level)
      invariant QueueOk(level, pq, visited, targetState)
      invariant targetState == TargetState(level)
      invariant result == Fail
      invariant nothing ==> pq == []
      invariant oneClick ==> exists j :: 0 <= j < |pq| && pq[j].priority == -2
      decreases Universe(level) - visited, |pq|
    {
      var best := PopBest(pq);
      var item := pq[best].item;
      if oneClick {
        TopIsOneClick(level, pq, visited, targetState, best);
      }
      QueueWithout(level, pq, visited, targetState, best);
      var rest := pq[..best] + pq[best + 1..];
      grid.AtCell(item.coord.x, item.coord.y);
      var itemFunc := grid.At(item.coord.x, item.coord.y).value.func;
      var diff := CalculateDiff(item.state, targetState);
      if diff == 0 {
        PoppedSolution(level, item, visited, targetState);
        result := Success(item.orders);
        break;
      }
      previousState := item.state;
      var more;
      pq, more := Expand(grid, level, item, itemFunc, previousState, targetState, rest, visited);
      if more != visited {
        LeftToVisitShrinks(Universe(level), visited, more);
      }
      visited := more;
    }
  }
}
