// The A* planner: a search over the cost map that updates scores, parents and states in place.
module AStar {
  import opened Options
  import opened Grid
  import opened AStarSearch
  import opened Estimates
  import opened SearchOrder

  // An entry no other entry beats.
  predicate IsTop(open: multiset<Entry>, e: Entry) {
    e in open && forall x :: x in open ==> e.key <= x.key
  }

  lemma {:induction false} TopExists(open: multiset<Entry>)
    requires open != multiset{}
    ensures exists e :: e in open && IsTop(open, e)
    decreases |open|
  {
    var e :| e in open;
    var rest := open - multiset{e};
    if rest == multiset{} {
      assert open == multiset{e};
      assert IsTop(open, e);
    } else {
      TopExists(rest);
      var t :| t in rest && IsTop(rest, t);
      assert open == rest + multiset{e};
      if t.key <= e.key { assert IsTop(open, t); } else { assert IsTop(open, e); }
    }
  }

  // Eight shifts are eight cells: equal cells are equal shifts.
  lemma ShiftsDiffer(m: Grid, i: int, ax: int, ay: int, cx: int, cy: int)
    requires Inside(m, i) && OneStep(m, i, Shift(m, i, ax, ay), ax, ay) && OneStep(m, i, Shift(m, i, cx, cy), cx, cy)
    requires ax != cx || ay != cy
    ensures Shift(m, i, ax, ay) != Shift(m, i, cx, cy)
  {
    ShiftInside(m, i, ax, ay);
    ShiftInside(m, i, cx, cy);
  }

  // The neighbours collected so far: one for each of the first k directions that has one.
  const DIRECTIONS: seq<(int, int)> := [(0, -1), (-1, -1), (-1, 0), (-1, 1), (0, 1), (1, 1), (1, 0), (1, -1)]

  ghost predicate Collected(m: Grid, i: int, r: seq<int>, k: nat)
    requires Inside(m, i) && k <= 8
  {
    && (forall d: nat :: d < k && HasShift(m, i, DIRECTIONS[d].0, DIRECTIONS[d].1) ==>
          Shift(m, i, DIRECTIONS[d].0, DIRECTIONS[d].1) in r)
    && (forall n: nat :: n < |r| ==> exists d: nat :: d < k && OneStep(m, i, r[n], DIRECTIONS[d].0, DIRECTIONS[d].1))
    && (forall a, b :: 0 <= a < b < |r| ==> r[a] != r[b])
  }

  lemma CollectOne(m: Grid, i: int, r: seq<int>, k: nat)
    requires Inside(m, i) && k < 8 && Collected(m, i, r, k)
    ensures var (dx, dy) := DIRECTIONS[k];
      Collected(m, i, if HasShift(m, i, dx, dy) then r + [Shift(m, i, dx, dy)] else r, k + 1)
  {
    hide Shift, HasShift;
    var (dx, dy) := DIRECTIONS[k];
    if HasShift(m, i, dx, dy) {
      var j := Shift(m, i, dx, dy);
      var more := r + [j];
      assert OneStep(m, i, j, dx, dy);
      forall n: nat | n < |r| ensures r[n] != j {
        var d: nat :| d < k && OneStep(m, i, r[n], DIRECTIONS[d].0, DIRECTIONS[d].1);
        ShiftsDiffer(m, i, DIRECTIONS[d].0, DIRECTIONS[d].1, dx, dy);
      }
      forall n: nat | n < |more|
        ensures exists d: nat :: d < k + 1 && OneStep(m, i, more[n], DIRECTIONS[d].0, DIRECTIONS[d].1)
      {
        if n < |r| {
          var d: nat :| d < k && OneStep(m, i, r[n], DIRECTIONS[d].0, DIRECTIONS[d].1);
        } else {
          assert OneStep(m, i, more[n], DIRECTIONS[k].0, DIRECTIONS[k].1);
        }
      }
    }
  }

  lemma CollectedAll(m: Grid, i: int, r: seq<int>)
    requires Inside(m, i) && Collected(m, i, r, 8)
    ensures forall j :: j in r <==> Near(m, i, j)
    ensures forall a, b :: 0 <= a < b < |r| ==> r[a] != r[b]
  {
    hide Shift, HasShift, Near;
    forall j ensures j in r <==> Near(m, i, j) {
      NearIsShift(m, i, j);
      if Near(m, i, j) {
        var dx, dy :| OneStep(m, i, j, dx, dy);
        var d := DirectionOf(dx, dy);
        assert Shift(m, i, DIRECTIONS[d].0, DIRECTIONS[d].1) in r;
      }
      if j in r {
        var n: nat :| n < |r| && r[n] == j;
        var d: nat :| d < 8 && OneStep(m, i, r[n], DIRECTIONS[d].0, DIRECTIONS[d].1);
      }
    }
  }

  function DirectionOf(dx: int, dy: int): (d: nat)
    requires -1 <= dx <= 1 && -1 <= dy <= 1 && (dx != 0 || dy != 0)
    ensures d < 8 && DIRECTIONS[d] == (dx, dy)
  {
    if dx == 0 then (if dy == -1 then 0 else 4)
    else if dx == -1 then (if dy == -1 then 1 else if dy == 0 then 2 else 3)
    else (if dy == 1 then 5 else if dy == 0 then 6 else 7)
  }

  // The tests of the neighbour search are those for a cell in each direction.
  lemma NeighbourTests(m: Grid, c: int)
    requires Inside(m, c)
    ensures m.width > 0
    ensures HasShift(m, c, 0, -1) <==> c - m.width >= 0
    ensures HasShift(m, c, -1, -1) <==> c - m.width - 1 >= 0 && (c - m.width - 1 + 1) % m.width != 0
    ensures HasShift(m, c, -1, 0) <==> c - 1 >= 0 && (c - 1 + 1) % m.width != 0
    ensures HasShift(m, c, -1, 1) <==> c + m.width - 1 < Size(m) && (c + m.width - 1 + 1) % m.width != 0
    ensures HasShift(m, c, 0, 1) <==> c + m.width < Size(m)
    ensures HasShift(m, c, 1, 1) <==> c + m.width + 1 < Size(m) && (c + m.width + 1) % m.width != 0
    ensures HasShift(m, c, 1, 0) <==> c + 1 < Size(m) && (c + 1) % m.width != 0
    ensures HasShift(m, c, 1, -1) <==> c - m.width + 1 >= 0 && (c - m.width + 1) % m.width != 0
  {
    BorderTests(m, c);
    RowTests(m, c);
    hide X, Y, Size, Mul;
    RowBounds(m, c);
    SizeIsMul(m);
    var w, x, y := m.width, X(m, c), Y(m, c);
    MulNext(y, w);
    MulNext(y + 1, w);
    MulNext(0, w);
    MulGrows(0, y, w);
    MulGrows(y + 1, m.height, w);
    if y > 0 { MulGrows(1, y, w); }
    if y + 1 < m.height { MulGrows(y + 2, m.height, w); }
    RowInside(m, c - w, x, y - 1);
    RowInside(m, c + w, x, y + 1);
    if x > 0 { RowInside(m, c - w - 1, x - 1, y - 1); RowInside(m, c + w - 1, x - 1, y + 1); }
    if x + 1 < w {
      RowInside(m, c - w + 1, x + 1, y - 1);
      RowInside(m, c + w + 1, x + 1, y + 1);
      RowInside(m, c + 1, x + 1, y);
    }
  }

  // ------------------------------------------------------------ what the search returns

  function Reverse<T>(s: seq<T>): (r: seq<T>)
    ensures |r| == |s| && forall k :: 0 <= k < |s| ==> r[k] == s[|s| - 1 - k]
  {
    seq(|s|, k requires 0 <= k < |s| => s[|s| - 1 - k])
  }

  /** The way from a cell to the goal along parents, as far as it has been walked. */
  ghost predicate Trail(q: Problem, s: Search, goal: nat, at: nat, p: seq<int>) {
    && Posed(q) && Shaped(q, s) && at < |s.g| && goal < |s.g|
    && IsPath(q.m, q.cost, q.limit, p) && p[0] == at && p[|p| - 1] == goal
    && s.g[at] + PathCost(q.m, q.cost, q.limit, p) == s.g[goal]
  }

  lemma TrailStarts(q: Problem, s: Search, goal: nat)
    requires Posed(q) && Shaped(q, s) && goal < |s.g|
    ensures Trail(q, s, goal, goal, [goal])
  {}

  lemma TrailGrows(q: Problem, s: Search, goal: nat, at: nat, p: seq<int>)
    requires Trail(q, s, goal, at, p) && Derived(q, s, at) && 0 <= s.parent[at] < |s.g|
    ensures Trail(q, s, goal, s.parent[at], [s.parent[at] as int] + p)
  {
    hide StepCost, Near;
    PathExtends(q.m, q.cost, q.limit, s.parent[at], p);
  }

  /** The entry taken first has the smallest f score of all waiting cells. */
  lemma TopIsMinimum(q: Problem, s: Search, e: Entry)
    requires Inv(q, s, -1) && IsTop(s.open, e)
    ensures e.cell < |s.state| && forall v: nat :: v < |s.state| && Waits(q, s, v) ==> s.f[e.cell] <= s.f[v]
  {
    hide StepCost, Near, ScoreOk, PushedOk, Expanded;
    forall v: nat | v < |s.state| && Waits(q, s, v) ensures e.key <= s.f[v] {
      assert Entry(v, s.f[v]) in s.open;
    }
  }

  // All that is left is the cell just expanded.
  lemma ExpandedKeepsInv(q: Problem, s: Search, c: nat)
    requires Inv(q, s, c) && Expanded(q, s, c)
    ensures Inv(q, s, -1)
  {}

  class AStarPlanner {
    const heuristicFactor: real
    const inaccessibleCost: nat
    const m: Grid
    var cost: Costs
    var gScore: seq<int>
    var fScore: seq<int>
    var parent: seq<int>
    var state: seq<SearchState>

    constructor (factor: real, inaccessible: nat, m: Grid, cost: Costs)
      ensures heuristicFactor == factor && inaccessibleCost == inaccessible && this.m == m && this.cost == cost
    {
      heuristicFactor, inaccessibleCost, this.m, this.cost := factor, inaccessible, m, cost;
      gScore, fScore, parent, state := [], [], [], [];
    }

    ghost function Asked(start: nat): Problem
      reads this
    {
      Problem(m, cost, inaccessibleCost, start)
    }

    ghost function Now(open: multiset<Entry>, pushed: multiset<nat>): Search
      reads this
    {
      Search(gScore, fScore, parent, state, open, pushed)
    }

    /** The cells around one cell: all of its neighbours, each once, and nothing across the border. */
    method GetNineNeighbors(c: int) returns (r: seq<int>)
      requires Inside(m, c)
      ensures forall j :: j in r <==> Near(m, c, j)
      ensures forall a, b :: 0 <= a < b < |r| ==> r[a] != r[b]
    {
      hide Collected, Near, Inside, Size, HasShift, Shift;
      var w, size := m.width, Size(m);
      NeighbourTests(m, c);
      r := [];
      CollectedNone(m, c);
      CollectTest(m, c, r, 0, c - w, c - w >= 0);
      if c - w >= 0 { r := r + [c - w]; }
      CollectTest(m, c, r, 1, c - w - 1, c - w - 1 >= 0 && (c - w - 1 + 1) % w != 0);
      if c - w - 1 >= 0 && (c - w - 1 + 1) % w != 0 { r := r + [c - w - 1]; }
      CollectTest(m, c, r, 2, c - 1, c - 1 >= 0 && (c - 1 + 1) % w != 0);
      if c - 1 >= 0 && (c - 1 + 1) % w != 0 { r := r + [c - 1]; }
      CollectTest(m, c, r, 3, c + w - 1, c + w - 1 < size && (c + w - 1 + 1) % w != 0);
      if c + w - 1 < size && (c + w - 1 + 1) % w != 0 { r := r + [c + w - 1]; }
      CollectTest(m, c, r, 4, c + w, c + w < size);
      if c + w < size { r := r + [c + w]; }
      CollectTest(m, c, r, 5, c + w + 1, c + w + 1 < size && (c + w + 1) % w != 0);
      if c + w + 1 < size && (c + w + 1) % w != 0 { r := r + [c + w + 1]; }
      CollectTest(m, c, r, 6, c + 1, c + 1 < size && (c + 1) % w != 0);
      if c + 1 < size && (c + 1) % w != 0 { r := r + [c + 1]; }
      CollectTest(m, c, r, 7, c - w + 1, c - w + 1 >= 0 && (c - w + 1) % w != 0);
      if c - w + 1 >= 0 && (c - w + 1) % w != 0 { r := r + [c - w + 1]; }
      CollectedAll(m, c, r);
    }

    /** One neighbour gets a better score and a new parent if this way to it is cheaper; a new one is pushed. */
    method Relax(c: nat, v: nat, goal: nat, open: multiset<Entry>, ghost pushed: multiset<nat>)
      returns (open': multiset<Entry>, ghost pushed': multiset<nat>)
      requires |gScore| == |fScore| == |parent| == |state| == |cost| && c < |gScore| && v < |gScore|
      requires MoveCost(m, c, v).Some? && m.width > 0
      modifies `gScore, `fScore, `parent, `state
      ensures Now(open', pushed') ==
        Relaxed(old(Now(open, pushed)), c, v, MoveCost(m, c, v).value + cost[v],
          ManhattanDistance(m, heuristicFactor, v, goal))
    {
      hide ManhattanDistance, MoveCost;
      open', pushed' := open, pushed;
      var moveCost := MoveCost(m, c, v).value;
      var g := gScore[c] + moveCost + cost[v];
      assert g == gScore[c] + (moveCost + cost[v]);
      if gScore[v] > g {
        var first := state[v] == NOT_HANDLED;
        gScore, parent := gScore[v := g], parent[v := c];
        if first {
          var hScore := ManhattanDistance(m, heuristicFactor, v, goal);
          fScore, state := fScore[v := g + hScore], state[v := OPEN];
          open' := open' + multiset{Entry(v, g + hScore)};
          pushed' := pushed' + multiset{v};
        }
      }
    }

    /** The neighbours of the cell just closed get the scores and parents that this cell offers them. */
    method Expand(start: nat, goal: nat, c: nat, open: multiset<Entry>, ghost pushed: multiset<nat>,
        ghost order: seq<nat>)
      returns (open': multiset<Entry>, ghost pushed': multiset<nat>)
      requires order != [] && order[|order| - 1] == c
      requires InTurn(Asked(start), heuristicFactor, goal, Now(open, pushed), order, |order| - 1, {})
      requires Inv(Asked(start), Now(open, pushed), c) && c < |state| && state[c] == CLOSED && state[start] == CLOSED
      requires 0 <= gScore[c] <= MAX_STEP * (|ClosedCells(Now(open, pushed))| - 1)
      modifies `gScore, `fScore, `parent, `state
      ensures Inv(Asked(start), Now(open', pushed'), -1) && start < |state| == old(|state|) && state[start] == CLOSED
      ensures ClosedCells(Now(open', pushed')) == old(ClosedCells(Now(open, pushed)))
      ensures InTurn(Asked(start), heuristicFactor, goal, Now(open', pushed'), order, |order|, {})
    {
      ghost var q := Asked(start);
      hide Inv, StepCost, Near, ClosedCells, Inside, Size, Relaxed, DoneUpTo, Handled, MoveCost, InTurn, Posed,
        ManhattanDistance;
      InvShape(q, Now(open, pushed), c);
      InsideSize(m, c);
      open', pushed' := open, pushed;
      var neighbors := GetNineNeighbors(c);
      DoneNone(q, Now(open, pushed), neighbors);
      LimitPositive(q, Now(open, pushed), c);
      ghost var done: set<nat> := {};
      for n := 0 to |neighbors|
        invariant Inv(q, Now(open', pushed'), c) && Shaped(q, Now(open', pushed'))
        invariant state[c] == CLOSED && state[start] == CLOSED
        invariant |gScore| == old(|gScore|) && gScore[c] == old(gScore)[c]
        invariant ClosedCells(Now(open', pushed')) == old(ClosedCells(Now(open, pushed)))
        invariant DoneUpTo(q, Now(open', pushed'), neighbors, n)
        invariant InTurn(q, heuristicFactor, goal, Now(open', pushed'), order, |order| - 1, done)
        invariant forall v: nat :: v in done <==> v in neighbors[..n]
      {
        assert neighbors[..n + 1] == neighbors[..n] + [neighbors[n]];
        var v := neighbors[n];
        ghost var before := Now(open', pushed');
        NeighborIn(m, c, neighbors, v);
        if cost[v] >= inaccessibleCost || state[v] == CLOSED {
          DoneNext(q, before, before, neighbors, n);
          Passed(q, heuristicFactor, goal, before, order, v, done);
          done := done + {v};
          continue;
        }
        StepCostIs(q, c, v);
        RelaxKeepsInv(q, before, c, v, ManhattanDistance(m, heuristicFactor, v, goal));
        RelaxInTurn(q, heuristicFactor, goal, before, order, v, done);
        done := done + {v};
        open', pushed' := Relax(c, v, goal, open', pushed');
        InvShape(q, Now(open', pushed'), c);
        DoneNext(q, before, Now(open', pushed'), neighbors, n);
      }
      assert neighbors[..|neighbors|] == neighbors;
      AllDone(q, Now(open', pushed'), c, neighbors);
      AllOffered(q, heuristicFactor, goal, Now(open', pushed'), order, done);
    }

    /** The way back from the goal along the parents, turned around. */
    method Rebuild(start: nat, goal: nat, ghost s: Search, ghost busy: int) returns (path: seq<int>)
      requires Inv(Asked(start), s, busy) && s == Now(s.open, s.pushed) && goal < |state| && state[goal] == CLOSED
      ensures IsRoute(Asked(start), gScore, goal, path)
    {
      ghost var q := Asked(start);
      hide Inv, Trail, Derived;
      InvShape(q, s, busy);
      TrailStarts(q, s, goal);
      var iter: int := goal;
      var back: seq<int> := [goal];
      assert Reverse(back) == back;
      while iter != start
        invariant 0 <= iter < |state| && state[iter] == CLOSED && Trail(q, s, goal, iter, Reverse(back))
        decreases gScore[iter]
      {
        ParentIsCloser(q, s, busy, iter);
        ParentIsClosed(q, s, iter);
        TrailGrows(q, s, goal, iter, Reverse(back));
        iter := parent[iter];
        assert Reverse(back + [iter]) == [iter] + Reverse(back);
        back := back + [iter];
      }
      RouteFound(q, s, busy, goal, Reverse(back));
      path := Reverse(back);
    }

    // Everything is forgotten; the start waits.
    method Begin(start: nat) returns (open: multiset<Entry>, ghost pushed: multiset<nat>)
      requires Posed(Asked(start))
      modifies `gScore, `fScore, `parent, `state
      ensures Now(open, pushed) == Fresh(Asked(start)) && open == multiset{Entry(start, INT_MAX)}
    {
      var n := Size(m);
      gScore := seq(n, _ => INT_MAX)[start := 0];
      fScore := seq(n, _ => INT_MAX);
      parent := seq(n, _ => INT_MAX);
      state := seq(n, _ => NOT_HANDLED);
      open := multiset{Entry(start, fScore[start])};
      pushed := multiset{start};
    }

    /** A waiting cell with the smallest f score is closed. */
    method Take(start: nat, open: multiset<Entry>, ghost pushed: multiset<nat>, ghost goal: nat, ghost order: seq<nat>)
      returns (current: nat, open': multiset<Entry>)
      requires Inv(Asked(start), Now(open, pushed), -1) && open != multiset{}
      requires InTurn(Asked(start), heuristicFactor, goal, Now(open, pushed), order, |order|, {})
      requires order == [] ==> open == multiset{Entry(start, INT_MAX)}
      modifies `state
      ensures Shaped(Asked(start), old(Now(open, pushed)))
      ensures current < |state| == |fScore| == |gScore| && Entry(current, fScore[current]) in open
      ensures forall v: nat :: v < old(|state|) && Waits(Asked(start), old(Now(open, pushed)), v) ==>
        fScore[current] <= fScore[v]
      ensures |state| == old(|state|) && state == old(state)[current := CLOSED]
        && open' == open - multiset{Entry(current, fScore[current])}
      ensures Inv(Asked(start), Now(open', pushed), current)
      ensures |ClosedCells(Now(open', pushed))| == old(|ClosedCells(Now(open, pushed))|) + 1
      ensures 0 <= gScore[current] <= MAX_STEP * (|ClosedCells(Now(open', pushed))| - 1)
      ensures InTurn(Asked(start), heuristicFactor, goal, Now(open', pushed), order + [current], |order|, {})
    {
      ghost var q := Asked(start);
      hide Inv, ClosedCells, IsTop, InTurn;
      ghost var before := Now(open, pushed);
      InvShape(q, before, -1);
      TopExists(open);
      var e :| e in open && IsTop(open, e);
      TopIsMinimum(q, before, e);
      EntryIs(q, before, e);
      PopKeepsInv(q, before, e);
      PopInTurn(q, heuristicFactor, goal, before, order, e);
      current := e.cell;
      open' := open - multiset{e};
      state := state[current := CLOSED];
      assert Now(open', pushed) == Popped(before, e);
    }

    /**
     * A route is returned exactly when the goal can be reached, and its price is the goal's score.
     * Every round closes one more cell.
     */
    method SearchPath(start: nat, goal: nat) returns (path: Option<seq<int>>, rounds: nat, ghost order: seq<nat>)
      requires Posed(Asked(start)) && Inside(m, goal)
      modifies `gScore, `fScore, `parent, `state
      ensures path.Some? <==> Reachable(m, cost, inaccessibleCost, start, goal)
      ensures path.Some? ==> IsRoute(Asked(start), gScore, goal, path.value)
      ensures rounds == |order| <= Size(m)
      ensures Explained(Asked(start), heuristicFactor, goal, Now(multiset{}, multiset{}), order, path.Some?)
    {
      ghost var q := Asked(start);
      hide Inv, ClosedCells, Fresh, Reachable, IsRoute, Inside, Waits, Shaped, Posed, Size, InTurn;
      PosedIs(q, goal);
      FreshInv(q);
      WidthPositive(q);
      FreshInTurn(q, heuristicFactor, goal);
      FreshIs(q);
      var open;
      ghost var pushed;
      open, pushed := Begin(start);
      rounds, order := 0, [];
      while open != multiset{}
        invariant Inv(q, Now(open, pushed), -1) && |state| == Size(m) && start < Size(m)
        invariant rounds == |ClosedCells(Now(open, pushed))| <= Size(m)
        invariant state[start] == CLOSED || open == multiset{Entry(start, INT_MAX)}
        invariant !(goal < |state| && state[goal] == CLOSED) && rounds == |order|
        invariant InTurn(q, heuristicFactor, goal, Now(open, pushed), order, |order|, {})
        invariant order == [] ==> open == multiset{Entry(start, INT_MAX)}
        decreases Size(m) - rounds
      {
        var current;
        current, open := Take(start, open, pushed, goal, order);
        order := order + [current];
        ClosedBound(Now(open, pushed));
        rounds := rounds + 1;
        if current == goal {
          var found := Rebuild(start, goal, Now(open, pushed), current);
          RouteReaches(q, gScore, goal, found);
          SearchExplained(q, heuristicFactor, goal, Now(open, pushed), order, true);
          path := Some(found);
          return;
        }
        ghost var taken := Now(open, pushed);
        open, pushed := Expand(start, goal, current, open, pushed, order);
        SameClosed(taken, Now(open, pushed), goal);
      }
      Unreached(q, Now(open, pushed), goal);
      SearchExplained(q, heuristicFactor, goal, Now(open, pushed), order, false);
      path := None;
    }
  }

  // The open list has no part in the explanation.
  lemma SearchExplained(q: Problem, factor: real, goal: nat, s: Search, order: seq<nat>, found: bool)
    requires InTurn(q, factor, goal, s, order, if found && order != [] then |order| - 1 else |order|, {})
    requires goal < |s.state| && (found <==> s.state[goal] == CLOSED)
    requires found ==> order != [] && order[|order| - 1] == goal
    ensures Explained(q, factor, goal, s.(open := multiset{}, pushed := multiset{}), order, found)
  {
    hide Got;
    var t := s.(open := multiset{}, pushed := multiset{});
    assert Listed(q, t, order);
    forall j: nat | j < |order| ensures StoodAt(q, factor, goal, t, order, j) {
      assert StoodAt(q, factor, goal, s, order, j);
    }
    forall j: nat, v: nat | j < |order| ensures LeastAt(q, factor, goal, t, order, j, v) {
      assert LeastAt(q, factor, goal, s, order, j, v);
    }
  }

  lemma Passed(q: Problem, factor: real, goal: nat, s: Search, order: seq<nat>, v: nat, done: set<nat>)
    requires order != [] && InTurn(q, factor, goal, s, order, |order| - 1, done) && Shaped(q, s) && v < |s.state|
    requires q.cost[v] >= q.limit || s.state[v] == CLOSED
    ensures InTurn(q, factor, goal, s, order, |order| - 1, done + {v})
  {
    SkipInTurn(q, factor, goal, s, order, |order| - 1, v, done);
  }

  lemma PosedIs(q: Problem, goal: nat)
    requires Posed(q) && Inside(q.m, goal)
    ensures |q.cost| == Size(q.m) && goal < Size(q.m)
  {}

  lemma SameClosed(s: Search, t: Search, v: nat)
    requires ClosedCells(s) == ClosedCells(t) && v < |s.state| && v < |t.state|
    ensures s.state[v] == CLOSED <==> t.state[v] == CLOSED
  {
    assert v in ClosedCells(s) <==> v in ClosedCells(t);
  }

  lemma EntryIs(q: Problem, s: Search, e: Entry)
    requires Inv(q, s, -1) && e in s.open
    ensures e.cell < |s.f| && e == Entry(e.cell, s.f[e.cell])
  {}

  /** The route from the start to a closed goal: steps between neighbours below the limit, priced like the goal. */
  ghost predicate IsRoute(q: Problem, g: seq<int>, goal: nat, p: seq<int>) {
    && |q.cost| == Size(q.m) && goal < |g|
    && IsPath(q.m, q.cost, q.limit, p) && p[0] == q.start && p[|p| - 1] == goal
    && PathCost(q.m, q.cost, q.limit, p) == g[goal]
  }

  lemma RouteFound(q: Problem, s: Search, busy: int, goal: nat, p: seq<int>)
    requires Inv(q, s, busy) && Trail(q, s, goal, q.start, p)
    ensures IsRoute(q, s.g, goal, p)
  {
    assert ScoreOk(q, s, q.start);
  }

  lemma RouteReaches(q: Problem, g: seq<int>, goal: nat, p: seq<int>)
    requires IsRoute(q, g, goal, p)
    ensures |q.cost| == Size(q.m) && Reachable(q.m, q.cost, q.limit, q.start, goal)
  {}

  lemma Unreached(q: Problem, s: Search, goal: nat)
    requires Inv(q, s, -1) && s.open == multiset{} && !(goal < |s.state| && s.state[goal] == CLOSED)
    ensures |q.cost| == Size(q.m) && !Reachable(q.m, q.cost, q.limit, q.start, goal)
  {
    InvShape(q, s, -1);
    if Reachable(q.m, q.cost, q.limit, q.start, goal) {
      AllReachedAreClosed(q, s, goal);
    }
  }

  lemma ParentIsClosed(q: Problem, s: Search, v: nat)
    requires Shaped(q, s) && v < |s.state| && Derived(q, s, v)
    ensures 0 <= s.parent[v] < |s.state| && s.state[s.parent[v]] == CLOSED
  {}

  lemma FreshIs(q: Problem)
    requires Posed(q)
    ensures q.start < Size(q.m)
    ensures var n := Size(q.m);
      Fresh(q) == Search(seq(n, _ => INT_MAX)[q.start := 0], seq(n, _ => INT_MAX), seq(n, _ => INT_MAX),
                         seq(n, _ => NOT_HANDLED),
                         multiset{Entry(q.start, INT_MAX)}, multiset{q.start})
    ensures ClosedCells(Fresh(q)) == {}
  {}

  lemma NeighborIn(m: Grid, c: int, neighbors: seq<int>, v: int)
    requires v in neighbors && forall j :: j in neighbors <==> Near(m, c, j)
    ensures Near(m, c, v) && Inside(m, v) && 0 <= v < Size(m) && m.width > 0
  {}

  lemma DoneNone(q: Problem, s: Search, neighbors: seq<int>)
    requires Shaped(q, s)
    ensures DoneUpTo(q, s, neighbors, 0)
  {}

  // The neighbours seen so far need no further visit.
  ghost predicate DoneUpTo(q: Problem, s: Search, neighbors: seq<int>, n: nat)
    requires Shaped(q, s) && n <= |neighbors|
  {
    forall k :: 0 <= k < n && Inside(q.m, neighbors[k]) && q.cost[neighbors[k]] < q.limit ==>
      Handled(s, neighbors[k])
  }

  lemma DoneNext(q: Problem, s: Search, t: Search, neighbors: seq<int>, n: nat)
    requires Shaped(q, s) && Shaped(q, t) && n < |neighbors| && DoneUpTo(q, s, neighbors, n)
    requires forall u :: Handled(s, u) ==> Handled(t, u)
    requires Inside(q.m, neighbors[n])
    requires q.cost[neighbors[n]] >= q.limit || t.state[neighbors[n]] == CLOSED || Handled(t, neighbors[n])
    ensures DoneUpTo(q, t, neighbors, n + 1)
  {}

  lemma AllDone(q: Problem, s: Search, c: nat, neighbors: seq<int>)
    requires Inv(q, s, c) && Shaped(q, s) && DoneUpTo(q, s, neighbors, |neighbors|)
    requires forall j :: j in neighbors <==> Near(q.m, c, j)
    ensures Inv(q, s, -1)
  {
    hide StepCost, ScoreOk, X, Y;
    forall b: nat | Near(q.m, c, b) && q.cost[b] < q.limit ensures b == q.start || Handled(s, b) {
      NearInside(q.m, c, b);
      assert b in neighbors;
    }
    ExpandedKeepsInv(q, s, c);
  }

  lemma InvShape(q: Problem, s: Search, busy: int)
    requires Inv(q, s, busy)
    ensures Posed(q) && Shaped(q, s)
  {}

  lemma InsideSize(m: Grid, v: int)
    ensures Inside(m, v) <==> 0 <= v < Size(m)
  {}

  lemma StepCostIs(q: Problem, c: int, v: int)
    requires Near(q.m, c, v) && |q.cost| == Size(q.m)
    ensures Inside(q.m, v) && MoveCost(q.m, c, v).Some?
      && StepCost(q.m, q.cost, c, v) == MoveCost(q.m, c, v).value + q.cost[v]
  {
    hide X, Y, MoveCost;
    NeighboursCost(q.m, c, v);
  }

  lemma CollectedNone(m: Grid, c: int)
    requires Inside(m, c)
    ensures Collected(m, c, [], 0)
  {}

  lemma CollectTest(m: Grid, c: int, r: seq<int>, k: nat, j: int, test: bool)
    requires Inside(m, c) && k < 8 && Collected(m, c, r, k)
    requires var (dx, dy) := DIRECTIONS[k]; j == c + dy * m.width + dx && (test <==> HasShift(m, c, dx, dy))
    ensures Collected(m, c, if test then r + [j] else r, k + 1)
  {
    hide Collected, HasShift, Inside;
    ShiftsAre(m, c);
    CollectOne(m, c, r, k);
  }

  lemma ShiftsAre(m: Grid, c: int)
    ensures Shift(m, c, 0, -1) == c - m.width && Shift(m, c, -1, -1) == c - m.width - 1
      && Shift(m, c, 1, -1) == c - m.width + 1
    ensures Shift(m, c, 0, 1) == c + m.width && Shift(m, c, -1, 1) == c + m.width - 1
      && Shift(m, c, 1, 1) == c + m.width + 1
    ensures Shift(m, c, -1, 0) == c - 1 && Shift(m, c, 1, 0) == c + 1
  {
    ShiftIs(m, c, -1);
    ShiftIs(m, c, 0);
    ShiftIs(m, c, 1);
  }
}
