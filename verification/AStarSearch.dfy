// The state of an A* search over a grid as a value, and what every step of the search keeps.
module AStarSearch {
  import opened Grid

  datatype SearchState = NOT_HANDLED | OPEN | CLOSED

  const INT_MAX := 2147483647

  // The most a step can add to a score: a diagonal move onto the costliest cell.
  const MAX_STEP := 14 + 255

  // What the open list holds: a cell, ordered by its f score at the time it was pushed.
  datatype Entry = Entry(cell: nat, key: int)

  datatype Search = Search(g: seq<int>, f: seq<int>, parent: seq<int>, state: seq<SearchState>,
                           open: multiset<Entry>, pushed: multiset<nat>)

  // What the search is run on.
  datatype Problem = Problem(m: Grid, cost: Costs, limit: nat, start: nat)

  ghost predicate Posed(q: Problem) {
    && |q.cost| == Size(q.m) && Inside(q.m, q.start)
    && (forall v :: 0 <= v < |q.cost| ==> q.cost[v] <= 255)
    && MAX_STEP * Size(q.m) < INT_MAX
  }

  predicate Shaped(q: Problem, s: Search) {
    |s.g| == |s.f| == |s.parent| == |s.state| == Size(q.m) == |q.cost| && q.start < |q.cost|
  }

  ghost function ClosedCells(s: Search): set<nat> {
    set v: nat | v < |s.state| && s.state[v] == CLOSED
  }

  predicate Handled(s: Search, v: nat) {
    v < |s.state| && s.state[v] != NOT_HANDLED
  }

  // A cell got its score from a closed neighbour, which is its parent.
  predicate Derived(q: Problem, s: Search, v: nat)
    requires Shaped(q, s) && v < |s.state|
  {
    var p := s.parent[v];
    Near(q.m, p, v) && s.state[p] == CLOSED && q.cost[v] < q.limit && s.g[v] == s.g[p] + StepCost(q.m, q.cost, p, v)
  }

  ghost predicate ScoreOk(q: Problem, s: Search, v: nat)
    requires Shaped(q, s) && v < |s.state|
  {
    if v == q.start then s.g[v] == 0
    else if Handled(s, v) then Derived(q, s, v) && 0 <= s.g[v] <= MAX_STEP * |ClosedCells(s)|
    else s.g[v] == INT_MAX
  }

  // Cells waiting to be expanded.
  predicate Waits(q: Problem, s: Search, v: nat)
    requires Shaped(q, s) && v < |s.state|
  {
    s.state[v] == OPEN || (v == q.start && s.state[v] == NOT_HANDLED)
  }

  // The open list holds each waiting cell once, under its present f score, and nothing else.
  ghost predicate OpenOk(q: Problem, s: Search)
    requires Shaped(q, s)
  {
    && (forall e :: e in s.open ==> e.cell < |s.state| && e.key == s.f[e.cell] && s.open[e] == 1 && Waits(q, s, e.cell))
    && (forall v: nat :: v < |s.state| && Waits(q, s, v) ==> Entry(v, s.f[v]) in s.open)
  }

  // No cell is pushed twice.
  ghost predicate PushedOk(q: Problem, s: Search) {
    forall v: nat :: s.pushed[v] == if v == q.start || Handled(s, v) then 1 else 0
  }

  // The neighbours of an expanded cell have all been handled.
  ghost predicate Expanded(q: Problem, s: Search, v: nat)
    requires Shaped(q, s)
  {
    forall b: nat :: Near(q.m, v, b) && q.cost[b] < q.limit ==> b == q.start || Handled(s, b)
  }

  /** What holds while one cell is being expanded; busy is -1 between expansions. */
  ghost predicate Inv(q: Problem, s: Search, busy: int) {
    && Posed(q) && Shaped(q, s) && OpenOk(q, s) && PushedOk(q, s)
    && (forall v: nat :: v < |s.state| ==> ScoreOk(q, s, v))
    && (forall v: nat :: v < |s.state| && s.state[v] == CLOSED && v != busy ==> Expanded(q, s, v))
  }

  // ------------------------------------------------------------ steps

  function Fresh(q: Problem): Search
    requires q.start < Size(q.m)
  {
    var n := Size(q.m);
    Search(seq(n, _ => INT_MAX)[q.start := 0], seq(n, _ => INT_MAX), seq(n, _ => INT_MAX), seq(n, _ => NOT_HANDLED),
           multiset{Entry(q.start, INT_MAX)}, multiset{q.start})
  }

  function Popped(s: Search, e: Entry): Search
    requires e.cell < |s.state|
  {
    s.(state := s.state[e.cell := CLOSED], open := s.open - multiset{e})
  }

  // A neighbour of the cell being expanded gets a better score if this way is cheaper.
  function Relaxed(s: Search, c: nat, v: nat, price: nat, h: int): Search
    requires c < |s.g| && v < |s.g| == |s.f| == |s.parent| == |s.state|
  {
    var g := s.g[c] + price;
    if s.g[v] <= g then s
    else if s.state[v] != NOT_HANDLED then s.(g := s.g[v := g], parent := s.parent[v := c])
    else Search(s.g[v := g], s.f[v := g + h], s.parent[v := c], s.state[v := OPEN],
                s.open + multiset{Entry(v, g + h)}, s.pushed + multiset{v})
  }

  lemma FreshInv(q: Problem)
    requires Posed(q)
    ensures Inv(q, Fresh(q), -1)
  {
    assert ClosedCells(Fresh(q)) == {};
  }

  ghost function UpTo(n: nat): (r: set<nat>)
    ensures |r| == n && forall v: nat :: v in r <==> v < n
  {
    if n == 0 then {} else UpTo(n - 1) + {n - 1}
  }

  lemma SubsetSize(a: set<nat>, b: set<nat>)
    requires a <= b
    ensures |a| <= |b|
  {
    assert b == a + (b - a);
  }

  lemma ClosedBound(s: Search)
    ensures |ClosedCells(s)| <= |s.state|
  {
    SubsetSize(ClosedCells(s), UpTo(|s.state|));
  }

  lemma ClosedGrows(s: Search, e: Entry)
    requires e.cell < |s.state| && s.state[e.cell] != CLOSED
    ensures ClosedCells(Popped(s, e)) == ClosedCells(s) + {e.cell}
      && |ClosedCells(Popped(s, e))| == |ClosedCells(s)| + 1
  {
    assert ClosedCells(Popped(s, e)) == ClosedCells(s) + {e.cell};
  }

  /** The cell taken from the open list was waiting; closing it makes it the one being expanded. */
  lemma PopKeepsInv(q: Problem, s: Search, e: Entry)
    requires Inv(q, s, -1) && e in s.open
    ensures e.cell < |s.state| && s.state[e.cell] != CLOSED
    ensures var after := Popped(s, e);
      Inv(q, after, e.cell) && |ClosedCells(after)| == |ClosedCells(s)| + 1
      && 0 <= after.g[e.cell] <= MAX_STEP * (|ClosedCells(after)| - 1)
  {
    PopWaits(q, s, e);
    ClosedGrows(s, e);
    PopScores(q, s, e);
    PopOpen(q, s, e);
    assert ScoreOk(q, s, e.cell);
    hide StepCost, Near, ClosedCells, OpenOk, PushedOk, ScoreOk;
    var after := Popped(s, e);
    forall v: nat | v < |after.state| && after.state[v] == CLOSED && v != e.cell ensures Expanded(q, after, v) {
      assert Expanded(q, s, v);
    }
  }

  lemma PopWaits(q: Problem, s: Search, e: Entry)
    requires Shaped(q, s) && OpenOk(q, s) && e in s.open
    ensures e.cell < |s.state| && Waits(q, s, e.cell) && e.key == s.f[e.cell]
  {}

  // A derived score stays so while it and its parent are left alone.
  lemma DerivedStays(q: Problem, s: Search, t: Search, v: nat)
    requires Shaped(q, s) && Shaped(q, t) && v < |s.state| && Derived(q, s, v)
    requires t.parent[v] == s.parent[v] && t.g[v] == s.g[v]
    requires forall u :: 0 <= u < |s.state| && s.state[u] == CLOSED ==> t.state[u] == CLOSED && t.g[u] == s.g[u]
    ensures Derived(q, t, v)
  {}

  lemma PopScores(q: Problem, s: Search, e: Entry)
    requires Posed(q) && Shaped(q, s) && e.cell < |s.state| && s.state[e.cell] != CLOSED && Waits(q, s, e.cell)
    requires forall v: nat :: v < |s.state| ==> ScoreOk(q, s, v)
    ensures forall v: nat :: v < |s.state| ==> ScoreOk(q, Popped(s, e), v)
  {
    hide StepCost, Near, ClosedCells, Derived;
    ClosedGrows(s, e);
    forall v: nat | v < |s.state| ensures ScoreOk(q, Popped(s, e), v) {
      assert ScoreOk(q, s, v);
      if v != q.start && Handled(s, v) { DerivedStays(q, s, Popped(s, e), v); }
    }
  }

  lemma PopOpen(q: Problem, s: Search, e: Entry)
    requires Shaped(q, s) && OpenOk(q, s) && PushedOk(q, s) && e in s.open
    ensures e.cell < |s.state|
    ensures Shaped(q, Popped(s, e)) && OpenOk(q, Popped(s, e)) && PushedOk(q, Popped(s, e))
  {
    var after := Popped(s, e);
    PopPushed(q, s, e);
    hide PushedOk;
    forall x | x in after.open
      ensures x.cell < |after.state| && x.key == after.f[x.cell] && after.open[x] == 1 && Waits(q, after, x.cell)
    {
      assert x in s.open;
    }
  }

  lemma PopPushed(q: Problem, s: Search, e: Entry)
    requires Shaped(q, s) && e.cell < |s.state| && Waits(q, s, e.cell) && PushedOk(q, s)
    ensures PushedOk(q, Popped(s, e))
  {
    forall v: nat ensures Popped(s, e).pushed[v] == if v == q.start || Handled(Popped(s, e), v) then 1 else 0 {
      assert s.pushed[v] == if v == q.start || Handled(s, v) then 1 else 0;
    }
  }

  // What relaxing needs to know about the two cells.
  predicate CanRelax(q: Problem, s: Search, c: nat, v: nat)
    requires Shaped(q, s)
  {
    Near(q.m, c, v) && s.state[c] == CLOSED && s.state[v] != CLOSED && q.cost[v] < q.limit && v != q.start
  }

  lemma StepBound(q: Problem, c: nat, v: nat)
    requires Posed(q) && Near(q.m, c, v)
    ensures 0 < StepCost(q.m, q.cost, c, v) <= MAX_STEP
  {
    hide Inside, Size, Near, MoveCost;
    NearSize(q.m, c, v);
    NeighboursCost(q.m, c, v);
  }

  lemma NearSize(m: Grid, a: int, b: int)
    requires Near(m, a, b)
    ensures 0 <= a < Size(m) && 0 <= b < Size(m)
  {
    hide X, Y;
  }

  // The neighbour itself: its score was finite already or is set now.
  lemma RelaxedScore(q: Problem, s: Search, c: nat, v: nat, h: int)
    requires Inv(q, s, c) && CanRelax(q, s, c, v) && 0 <= s.g[c] <= MAX_STEP * (|ClosedCells(s)| - 1)
    ensures var after := Relaxed(s, c, v, StepCost(q.m, q.cost, c, v), h);
      Shaped(q, after) && ClosedCells(after) == ClosedCells(s) && Handled(after, v) && ScoreOk(q, after, v)
  {
    hide ClosedCells, StepCost, Near, OpenOk, PushedOk, Expanded, Size, Inside;
    NearSize(q.m, c, v);
    StepBound(q, c, v);
    ClosedStays(s, Relaxed(s, c, v, StepCost(q.m, q.cost, c, v), h));
    ClosedBound(s);
    assert ScoreOk(q, s, v);
  }

  // Any other cell.
  lemma SparedScore(q: Problem, s: Search, c: nat, v: nat, price: nat, h: int, u: nat)
    requires Shaped(q, s) && c < |s.g| && v < |s.g| && v != q.start && s.state[v] != CLOSED
    requires u < |s.state| && u != v && ScoreOk(q, s, u)
    requires ClosedCells(Relaxed(s, c, v, price, h)) == ClosedCells(s)
    ensures ScoreOk(q, Relaxed(s, c, v, price, h), u)
  {
    hide ClosedCells, StepCost, Near, Derived, Size;
    if u != q.start && Handled(s, u) { DerivedStays(q, s, Relaxed(s, c, v, price, h), u); }
  }

  lemma RelaxScores(q: Problem, s: Search, c: nat, v: nat, h: int)
    requires Inv(q, s, c) && CanRelax(q, s, c, v) && 0 <= s.g[c] <= MAX_STEP * (|ClosedCells(s)| - 1)
    ensures var after := Relaxed(s, c, v, StepCost(q.m, q.cost, c, v), h);
      Shaped(q, after) && ClosedCells(after) == ClosedCells(s) && Handled(after, v)
      && (forall u: nat :: u < |after.state| ==> ScoreOk(q, after, u))
  {
    hide ClosedCells, StepCost, Near, OpenOk, PushedOk, Expanded, ScoreOk;
    NearSize(q.m, c, v);
    var after := Relaxed(s, c, v, StepCost(q.m, q.cost, c, v), h);
    RelaxedScore(q, s, c, v, h);
    forall u: nat | u < |after.state| ensures ScoreOk(q, after, u) {
      if u != v { SparedScore(q, s, c, v, StepCost(q.m, q.cost, c, v), h, u); }
    }
  }

  lemma ClosedStays(s: Search, t: Search)
    requires |t.state| == |s.state| && forall v :: 0 <= v < |s.state| ==>
      (t.state[v] == CLOSED <==> s.state[v] == CLOSED)
    ensures ClosedCells(t) == ClosedCells(s)
  {}

  lemma RelaxOpen(q: Problem, s: Search, c: nat, v: nat, price: nat, h: int)
    requires Shaped(q, s) && c < |s.g| && v < |s.g| && v != q.start && OpenOk(q, s) && PushedOk(q, s)
    ensures var after := Relaxed(s, c, v, price, h); Shaped(q, after) && OpenOk(q, after) && PushedOk(q, after)
  {
    hide PushedOk, Size;
    var after := Relaxed(s, c, v, price, h);
    RelaxPushed(q, s, c, v, price, h);
    forall e | e in after.open
      ensures e.cell < |after.state| && e.key == after.f[e.cell] && after.open[e] == 1 && Waits(q, after, e.cell)
    {
      assert e in s.open || (e.cell == v && s.state[v] == NOT_HANDLED && e.key == after.f[v]);
      assert e in s.open ==> Waits(q, s, e.cell);
    }
  }

  lemma RelaxPushed(q: Problem, s: Search, c: nat, v: nat, price: nat, h: int)
    requires Shaped(q, s) && c < |s.g| && v < |s.g| && v != q.start && PushedOk(q, s)
    ensures PushedOk(q, Relaxed(s, c, v, price, h))
  {
    var after := Relaxed(s, c, v, price, h);
    forall u: nat ensures after.pushed[u] == if u == q.start || Handled(after, u) then 1 else 0 {
      assert s.pushed[u] == if u == q.start || Handled(s, u) then 1 else 0;
    }
  }

  /** Relaxing a neighbour keeps everything; afterwards the neighbour is handled. */
  lemma RelaxKeepsInv(q: Problem, s: Search, c: nat, v: nat, h: int)
    requires Inv(q, s, c) && CanRelax(q, s, c, v) && 0 <= s.g[c] <= MAX_STEP * (|ClosedCells(s)| - 1)
    ensures var after := Relaxed(s, c, v, StepCost(q.m, q.cost, c, v), h);
      Inv(q, after, c) && Handled(after, v) && after.g[c] == s.g[c] && ClosedCells(after) == ClosedCells(s)
      && (forall u :: Handled(s, u) ==> Handled(after, u))
      && (forall u :: 0 <= u < |s.state| && s.state[u] == CLOSED ==> after.state[u] == CLOSED)
  {
    var after := Relaxed(s, c, v, StepCost(q.m, q.cost, c, v), h);
    RelaxScores(q, s, c, v, h);
    RelaxOpen(q, s, c, v, StepCost(q.m, q.cost, c, v), h);
    hide StepCost, Near, ClosedCells, OpenOk, PushedOk, ScoreOk;
    forall u: nat | u < |after.state| && after.state[u] == CLOSED && u != c ensures Expanded(q, after, u) {
      assert Expanded(q, s, u);
    }
  }

  /** With nothing left to expand, whatever can be reached has been closed. */
  lemma AllReachedAreClosed(q: Problem, s: Search, goal: nat)
    requires Inv(q, s, -1) && s.open == multiset{} && Reachable(q.m, q.cost, q.limit, q.start, goal)
    ensures goal < |s.state| && s.state[goal] == CLOSED
  {
    hide StepCost, ScoreOk, X, Y;
    var p: seq<int> :| IsPath(q.m, q.cost, q.limit, p) && p[0] == q.start && p[|p| - 1] == goal;
    var closed := set v: int | 0 <= v < |s.state| && s.state[v] == CLOSED;
    assert !Waits(q, s, q.start);
    forall a, b | a in closed && Near(q.m, a, b) && q.cost[b] < q.limit ensures b in closed {
      NearInside(q.m, a, b);
      assert Expanded(q, s, a);
      assert !Waits(q, s, b);
    }
    ClosedHoldsPath(q.m, q.cost, q.limit, p, closed);
  }

  lemma NearInside(m: Grid, a: int, b: int)
    requires Near(m, a, b)
    ensures Inside(m, a) && Inside(m, b)
  {}

  /** The way back from a closed cell along parents: scores fall and stay exact. */
  lemma ParentIsCloser(q: Problem, s: Search, busy: int, v: nat)
    requires Inv(q, s, busy)
    requires v < |s.state| && s.state[v] == CLOSED && v != q.start
    ensures Derived(q, s, v) && 0 <= s.parent[v] < |s.g| && 0 <= s.g[s.parent[v]] < s.g[v]
  {
    assert ScoreOk(q, s, v);
    var p := s.parent[v];
    NeighboursCost(q.m, p, v);
    assert ScoreOk(q, s, p);
  }
}
