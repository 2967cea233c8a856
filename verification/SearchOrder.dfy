// The order in which an A* search closes cells, and that it accounts for every score the search
// leaves: what a cell was offered, by which cells, and when it was its turn.
module SearchOrder {
  import opened Options
  import opened Grid
  import opened AStarSearch
  import opened Estimates

  // What a search knows about a cell that it has come across.
  datatype Standing = Standing(g: int, f: int, parent: int)

  function StandingOf(s: Search, v: nat): Option<Standing>
    requires v < |s.g| == |s.f| == |s.parent| == |s.state|
  {
    if Handled(s, v) then Some(Standing(s.g[v], s.f[v], s.parent[v])) else None
  }

  predicate Placed(q: Problem, g: seq<int>, order: seq<nat>) {
    q.m.width > 0 && |q.cost| == Size(q.m) == |g| && forall i :: 0 <= i < |order| ==> order[i] < |g|
  }

  // The way to a cell over one of the cells closed.
  function Offer(q: Problem, g: seq<int>, order: seq<nat>, i: nat, v: nat): int
    requires Placed(q, g, order) && i < |order| && Near(q.m, order[i], v)
  {
    g[order[i]] + StepCost(q.m, q.cost, order[i], v)
  }

  /**
   * What is known about a cell after the first n cells closed have offered a way to it: the first
   * offer settles the f score, and each cheaper one the score and the parent.
   */
  function Got(q: Problem, factor: real, goal: int, g: seq<int>, order: seq<nat>, v: nat, n: nat): Option<Standing>
    requires Placed(q, g, order) && n <= |order|
  {
    if n == 0 then None
    else
      var before := Got(q, factor, goal, g, order, v, n - 1);
      if !Near(q.m, order[n - 1], v) then before
      else
        var offer := Offer(q, g, order, n - 1, v);
        match before
        case None => Some(Standing(offer, offer + ManhattanDistance(q.m, factor, v, goal), order[n - 1]))
        case Some(b) => if offer < b.g then Some(Standing(offer, b.f, order[n - 1])) else before
  }

  // The score and parent are those of the first of the best offers.
  ghost predicate BestOffer(q: Problem, g: seq<int>, order: seq<nat>, v: nat, n: nat, b: Standing, i: nat)
    requires Placed(q, g, order) && n <= |order|
  {
    && i < n && Near(q.m, order[i], v) && b.parent == order[i] && b.g == Offer(q, g, order, i, v)
    && (forall j :: 0 <= j < n && Near(q.m, order[j], v) ==> b.g <= Offer(q, g, order, j, v))
    && (forall j :: 0 <= j < i && Near(q.m, order[j], v) ==> b.g < Offer(q, g, order, j, v))
  }

  // The f score is that of the first offer.
  ghost predicate FirstOffer(q: Problem, factor: real, goal: int, g: seq<int>, order: seq<nat>, v: nat, n: nat,
      b: Standing, i: nat)
    requires Placed(q, g, order) && n <= |order|
  {
    && i < n && Near(q.m, order[i], v)
    && b.f == Offer(q, g, order, i, v) + ManhattanDistance(q.m, factor, v, goal)
    && forall j :: 0 <= j < i ==> !Near(q.m, order[j], v)
  }

  /**
   * A cell is known once a neighbour has been closed. Its score is then the least that its closed
   * neighbours offer, its parent the first to offer it, and its f score what the very first of
   * them offered and the estimate together.
   */
  lemma {:induction false} GotMeans(q: Problem, factor: real, goal: int, g: seq<int>, order: seq<nat>, v: nat, n: nat)
    returns (best: nat, first: nat)
    requires Placed(q, g, order) && n <= |order|
    ensures Got(q, factor, goal, g, order, v, n).Some? <==> exists i :: 0 <= i < n && Near(q.m, order[i], v)
    ensures Got(q, factor, goal, g, order, v, n).Some? ==>
      var b := Got(q, factor, goal, g, order, v, n).value;
      BestOffer(q, g, order, v, n, b, best) && FirstOffer(q, factor, goal, g, order, v, n, b, first)
    decreases n
  {
    hide Near, StepCost, ManhattanDistance, Offer;
    best, first := 0, 0;
    if n > 0 {
      best, first := GotMeans(q, factor, goal, g, order, v, n - 1);
      if Near(q.m, order[n - 1], v) {
        var before := Got(q, factor, goal, g, order, v, n - 1);
        if before.None? { first := n - 1; }
        if before.None? || Offer(q, g, order, n - 1, v) < before.value.g { best := n - 1; }
      }
    }
  }

  // ------------------------------------------------------------ the order and the search

  // A cell that may be entered.
  predicate Enterable(q: Problem, v: nat) {
    v < |q.cost| && q.cost[v] < q.limit && v != q.start
  }

  // The cells closed, one after the other.
  ghost predicate Listed(q: Problem, s: Search, order: seq<nat>) {
    && Shaped(q, s) && Placed(q, s.g, order)
    && (forall v: nat :: v in order <==> v < |s.state| && s.state[v] == CLOSED)
    && (forall i, j :: 0 <= i < j < |order| ==> order[i] != order[j])
    && (order != [] ==> order[0] == q.start)
  }

  // A cell closed stands as the cells closed before it left it.
  ghost predicate StoodAt(q: Problem, factor: real, goal: int, s: Search, order: seq<nat>, j: nat)
    requires Listed(q, s, order) && j < |order|
  {
    j > 0 ==>
      Enterable(q, order[j]) && StandingOf(s, order[j]) == Got(q, factor, goal, s.g, order, order[j], j)
  }

  // When it was closed, it had no greater f score than another cell known then.
  ghost predicate LeastAt(q: Problem, factor: real, goal: int, s: Search, order: seq<nat>, j: nat, v: nat)
    requires Listed(q, s, order) && j < |order|
  {
    Enterable(q, v) && v !in order[..j] && Got(q, factor, goal, s.g, order, v, j).Some? ==> s.f[order[j]] <= s.f[v]
  }

  /**
   * Each cell closed stands as the cells closed before it left it, and it had then the least f score
   * of all cells known and not closed.
   */
  ghost predicate ClosedInTurn(q: Problem, factor: real, goal: int, s: Search, order: seq<nat>)
    requires Listed(q, s, order)
  {
    && (forall j: nat :: j < |order| ==> StoodAt(q, factor, goal, s, order, j))
    && (forall j: nat, v: nat :: j < |order| ==> LeastAt(q, factor, goal, s, order, j, v))
  }

  /** Any other cell stands as the first n cells closed left it, and those done as one more did. */
  ghost predicate OthersKnown(q: Problem, factor: real, goal: int, s: Search, order: seq<nat>, n: nat, done: set<nat>)
    requires Listed(q, s, order) && n <= |order| && (done != {} ==> n < |order|)
  {
    forall v: nat :: Enterable(q, v) && v !in order ==>
      StandingOf(s, v) == Got(q, factor, goal, s.g, order, v, if v in done then n + 1 else n)
  }

  ghost predicate InTurn(q: Problem, factor: real, goal: int, s: Search, order: seq<nat>, n: nat, done: set<nat>) {
    && Listed(q, s, order) && n <= |order| && (done != {} ==> n < |order|)
    && ClosedInTurn(q, factor, goal, s, order) && OthersKnown(q, factor, goal, s, order, n, done)
  }

  // What was offered depends on the scores of the cells closed before only.
  lemma {:induction false} GotSame(q: Problem, factor: real, goal: int, g: seq<int>, order: seq<nat>, h: seq<int>,
      more: seq<nat>, v: nat, n: nat)
    requires Placed(q, g, order) && Placed(q, h, more) && n <= |order| && n <= |more|
    requires forall i :: 0 <= i < n ==> more[i] == order[i] && h[order[i]] == g[order[i]]
    ensures Got(q, factor, goal, h, more, v, n) == Got(q, factor, goal, g, order, v, n)
  {
    hide Near, StepCost, ManhattanDistance;
    if n > 0 { GotSame(q, factor, goal, g, order, h, more, v, n - 1); }
  }

  lemma {:induction false} GotStays(q: Problem, factor: real, goal: int, g: seq<int>, order: seq<nat>, v: nat, j: nat,
      n: nat)
    requires Placed(q, g, order) && j <= n <= |order| && Got(q, factor, goal, g, order, v, j).Some?
    ensures Got(q, factor, goal, g, order, v, n).Some?
    ensures Got(q, factor, goal, g, order, v, n).value.f == Got(q, factor, goal, g, order, v, j).value.f
    decreases n
  {
    hide Near, StepCost, ManhattanDistance, Offer;
    if j < n { GotStays(q, factor, goal, g, order, v, j, n - 1); }
  }

  lemma FreshInTurn(q: Problem, factor: real, goal: int)
    requires Posed(q) && q.m.width > 0
    ensures InTurn(q, factor, goal, Fresh(q), [], 0, {})
  {}

  lemma WidthPositive(q: Problem)
    requires Posed(q)
    ensures q.m.width > 0
  {
    RowBounds(q.m, q.start);
  }

  // ------------------------------------------------------------ one more cell closed

  lemma PopListed(q: Problem, s: Search, order: seq<nat>, e: Entry)
    requires Inv(q, s, -1) && Listed(q, s, order) && e in s.open && (order == [] ==> e.cell == q.start)
    ensures e.cell < |s.state| && e.cell !in order && Listed(q, Popped(s, e), order + [e.cell])
    ensures order != [] ==> Enterable(q, e.cell) && Handled(s, e.cell)
  {
    hide StepCost, Near, ClosedCells, PushedOk, Expanded;
    PopWaits(q, s, e);
    assert ScoreOk(q, s, e.cell);
    var more := order + [e.cell];
    assert q.start in order || order == [];
    forall v: nat ensures v in more <==> v < |s.state| && Popped(s, e).state[v] == CLOSED {
      assert v in more <==> v in order || v == e.cell;
    }
  }

  lemma ListedPlaced(q: Problem, s: Search, order: seq<nat>)
    requires Listed(q, s, order)
    ensures Shaped(q, s) && Placed(q, s.g, order)
  {}

  lemma PopStood(q: Problem, factor: real, goal: int, s: Search, order: seq<nat>, e: Entry, j: nat)
    requires Listed(q, s, order) && e.cell < |s.state| && e.cell !in order && j <= |order|
    requires Listed(q, Popped(s, e), order + [e.cell]) && (order != [] ==> Enterable(q, e.cell) && Handled(s, e.cell))
    requires ClosedInTurn(q, factor, goal, s, order) && OthersKnown(q, factor, goal, s, order, |order|, {})
    ensures StoodAt(q, factor, goal, Popped(s, e), order + [e.cell], j)
  {
    hide Got, Near, StepCost, LeastAt, Listed;
    var t, more := Popped(s, e), order + [e.cell];
    ListedPlaced(q, s, order);
    ListedPlaced(q, t, more);
    GotSame(q, factor, goal, s.g, order, t.g, more, more[j], j);
    if j < |order| {
      assert StoodAt(q, factor, goal, s, order, j);
      assert order[j] in order;
    }
  }

  lemma PopLeast(q: Problem, factor: real, goal: int, s: Search, order: seq<nat>, e: Entry, j: nat, v: nat)
    requires Listed(q, s, order) && e.cell < |s.state| && e.cell !in order && j <= |order|
    requires Listed(q, Popped(s, e), order + [e.cell])
    requires ClosedInTurn(q, factor, goal, s, order) && OthersKnown(q, factor, goal, s, order, |order|, {})
    requires forall v: nat :: v < |s.state| && Handled(s, v) && v !in order ==> s.f[e.cell] <= s.f[v]
    ensures LeastAt(q, factor, goal, Popped(s, e), order + [e.cell], j, v)
  {
    hide Got, Near, StepCost, StoodAt, Listed;
    var t, more := Popped(s, e), order + [e.cell];
    ListedPlaced(q, s, order);
    ListedPlaced(q, t, more);
    GotSame(q, factor, goal, s.g, order, t.g, more, v, j);
    assert more[..j] == order[..j];
    if j < |order| {
      assert LeastAt(q, factor, goal, s, order, j, v);
    } else {
      assert order[..j] == order;
    }
  }

  lemma PopOthers(q: Problem, factor: real, goal: int, s: Search, order: seq<nat>, e: Entry)
    requires Listed(q, s, order) && e.cell < |s.state| && Listed(q, Popped(s, e), order + [e.cell])
    requires OthersKnown(q, factor, goal, s, order, |order|, {})
    ensures OthersKnown(q, factor, goal, Popped(s, e), order + [e.cell], |order|, {})
  {
    hide Got, Near, StepCost, Listed;
    var t, more := Popped(s, e), order + [e.cell];
    ListedPlaced(q, s, order);
    ListedPlaced(q, t, more);
    forall v: nat | Enterable(q, v) && v !in more
      ensures StandingOf(t, v) == Got(q, factor, goal, t.g, more, v, |order|)
    {
      assert v !in order && v != e.cell;
      GotSame(q, factor, goal, s.g, order, t.g, more, v, |order|);
    }
  }

  lemma WaitingAreKnown(q: Problem, s: Search, order: seq<nat>, e: Entry)
    requires Listed(q, s, order) && e.cell < |s.f|
    requires forall v: nat :: v < |s.state| && Waits(q, s, v) ==> s.f[e.cell] <= s.f[v]
    ensures forall v: nat :: v < |s.state| && Handled(s, v) && v !in order ==> s.f[e.cell] <= s.f[v]
  {}

  lemma PopInTurn(q: Problem, factor: real, goal: int, s: Search, order: seq<nat>, e: Entry)
    requires Inv(q, s, -1) && InTurn(q, factor, goal, s, order, |order|, {}) && e in s.open
    requires order == [] ==> e.cell == q.start
    requires forall v: nat :: v < |s.state| && Waits(q, s, v) ==> s.f[e.cell] <= s.f[v]
    ensures e.cell < |s.state| && InTurn(q, factor, goal, Popped(s, e), order + [e.cell], |order|, {})
  {
    hide Inv, Got, Listed, StoodAt, LeastAt, OthersKnown, Waits;
    PopListed(q, s, order, e);
    ListedPlaced(q, s, order);
    WaitingAreKnown(q, s, order, e);
    var t, more := Popped(s, e), order + [e.cell];
    forall j: nat | j < |more| ensures StoodAt(q, factor, goal, t, more, j) {
      PopStood(q, factor, goal, s, order, e, j);
    }
    forall j: nat, v: nat | j < |more| ensures LeastAt(q, factor, goal, t, more, j, v) {
      PopLeast(q, factor, goal, s, order, e, j, v);
    }
    PopOthers(q, factor, goal, s, order, e);
  }

  // ------------------------------------------------------------ one more offer

  lemma RelaxListed(q: Problem, s: Search, order: seq<nat>, c: nat, v: nat, price: nat, h: int)
    requires Listed(q, s, order) && c < |s.g| && v < |s.g| && s.state[v] != CLOSED
    ensures Listed(q, Relaxed(s, c, v, price, h), order)
  {}

  lemma GotStep(q: Problem, factor: real, goal: int, g: seq<int>, order: seq<nat>, v: nat, n: nat)
    requires Placed(q, g, order) && 0 < n <= |order| && Near(q.m, order[n - 1], v)
    ensures var offer, before := Offer(q, g, order, n - 1, v), Got(q, factor, goal, g, order, v, n - 1);
      Got(q, factor, goal, g, order, v, n) ==
        if before.None? then Some(Standing(offer, offer + ManhattanDistance(q.m, factor, v, goal), order[n - 1]))
        else if offer < before.value.g then Some(Standing(offer, before.value.f, order[n - 1]))
        else before
  {}

  // The offer of the cell closed last, taken or not.
  lemma OfferTaken(q: Problem, factor: real, goal: int, s: Search, order: seq<nat>, v: nat)
    requires Shaped(q, s) && Placed(q, s.g, order) && order != [] && v < |s.g| && Near(q.m, order[|order| - 1], v)
    requires StandingOf(s, v) == Got(q, factor, goal, s.g, order, v, |order| - 1)
    requires !Handled(s, v) ==> s.g[v] > Offer(q, s.g, order, |order| - 1, v)
    ensures var c := order[|order| - 1];
      var t := Relaxed(s, c, v, StepCost(q.m, q.cost, c, v), ManhattanDistance(q.m, factor, v, goal));
      StandingOf(t, v) == Got(q, factor, goal, s.g, order, v, |order|)
  {
    hide Near, StepCost, ManhattanDistance, Got, Shaped, Relaxed, StandingOf;
    var c := order[|order| - 1];
    ShapedLengths(q, s);
    GotStep(q, factor, goal, s.g, order, v, |order|);
    RelaxedStanding(s, c, v, StepCost(q.m, q.cost, c, v), ManhattanDistance(q.m, factor, v, goal));
    StandingIs(s, v);
  }

  lemma StandingIs(s: Search, v: nat)
    requires v < |s.g| == |s.f| == |s.parent| == |s.state|
    ensures Handled(s, v) ==> StandingOf(s, v) == Some(Standing(s.g[v], s.f[v], s.parent[v]))
    ensures !Handled(s, v) ==> StandingOf(s, v) == None
  {}

  lemma RelaxedStanding(s: Search, c: nat, v: nat, price: nat, h: int)
    requires c < |s.g| && v < |s.g| == |s.f| == |s.parent| == |s.state|
    ensures var g, t := s.g[c] + price, Relaxed(s, c, v, price, h);
      && |t.g| == |t.f| == |t.parent| == |t.state| == |s.g|
      && StandingOf(t, v) ==
         if s.g[v] <= g then StandingOf(s, v)
         else if Handled(s, v) then Some(Standing(g, s.f[v], c))
         else Some(Standing(g, g + h, c))
  {}

  lemma ShapedLengths(q: Problem, s: Search)
    requires Shaped(q, s)
    ensures |s.g| == |s.f| == |s.parent| == |s.state| == |q.cost|
  {}

  // Two states of the search that differ in one cell at most, which is not closed.
  ghost predicate OneChanged(s: Search, t: Search, order: seq<nat>, v: nat) {
    && |s.g| == |t.g| == |s.f| == |t.f| == |s.parent| == |t.parent| == |s.state| == |t.state| && v !in order
    && forall u: nat :: u < |s.g| && u != v ==>
         t.g[u] == s.g[u] && t.f[u] == s.f[u] && t.parent[u] == s.parent[u] && t.state[u] == s.state[u]
  }

  lemma OneChangedGot(q: Problem, factor: real, goal: int, s: Search, t: Search, order: seq<nat>, v: nat, u: nat,
                      n: nat)
    requires Listed(q, s, order) && Listed(q, t, order) && OneChanged(s, t, order, v) && n <= |order|
    ensures Got(q, factor, goal, t.g, order, u, n) == Got(q, factor, goal, s.g, order, u, n)
  {
    hide Got, Listed;
    ListedPlaced(q, s, order);
    ListedPlaced(q, t, order);
    forall i | 0 <= i < n ensures t.g[order[i]] == s.g[order[i]] { assert order[i] in order; }
    GotSame(q, factor, goal, s.g, order, t.g, order, u, n);
  }

  lemma OneChangedStood(q: Problem, factor: real, goal: int, s: Search, t: Search, order: seq<nat>, v: nat, j: nat)
    requires Listed(q, s, order) && Listed(q, t, order) && OneChanged(s, t, order, v)
    requires j < |order| && StoodAt(q, factor, goal, s, order, j)
    ensures StoodAt(q, factor, goal, t, order, j)
  {
    hide Got, Listed;
    ListedPlaced(q, s, order);
    ListedPlaced(q, t, order);
    OneChangedGot(q, factor, goal, s, t, order, v, order[j], j);
    assert order[j] in order;
  }

  lemma OneChangedLeast(q: Problem, factor: real, goal: int, s: Search, t: Search, order: seq<nat>, v: nat, j: nat,
      u: nat)
    requires Listed(q, s, order) && Listed(q, t, order) && OneChanged(s, t, order, v)
    requires order != [] && v < |s.g| && StandingOf(s, v) == Got(q, factor, goal, s.g, order, v, |order| - 1)
    requires Handled(s, v) ==> t.f[v] == s.f[v]
    requires j < |order| && LeastAt(q, factor, goal, s, order, j, u)
    ensures LeastAt(q, factor, goal, t, order, j, u)
  {
    hide Got, Listed;
    ListedPlaced(q, s, order);
    ListedPlaced(q, t, order);
    OneChangedGot(q, factor, goal, s, t, order, v, u, j);
    assert order[j] in order;
    if u == v && Got(q, factor, goal, s.g, order, v, j).Some? {
      GotStays(q, factor, goal, s.g, order, v, j, |order| - 1);
    }
  }

  lemma OneChangedClosed(q: Problem, factor: real, goal: int, s: Search, t: Search, order: seq<nat>, v: nat)
    requires Listed(q, s, order) && Listed(q, t, order) && OneChanged(s, t, order, v)
    requires order != [] && v < |s.g| && StandingOf(s, v) == Got(q, factor, goal, s.g, order, v, |order| - 1)
    requires Handled(s, v) ==> t.f[v] == s.f[v]
    requires ClosedInTurn(q, factor, goal, s, order)
    ensures ClosedInTurn(q, factor, goal, t, order)
  {
    hide Got, Listed, StoodAt, LeastAt, OneChanged;
    forall j: nat | j < |order| ensures StoodAt(q, factor, goal, t, order, j) {
      OneChangedStood(q, factor, goal, s, t, order, v, j);
    }
    forall j: nat, u: nat | j < |order| ensures LeastAt(q, factor, goal, t, order, j, u) {
      OneChangedLeast(q, factor, goal, s, t, order, v, j, u);
    }
  }

  lemma OneChangedOthers(q: Problem, factor: real, goal: int, s: Search, t: Search, order: seq<nat>, n: nat,
      done: set<nat>, v: nat)
    requires Listed(q, s, order) && Listed(q, t, order) && OneChanged(s, t, order, v)
    requires n < |order| && v < |s.g| && StandingOf(t, v) == Got(q, factor, goal, s.g, order, v, n + 1)
    requires OthersKnown(q, factor, goal, s, order, n, done)
    ensures OthersKnown(q, factor, goal, t, order, n, done + {v})
  {
    hide Got, Listed;
    ListedPlaced(q, s, order);
    ListedPlaced(q, t, order);
    forall u: nat | Enterable(q, u) && u !in order
      ensures StandingOf(t, u) == Got(q, factor, goal, t.g, order, u, if u in done + {v} then n + 1 else n)
    {
      OneChangedGot(q, factor, goal, s, t, order, v, u, if u in done + {v} then n + 1 else n);
    }
  }

  lemma RelaxedIsOneChanged(q: Problem, s: Search, order: seq<nat>, c: nat, v: nat, price: nat, h: int)
    requires Shaped(q, s) && c < |s.g| && v < |s.g| && v !in order
    ensures OneChanged(s, Relaxed(s, c, v, price, h), order, v)
    ensures Handled(s, v) ==> Relaxed(s, c, v, price, h).f[v] == s.f[v]
  {}

  // A cell not come across yet has no score, and any offer is better.
  lemma AnyOfferIsBetter(q: Problem, s: Search, order: seq<nat>, v: nat)
    requires order != [] && Inv(q, s, order[|order| - 1]) && Placed(q, s.g, order)
    requires Near(q.m, order[|order| - 1], v) && v != q.start
    requires s.g[order[|order| - 1]] + MAX_STEP < INT_MAX
    ensures v < |s.g| && (!Handled(s, v) ==> s.g[v] > Offer(q, s.g, order, |order| - 1, v))
  {
    hide StepCost, ClosedCells, OpenOk, PushedOk, Expanded, Derived, X, Y;
    var c := order[|order| - 1];
    NearSize(q.m, c, v);
    StepBound(q, c, v);
    assert ScoreOk(q, s, v);
  }

  lemma RelaxInTurn(q: Problem, factor: real, goal: int, s: Search, order: seq<nat>, v: nat, done: set<nat>)
    requires order != [] && InTurn(q, factor, goal, s, order, |order| - 1, done) && v !in done
    requires Inv(q, s, order[|order| - 1]) && CanRelax(q, s, order[|order| - 1], v)
    requires s.g[order[|order| - 1]] + MAX_STEP < INT_MAX
    ensures var c := order[|order| - 1];
      var t := Relaxed(s, c, v, StepCost(q.m, q.cost, c, v), ManhattanDistance(q.m, factor, v, goal));
      InTurn(q, factor, goal, t, order, |order| - 1, done + {v})
  {
    hide StepCost, Near, Inv, Got, ManhattanDistance, ClosedInTurn, OthersKnown, Listed, OneChanged, Relaxed, Handled;
    var c := order[|order| - 1];
    ListedPlaced(q, s, order);
    NearSize(q.m, c, v);
    AnyOfferIsBetter(q, s, order, v);
    OpenNotListed(q, s, order, v);
    StandsAsOthers(q, factor, goal, s, order, v, done);
    RelaxListed(q, s, order, c, v, StepCost(q.m, q.cost, c, v), ManhattanDistance(q.m, factor, v, goal));
    RelaxedIsOneChanged(q, s, order, c, v, StepCost(q.m, q.cost, c, v), ManhattanDistance(q.m, factor, v, goal));
    OfferTaken(q, factor, goal, s, order, v);
    var t := Relaxed(s, c, v, StepCost(q.m, q.cost, c, v), ManhattanDistance(q.m, factor, v, goal));
    OneChangedClosed(q, factor, goal, s, t, order, v);
    OneChangedOthers(q, factor, goal, s, t, order, |order| - 1, done, v);
  }

  lemma OpenNotListed(q: Problem, s: Search, order: seq<nat>, v: nat)
    requires Listed(q, s, order) && v < |s.state| && s.state[v] != CLOSED
    ensures v !in order
  {}

  lemma StandsAsOthers(q: Problem, factor: real, goal: int, s: Search, order: seq<nat>, v: nat, done: set<nat>)
    requires order != [] && Listed(q, s, order) && OthersKnown(q, factor, goal, s, order, |order| - 1, done)
    requires v < |s.g| && v !in order && v !in done && q.cost[v] < q.limit && v != q.start
    ensures StandingOf(s, v) == Got(q, factor, goal, s.g, order, v, |order| - 1)
  {
    hide Got;
  }

  lemma SkipInTurn(q: Problem, factor: real, goal: int, s: Search, order: seq<nat>, n: nat, v: nat, done: set<nat>)
    requires InTurn(q, factor, goal, s, order, n, done) && n < |order| && (v in order || !Enterable(q, v))
    ensures InTurn(q, factor, goal, s, order, n, done + {v})
  {}

  /** Once every neighbour has had the offer, all cells have. */
  lemma AllOffered(q: Problem, factor: real, goal: int, s: Search, order: seq<nat>, done: set<nat>)
    requires order != [] && InTurn(q, factor, goal, s, order, |order| - 1, done)
    requires forall v: nat :: Near(q.m, order[|order| - 1], v) ==> v in done
    ensures InTurn(q, factor, goal, s, order, |order|, {})
  {
    hide Near, StepCost, ManhattanDistance;
    forall v: nat | Enterable(q, v) && v !in order
      ensures StandingOf(s, v) == Got(q, factor, goal, s.g, order, v, |order|)
    {}
  }

  // The cell that offers a way to all of its neighbours may be taken out of account.
  lemma LimitPositive(q: Problem, s: Search, c: nat)
    requires Posed(q) && Shaped(q, s) && c < |s.g| && s.g[c] <= MAX_STEP * (|ClosedCells(s)| - 1)
    ensures s.g[c] + MAX_STEP < INT_MAX
  {
    ClosedBound(s);
    assert MAX_STEP * |ClosedCells(s)| <= MAX_STEP * Size(q.m);
  }

  /**
   * What a search leaves behind: the cells it closed, each in its turn, and for any other cell the
   * offers of all of these but, if the search has ended with it, the last.
   */
  ghost predicate Explained(q: Problem, factor: real, goal: nat, s: Search, order: seq<nat>, found: bool) {
    && InTurn(q, factor, goal, s, order, if found && order != [] then |order| - 1 else |order|, {})
    && (found <==> goal in order) && (found ==> order != [] && order[|order| - 1] == goal)
  }

  lemma LeastOffer(q: Problem, factor: real, goal: int, g: seq<int>, order: seq<nat>, v: nat, n: nat, i: nat)
    requires Placed(q, g, order) && i < n <= |order| && Near(q.m, order[i], v)
    ensures Got(q, factor, goal, g, order, v, n).Some?
    ensures Got(q, factor, goal, g, order, v, n).value.g <= g[order[i]] + StepCost(q.m, q.cost, order[i], v)
  {
    var best, first := GotMeans(q, factor, goal, g, order, v, n);
    hide Near, StepCost, Got;
    assert Offer(q, g, order, i, v) == g[order[i]] + StepCost(q.m, q.cost, order[i], v);
  }

  /** In such a search no cell closed earlier offers a cheaper way to one closed later, the goal included. */
  lemma ClosedOverBest(q: Problem, factor: real, goal: nat, s: Search, order: seq<nat>, found: bool, i: nat, j: nat)
    requires Explained(q, factor, goal, s, order, found) && i < j < |order| && Listed(q, s, order)
    requires Near(q.m, order[i], order[j])
    ensures s.g[order[j]] <= s.g[order[i]] + StepCost(q.m, q.cost, order[i], order[j])
  {
    hide Near, StepCost, Got, ManhattanDistance;
    assert StoodAt(q, factor, goal, s, order, j);
    LeastOffer(q, factor, goal, s.g, order, order[j], j, i);
  }
}
