// The behaviour tree as a value: its shape, the state of its nodes, what holds between ticks,
// and what one tick of each kind of node reports.
module BehaviorSpec {
  datatype BehaviorState = RUNNING | SUCCESS | FAILURE | IDLE

  datatype AbortType = NONE | SELF | LOW_PRIORITY | BOTH

  datatype Kind = Parallel(threshold: nat) | Selector | Sequence | Action | Precondition(abort: AbortType)

  // A node of a tree numbered parents first: a node's subtree is the range up to its end.
  datatype Shape = Shape(kind: Kind, parent: int, pos: nat, end: nat, children: seq<nat>)

  // What a node remembers from tick to tick.
  datatype Cell = Cell(state: BehaviorState, index: nat, done: seq<bool>, successes: nat, failures: nat)

  // What the environment answers during one tick: conditions and the results of actions.
  datatype World = World(holds: nat -> bool, result: nat -> BehaviorState)

  // A child's report to its parent.
  datatype Report = Report(pos: nat, state: BehaviorState)

  predicate IsNode(t: seq<Shape>, n: int) {
    0 <= n < |t|
  }

  predicate IsChild(t: seq<Shape>, n: int, k: int) {
    IsNode(t, n) && 0 <= k < |t[n].children|
  }

  predicate NodeShape(t: seq<Shape>, n: nat)
    requires IsNode(t, n)
  {
    && n < t[n].end <= |t|
    && (if n == 0 then t[n].parent == -1
        else 0 <= t[n].parent < n && IsChild(t, t[n].parent, t[n].pos) && t[t[n].parent].children[t[n].pos] == n)
    && (t[n].kind.Action? ==> t[n].children == [])
    && (t[n].kind.Precondition? ==> |t[n].children| <= 1)
  }

  predicate ChildShape(t: seq<Shape>, n: nat, k: nat)
    requires IsChild(t, n, k)
  {
    var c := t[n].children[k];
    IsNode(t, c) && n < c < t[n].end && t[c].parent == n && t[c].pos == k
  }

  // Subtrees are nested or apart.
  predicate Nested(t: seq<Shape>, c: nat, x: nat)
    requires IsNode(t, c) && IsNode(t, x)
  {
    c < x < t[c].end ==> c <= t[x].parent && t[x].end <= t[c].end
  }

  ghost predicate Preorder(t: seq<Shape>) {
    && t != [] && t[0].end == |t|
    && (forall n :: IsNode(t, n) ==> NodeShape(t, n))
    && (forall n, k :: IsChild(t, n, k) ==> ChildShape(t, n, k))
    && (forall c, x :: IsNode(t, c) && IsNode(t, x) ==> Nested(t, c, x))
  }

  lemma NodeFacts(t: seq<Shape>, n: nat)
    requires Preorder(t) && IsNode(t, n)
    ensures NodeShape(t, n)
  {}

  lemma ChildFacts(t: seq<Shape>, n: nat, k: nat)
    requires Preorder(t) && IsChild(t, n, k)
    ensures ChildShape(t, n, k) && NodeShape(t, t[n].children[k]) && t[t[n].children[k]].end <= t[n].end
  {
    assert ChildShape(t, n, k);
    assert Nested(t, n, t[n].children[k]);
  }

  lemma NestedFacts(t: seq<Shape>, c: nat, x: nat)
    requires Preorder(t) && IsNode(t, c) && IsNode(t, x)
    ensures Nested(t, c, x)
  {}

  // Of a node's subtree, the part that hangs below one child.
  lemma {:induction false} ChildHolding(t: seq<Shape>, n: nat, x: nat) returns (k: nat)
    requires Preorder(t) && IsNode(t, n) && IsNode(t, x) && n < x < t[n].end
    ensures IsChild(t, n, k) && ChildShape(t, n, k) && t[n].children[k] <= x < t[t[n].children[k]].end
    decreases x
  {
    hide Preorder;
    NestedFacts(t, n, x);
    NodeFacts(t, x);
    var p := t[x].parent;
    if p == n {
      k := t[x].pos;
      ChildFacts(t, n, k);
    } else {
      ChildFacts(t, p, t[x].pos);
      k := ChildHolding(t, n, p);
      NestedFacts(t, t[n].children[k], p);
    }
  }

  // Different children have separate subtrees.
  lemma SiblingsApart(t: seq<Shape>, n: nat, j: nat, k: nat)
    requires Preorder(t) && IsChild(t, n, j) && IsChild(t, n, k) && j != k
    ensures ChildShape(t, n, j) && ChildShape(t, n, k)
    ensures var c, d := t[n].children[j], t[n].children[k]; c < t[c].end <= d || d < t[d].end <= c
  {
    hide Preorder;
    ChildFacts(t, n, j);
    ChildFacts(t, n, k);
    NestedFacts(t, t[n].children[j], t[n].children[k]);
    NestedFacts(t, t[n].children[k], t[n].children[j]);
  }

  // ------------------------------------------------------------ what holds between ticks

  predicate Fits(t: seq<Shape>, a: seq<Cell>) {
    |a| == |t|
  }

  predicate ChildRunning(t: seq<Shape>, a: seq<Cell>, n: nat, k: nat)
    requires IsChild(t, n, k)
  {
    t[n].children[k] < |a| && a[t[n].children[k]].state == RUNNING
  }

  // No child runs, but for one perhaps.
  ghost predicate OthersQuiet(t: seq<Shape>, a: seq<Cell>, n: nat, w: int) {
    forall k :: IsChild(t, n, k) && k != w ==> !ChildRunning(t, a, n, k)
  }

  // size - threshold in 64-bit unsigned arithmetic
  function Margin(size: nat, threshold: nat): int {
    if threshold <= size then size - threshold else 0x1_0000_0000_0000_0000 + size - threshold
  }

  // A limit is looked at only when the count goes up.
  predicate HoldsOff(count: nat, limit: int) {
    count == 0 || count < limit
  }

  // Of the children a Parallel is done with, those that ended in a given way.
  ghost function Ended(t: seq<Shape>, a: seq<Cell>, n: nat, s: BehaviorState): set<nat>
    requires IsNode(t, n) && Fits(t, a)
  {
    set k: nat | k < |t[n].children| && k < |a[n].done| && a[n].done[k]
      && t[n].children[k] < |a| && a[t[n].children[k]].state == s
  }

  ghost predicate Counted(t: seq<Shape>, a: seq<Cell>, n: nat)
    requires IsNode(t, n) && Fits(t, a)
  {
    && |a[n].done| == |t[n].children|
    && a[n].successes == |Ended(t, a, n, SUCCESS)| && a[n].failures == |Ended(t, a, n, FAILURE)|
    && (forall k :: IsChild(t, n, k) && a[n].done[k] ==> !ChildRunning(t, a, n, k))
  }

  // A Parallel that goes on is short of either of its limits, and knows all that ended.
  ghost predicate Undecided(t: seq<Shape>, a: seq<Cell>, n: nat)
    requires IsNode(t, n) && Fits(t, a) && t[n].kind.Parallel?
  {
    && Counted(t, a, n)
    && HoldsOff(a[n].successes, t[n].kind.threshold)
    && HoldsOff(a[n].failures, Margin(|t[n].children|, t[n].kind.threshold))
    && (forall k :: IsChild(t, n, k) && t[n].children[k] < |a| && a[t[n].children[k]].state in {SUCCESS, FAILURE} ==>
      a[n].done[k])
  }

  // How a node that goes on stands with its children.
  ghost predicate GoesOn(t: seq<Shape>, a: seq<Cell>, n: nat)
    requires IsNode(t, n) && Fits(t, a)
  {
    match t[n].kind
    case Action => true
    case Precondition(_) => IsChild(t, n, 0) && ChildRunning(t, a, n, 0)
    case Parallel(_) => Undecided(t, a, n)
    case _ => IsChild(t, n, a[n].index) && ChildRunning(t, a, n, a[n].index) && OthersQuiet(t, a, n, a[n].index)
  }

  /** A node not running has no running child; one that runs a branch runs just the one at its index. */
  ghost predicate NodeOk(t: seq<Shape>, a: seq<Cell>, n: nat)
    requires IsNode(t, n) && Fits(t, a)
  {
    if a[n].state == RUNNING then GoesOn(t, a, n) else OthersQuiet(t, a, n, -1)
  }

  ghost predicate Good(t: seq<Shape>, a: seq<Cell>, lo: nat, hi: nat) {
    Fits(t, a) && hi <= |t| && forall m: nat :: lo <= m < hi ==> NodeOk(t, a, m)
  }

  /** Nothing runs below a node that does not run. */
  lemma {:induction false} NothingRunsBelow(t: seq<Shape>, a: seq<Cell>, n: nat, m: nat)
    requires Preorder(t) && IsNode(t, n) && Good(t, a, n, t[n].end)
    requires a[n].state != RUNNING && n <= m < t[n].end
    ensures a[m].state != RUNNING
    decreases m
  {
    hide Preorder;
    if m != n {
      NestedFacts(t, n, m);
      NodeFacts(t, m);
      var p := t[m].parent;
      NothingRunsBelow(t, a, n, p);
      assert NodeOk(t, a, p) && OthersQuiet(t, a, p, -1);
      assert !ChildRunning(t, a, p, t[m].pos);
    }
  }

  // The child above a node that runs does run.
  lemma RunsThrough(t: seq<Shape>, a: seq<Cell>, n: nat, x: nat) returns (k: nat)
    requires Preorder(t) && IsNode(t, n) && Good(t, a, n, t[n].end) && n < x < t[n].end && a[x].state == RUNNING
    ensures IsChild(t, n, k) && ChildShape(t, n, k) && ChildRunning(t, a, n, k)
    ensures t[n].children[k] <= x < t[t[n].children[k]].end <= t[n].end
  {
    hide Preorder;
    k := ChildHolding(t, n, x);
    ChildFacts(t, n, k);
    var c := t[n].children[k];
    if a[c].state != RUNNING { NothingRunsBelow(t, a, c, x); }
  }

  /** In a tree without Parallel nodes at most one action runs. */
  lemma {:induction false} OneRunningAction(t: seq<Shape>, a: seq<Cell>, n: nat, x: nat, y: nat)
    requires Preorder(t) && IsNode(t, n) && Good(t, a, n, t[n].end)
    requires forall m :: IsNode(t, m) ==> !t[m].kind.Parallel?
    requires n <= x < t[n].end && t[x].kind.Action? && a[x].state == RUNNING
    requires n <= y < t[n].end && t[y].kind.Action? && a[y].state == RUNNING
    ensures x == y
    decreases t[n].end - n
  {
    hide Preorder;
    NodeFacts(t, n);
    if x != y {
      assert NodeOk(t, a, n);
      if x == n {
        var k := RunsThrough(t, a, n, y);
      } else if y == n {
        var j := RunsThrough(t, a, n, x);
      } else {
        var j := RunsThrough(t, a, n, x);
        var k := RunsThrough(t, a, n, y);
        assert !t[n].kind.Parallel? && j == k;
        OneRunningAction(t, a, t[n].children[j], x, y);
      }
    }
  }

  // ------------------------------------------------------------ changes to part of a tree

  ghost predicate SameOutside(a: seq<Cell>, b: seq<Cell>, lo: nat, hi: nat) {
    |a| == |b| && forall m :: 0 <= m < |a| && !(lo <= m < hi) ==> b[m] == a[m]
  }

  // Everything that runs in a range made idle.
  ghost function Stopped(a: seq<Cell>, lo: nat, hi: nat): (b: seq<Cell>)
    ensures |b| == |a|
  {
    seq(|a|, m requires 0 <= m < |a| => if lo <= m < hi && a[m].state == RUNNING then a[m].(state := IDLE) else a[m])
  }

  // A node outside a child's subtree that is not the parent sees no change in it.
  lemma KeepsOk(t: seq<Shape>, a: seq<Cell>, b: seq<Cell>, c: nat, m: nat)
    requires Preorder(t) && IsNode(t, c) && IsNode(t, m) && Fits(t, a) && SameOutside(a, b, c, t[c].end)
    requires !(c <= m < t[c].end) && m != t[c].parent && NodeOk(t, a, m)
    ensures NodeOk(t, b, m)
  {
    hide Preorder;
    forall k: nat | IsChild(t, m, k)
      ensures ChildShape(t, m, k) && b[t[m].children[k]] == a[t[m].children[k]]
    {
      ChildFacts(t, m, k);
      NestedFacts(t, c, t[m].children[k]);
    }
    SameChildren(t, a, b, m);
  }

  lemma SameChildren(t: seq<Shape>, a: seq<Cell>, b: seq<Cell>, m: nat)
    requires IsNode(t, m) && Fits(t, a) && |b| == |a| && NodeOk(t, a, m) && b[m] == a[m]
    requires forall k: nat :: IsChild(t, m, k) ==> ChildShape(t, m, k) && b[t[m].children[k]] == a[t[m].children[k]]
    ensures NodeOk(t, b, m)
  {
    assert forall k :: IsChild(t, m, k) ==> ChildRunning(t, b, m, k) == ChildRunning(t, a, m, k);
    assert Ended(t, b, m, SUCCESS) == Ended(t, a, m, SUCCESS);
    assert Ended(t, b, m, FAILURE) == Ended(t, a, m, FAILURE);
  }

  /** A change that leaves a child's subtree in order leaves the rest below the parent in order. */
  lemma GoodAround(t: seq<Shape>, a: seq<Cell>, b: seq<Cell>, n: nat, k: nat)
    requires Preorder(t) && IsChild(t, n, k) && Good(t, a, n + 1, t[n].end)
    requires var c := t[n].children[k]; IsNode(t, c) && SameOutside(a, b, c, t[c].end) && Good(t, b, c, t[c].end)
    ensures Good(t, b, n + 1, t[n].end)
    ensures forall j: nat :: IsChild(t, n, j) && j != k ==>
      ChildShape(t, n, j) && b[t[n].children[j]] == a[t[n].children[j]]
  {
    hide Preorder, NodeOk;
    var c := t[n].children[k];
    ChildFacts(t, n, k);
    forall m: nat | n + 1 <= m < t[n].end ensures NodeOk(t, b, m) {
      assert m < c || m >= t[c].end || NodeOk(t, b, m);
      if !(c <= m < t[c].end) { KeepsOk(t, a, b, c, m); }
    }
    forall j: nat | IsChild(t, n, j) && j != k
      ensures ChildShape(t, n, j) && b[t[n].children[j]] == a[t[n].children[j]]
    {
      SiblingsApart(t, n, j, k);
    }
  }

  /** A stopped subtree is in order. */
  lemma StoppedGood(t: seq<Shape>, a: seq<Cell>, c: nat)
    requires Preorder(t) && IsNode(t, c) && Fits(t, a)
    ensures t[c].end <= |t|
    ensures Good(t, Stopped(a, c, t[c].end), c, t[c].end) && SameOutside(a, Stopped(a, c, t[c].end), c, t[c].end)
  {
    hide Preorder;
    NodeFacts(t, c);
    var b := Stopped(a, c, t[c].end);
    forall m: nat | c <= m < t[c].end ensures NodeOk(t, b, m) {
      forall k | IsChild(t, m, k) ensures !ChildRunning(t, b, m, k) {
        ChildFacts(t, m, k);
        if m != c { NestedFacts(t, c, m); }
      }
    }
  }

  // Cells changed from running to idle at most, below a node.
  ghost predicate OnlyStopped(a: seq<Cell>, b: seq<Cell>, lo: nat, hi: nat) {
    SameOutside(a, b, lo, hi) && forall m :: 0 <= m < |a| && lo <= m < hi ==>
      b[m] == a[m] || (a[m].state == RUNNING && b[m] == a[m].(state := IDLE))
  }

  /** Once no child runs, all that ran below has been stopped. */
  lemma AllStopped(t: seq<Shape>, a: seq<Cell>, b: seq<Cell>, n: nat)
    requires Preorder(t) && IsNode(t, n) && Fits(t, a) && OnlyStopped(a, b, n + 1, t[n].end)
    requires Good(t, b, n + 1, t[n].end) && OthersQuiet(t, b, n, -1)
    ensures b == Stopped(a, n + 1, t[n].end)
  {
    hide Preorder, NodeOk;
    forall m: nat | n + 1 <= m < t[n].end ensures b[m].state != RUNNING {
      var k := ChildHolding(t, n, m);
      var c := t[n].children[k];
      ChildFacts(t, n, k);
      assert !ChildRunning(t, b, n, k);
      NothingRunsBelow(t, b, c, m);
    }
  }

  // ------------------------------------------------------------ aborts

  // A Precondition its Selector looks at again while a branch to its right runs.
  predicate Flagged(t: seq<Shape>, n: nat)
    requires IsNode(t, n)
  {
    t[n].kind.Precondition? && t[n].kind.abort in {LOW_PRIORITY, BOTH}
  }

  // A Precondition without a child always succeeds and never aborts anything.
  predicate Bare(t: seq<Shape>, n: nat)
    requires IsNode(t, n)
  {
    t[n].kind.Precondition? && t[n].children == []
  }

  predicate Watched(t: seq<Shape>, a: seq<Cell>, n: nat)
    requires IsNode(t, n)
  {
    var p := t[n].parent;
    !Bare(t, n) && IsNode(t, p) && p < |a| && t[p].kind.Selector? && Flagged(t, n) && t[n].pos < a[p].index
  }

  // The branch that runs instead.
  function Rival(t: seq<Shape>, a: seq<Cell>, n: nat): nat
    requires IsNode(t, n) && Watched(t, a, n) && IsChild(t, t[n].parent, a[t[n].parent].index)
  {
    t[t[n].parent].children[a[t[n].parent].index]
  }

  // What a node may find around it when it is run.
  ghost predicate Surrounded(t: seq<Shape>, a: seq<Cell>, n: nat)
    requires IsNode(t, n)
  {
    Watched(t, a, n) ==>
      IsChild(t, t[n].parent, a[t[n].parent].index) && IsNode(t, Rival(t, a, n))
      && Good(t, a, Rival(t, a, n), t[Rival(t, a, n)].end)
  }

  /** An abort stops the branch that runs and turns the parent to this one; nothing else changes. */
  ghost function Around(t: seq<Shape>, a: seq<Cell>, n: nat, world: World): (b: seq<Cell>)
    requires IsNode(t, n) && Fits(t, a) && Surrounded(t, a, n)
    ensures |b| == |a|
  {
    if Watched(t, a, n) && world.holds(n) then
      var p, d := t[n].parent, Rival(t, a, n);
      var b := Stopped(a, d, t[d].end);
      b[p := b[p].(index := t[n].pos)]
    else a
  }

  // ------------------------------------------------------------ what a tick reports

  // Whether a Precondition lets its child be run.
  predicate Passes(t: seq<Shape>, a: seq<Cell>, n: nat, world: World)
    requires IsChild(t, n, 0) && t[n].kind.Precondition?
  {
    if Watched(t, a, n) || t[n].kind.abort in {SELF, BOTH} || !ChildRunning(t, a, n, 0) then world.holds(n) else true
  }

  ghost predicate PreconditionTick(t: seq<Shape>, a: seq<Cell>, n: nat, world: World, ran: seq<Report>,
      s: BehaviorState)
    requires IsNode(t, n) && t[n].kind.Precondition?
  {
    if !IsChild(t, n, 0) then ran == [] && s == SUCCESS
    else if Passes(t, a, n, world) then ran == [Report(0, s)]
    else ran == [] && s == FAILURE
  }

  /** A Sequence goes on from where it was; what it ran before its last report succeeded. */
  ghost predicate SequenceTick(t: seq<Shape>, from: nat, n: nat, ran: seq<Report>, s: BehaviorState)
    requires IsNode(t, n)
  {
    if t[n].children == [] then ran == [] && s == SUCCESS
    else
      && ran != [] && from + |ran| <= |t[n].children|
      && (forall j :: 0 <= j < |ran| ==> ran[j] == Report(from + j, if j < |ran| - 1 then SUCCESS else s))
      && (s == SUCCESS ==> from + |ran| == |t[n].children|)
  }

  // A flagged condition with a child, which holds: run again left of its Selector's index it takes over.
  predicate TakesOver(t: seq<Shape>, n: nat, k: nat, world: World)
    requires IsChild(t, n, k)
  {
    var c := t[n].children[k];
    IsNode(t, c) && Flagged(t, c) && !Bare(t, c) && world.holds(c)
  }

  /** Where a Selector goes on: at the first child from k up to its index that takes over, else at the index. */
  function Turn(t: seq<Shape>, n: nat, world: World, k: nat, index: nat): (r: nat)
    requires IsNode(t, n) && k <= index <= |t[n].children|
    ensures k <= r <= index
    ensures forall j :: k <= j < r ==> !TakesOver(t, n, j, world)
    ensures r < index ==> TakesOver(t, n, r, world)
    decreases index - k
  {
    if k == index || TakesOver(t, n, k, world) then k else Turn(t, n, world, k + 1, index)
  }

  // The children a Selector runs: the flagged ones, and all from where it goes on.
  predicate Due(t: seq<Shape>, n: nat, from: nat, k: nat)
    requires IsChild(t, n, k)
  {
    var c := t[n].children[k];
    from <= k || (IsNode(t, c) && Flagged(t, c))
  }

  // What counts as a failure: Preconditions without a child are passed over left of where it goes on.
  predicate Counts(t: seq<Shape>, n: nat, from: nat, r: Report)
    requires IsNode(t, n)
  {
    && IsChild(t, n, r.pos) && Due(t, n, from, r.pos)
    && (r.state == FAILURE || (r.pos < from && IsNode(t, t[n].children[r.pos]) && Bare(t, t[n].children[r.pos])))
  }

  // Reports of failures, one from each due child below w and in their order.
  ghost predicate Failed(t: seq<Shape>, n: nat, from: nat, ran: seq<Report>, w: nat)
    requires IsNode(t, n)
  {
    && (forall j :: 0 <= j < |ran| ==> ran[j].pos < w && Counts(t, n, from, ran[j]))
    && (forall i, j :: 0 <= i < j < |ran| ==> ran[i].pos < ran[j].pos)
    && (forall k: nat :: k < w && IsChild(t, n, k) && Due(t, n, from, k) ==> exists r :: r in ran && r.pos == k)
  }

  /**
   * What a Selector ran before its last report failed, and it left out no due child; it fails only
   * when its last child does.
   */
  ghost predicate SelectorTick(t: seq<Shape>, n: nat, from: nat, ran: seq<Report>, s: BehaviorState)
    requires IsNode(t, n)
  {
    if t[n].children == [] then ran == [] && s == SUCCESS
    else
      && ran != []
      && var last := ran[|ran| - 1];
      last.state == s && IsChild(t, n, last.pos) && from <= last.pos && Failed(t, n, from, ran[..|ran| - 1], last.pos)
      && (s == FAILURE ==> last.pos == |t[n].children| - 1)
  }

  function Tally(ran: seq<Report>, s: BehaviorState): nat {
    if ran == [] then 0 else Tally(ran[..|ran| - 1], s) + (if ran[|ran| - 1].state == s then 1 else 0)
  }

  // Neither limit of a Parallel is reached with the reports of a tick added to its counts.
  predicate Short(t: seq<Shape>, n: nat, c: Cell, ran: seq<Report>)
    requires IsNode(t, n) && t[n].kind.Parallel?
  {
    && HoldsOff(c.successes + Tally(ran, SUCCESS), t[n].kind.threshold)
    && HoldsOff(c.failures + Tally(ran, FAILURE), Margin(|t[n].children|, t[n].kind.threshold))
  }

  // Reports of children not done yet, in order, all of those below w.
  ghost predicate Pending(done: seq<bool>, ran: seq<Report>, w: nat) {
    && (forall j :: 0 <= j < |ran| ==> ran[j].pos < w && ran[j].pos < |done| && !done[ran[j].pos])
    && (forall i, j :: 0 <= i < j < |ran| ==> ran[i].pos < ran[j].pos)
    && (forall k: nat :: k < w && k < |done| && !done[k] ==> exists r :: r in ran && r.pos == k)
  }

  /** A Parallel runs each child that is not done, until a report makes it reach one of its limits. */
  ghost predicate ParallelTick(t: seq<Shape>, c: Cell, n: nat, ran: seq<Report>, s: BehaviorState)
    requires IsNode(t, n) && t[n].kind.Parallel?
  {
    if t[n].children == [] then ran == [] && s == SUCCESS
    else if s == RUNNING then Pending(c.done, ran, |t[n].children|) && Short(t, n, c, ran)
    else
      && ran != [] && s in {SUCCESS, FAILURE} && ran[|ran| - 1].state == s
      && Pending(c.done, ran, ran[|ran| - 1].pos + 1)
      && Short(t, n, c, ran[..|ran| - 1])
      && (s == SUCCESS ==> c.successes + Tally(ran, s) >= t[n].kind.threshold)
      && (s == FAILURE ==> c.failures + Tally(ran, s) >= Margin(|t[n].children|, t[n].kind.threshold))
  }

  // A node at the start of a tick: as it was if it runs, else from the beginning.
  function Entered(t: seq<Shape>, n: nat, c: Cell): Cell
    requires IsNode(t, n)
  {
    if c.state == RUNNING then c
    else match t[n].kind
      case Selector => c.(index := 0)
      case Sequence => c.(index := 0)
      case Parallel(_) => c.(done := seq(|t[n].children|, _ => false), successes := 0, failures := 0)
      case _ => c
  }

  // The child a Selector or Sequence is at when a tick starts.
  function StartOf(c: Cell): nat {
    if c.state == RUNNING then c.index else 0
  }

  ghost predicate TickOk(t: seq<Shape>, a: seq<Cell>, n: nat, world: World, ran: seq<Report>, s: BehaviorState)
    requires IsNode(t, n) && Fits(t, a)
  {
    match t[n].kind
    case Action => ran == [] && s == world.result(n)
    case Precondition(_) => PreconditionTick(t, a, n, world, ran, s)
    case Sequence => SequenceTick(t, StartOf(a[n]), n, ran, s)
    case Selector =>
      StartOf(a[n]) <= |t[n].children| && SelectorTick(t, n, Turn(t, n, world, 0, StartOf(a[n])), ran, s)
    case Parallel(_) => ParallelTick(t, Entered(t, n, a[n]), n, ran, s)
  }

  // All children but the last are conditions that may abort what runs to their right.
  ghost predicate AllButLastFlagged(t: seq<Shape>, n: nat)
    requires IsNode(t, n)
  {
    forall k: nat :: k < |t[n].children| - 1 ==>
      var c := t[n].children[k];
      IsNode(t, c) && Flagged(t, c) && !Bare(t, c)
  }

  lemma {:induction false} PositionAtLeast(t: seq<Shape>, n: nat, from: nat, ran: seq<Report>, w: nat, j: nat)
    requires IsNode(t, n) && Failed(t, n, from, ran, w) && j < |ran|
    ensures ran[j].pos >= j
  {
    if j > 0 { PositionAtLeast(t, n, from, ran, w, j - 1); }
  }

  // If every child below w is due, each of them has reported.
  lemma {:induction false} FailedAreAll(t: seq<Shape>, n: nat, from: nat, ran: seq<Report>, w: nat, j: nat)
    requires IsNode(t, n) && w < |t[n].children| && Failed(t, n, from, ran, w) && j < w
    requires forall k: nat :: k < w ==> Due(t, n, from, k)
    ensures j < |ran| && ran[j].pos == j
    decreases j
  {
    assert IsChild(t, n, j) && Due(t, n, from, j);
    var r :| r in ran && r.pos == j;
    var i :| 0 <= i < |ran| && ran[i] == r;
    if j > 0 { FailedAreAll(t, n, from, ran, w, j - 1); }
    PositionAtLeast(t, n, from, ran, w, i);
    assert i == j;
  }

  // The children reported from the first on, once each and in order, all failing but the last of
  // these, whose report is the result; a failure comes from the last child of all.
  ghost predicate InOrderUpTo(ran: seq<Report>, s: BehaviorState, children: nat) {
    && 0 < |ran| <= children
    && (forall j :: 0 <= j < |ran| ==> ran[j] == Report(j, if j < |ran| - 1 then FAILURE else s))
    && (s == FAILURE ==> |ran| == children)
  }

  /**
   * If every child that may be passed over is due and has a child, the children run in a tick are
   * those from the first up to one, once each and in order; all but this one failed, and what it
   * reports is the result.
   */
  lemma AllDueInOrder(t: seq<Shape>, n: nat, from: nat, ran: seq<Report>, s: BehaviorState)
    requires IsNode(t, n) && t[n].children != [] && SelectorTick(t, n, from, ran, s)
    requires forall k: nat :: k < |t[n].children| - 1 ==>
      from <= k || (IsNode(t, t[n].children[k]) && Flagged(t, t[n].children[k]) && !Bare(t, t[n].children[k]))
    ensures InOrderUpTo(ran, s, |t[n].children|)
  {
    var init, w := ran[..|ran| - 1], ran[|ran| - 1].pos;
    forall j: nat | j < w ensures j < |init| && init[j] == Report(j, FAILURE) {
      FailedAreAll(t, n, from, init, w, j);
      assert Counts(t, n, from, init[j]);
    }
    if w > 0 { FailedAreAll(t, n, from, init, w, w - 1); }
    if init != [] { PositionAtLeast(t, n, from, init, w, |init| - 1); }
    assert |init| == w;
    assert forall j :: 0 <= j < w ==> ran[j] == init[j];
  }

  /** A Selector whose children but the last are conditions with priority looks at all of them in order. */
  lemma PriorityIsKept(t: seq<Shape>, n: nat, from: nat, ran: seq<Report>, s: BehaviorState)
    requires IsNode(t, n) && AllButLastFlagged(t, n) && t[n].children != []
    requires SelectorTick(t, n, from, ran, s)
    ensures InOrderUpTo(ran, s, |t[n].children|)
  {
    AllDueInOrder(t, n, from, ran, s);
  }

  /** A Selector that starts runs its children from the first on until one does not fail. */
  lemma SelectorFromFirst(t: seq<Shape>, a: seq<Cell>, n: nat, world: World, ran: seq<Report>, s: BehaviorState)
    requires IsNode(t, n) && Fits(t, a) && t[n].kind.Selector? && t[n].children != [] && a[n].state != RUNNING
    requires TickOk(t, a, n, world, ran, s)
    ensures InOrderUpTo(ran, s, |t[n].children|)
  {
    AllDueInOrder(t, n, 0, ran, s);
  }

  /**
   * A Selector that goes on looks at nothing but conditions with priority left of where it was,
   * and if none of them holds at all children from there until one does not fail; the first that
   * holds takes over, and children are run from it on.
   */
  lemma SelectorGoesOn(t: seq<Shape>, a: seq<Cell>, n: nat, world: World, ran: seq<Report>, s: BehaviorState, j: nat)
    requires IsNode(t, n) && Fits(t, a) && t[n].kind.Selector? && t[n].children != [] && a[n].state == RUNNING
    requires TickOk(t, a, n, world, ran, s) && j < |ran|
    ensures IsChild(t, n, ran[j].pos)
    ensures ran[j].pos < a[n].index ==>
      || (IsNode(t, t[n].children[ran[j].pos]) && Flagged(t, t[n].children[ran[j].pos]))
      || exists k: nat :: k < ran[j].pos && IsChild(t, n, k) && TakesOver(t, n, k, world)
    ensures (forall k: nat :: k < a[n].index && IsChild(t, n, k) ==> !TakesOver(t, n, k, world)) ==>
      ran[|ran| - 1].pos >= a[n].index
    ensures forall k: nat :: k < a[n].index && IsChild(t, n, k) && TakesOver(t, n, k, world) ==>
      exists i :: 0 <= i < |ran| && ran[i].pos <= k && IsChild(t, n, ran[i].pos) && TakesOver(t, n, ran[i].pos, world)
  {
    var from, init, last := Turn(t, n, world, 0, a[n].index), ran[..|ran| - 1], ran[|ran| - 1];
    if j < |init| {
      assert Counts(t, n, from, init[j]);
    }
    if from < a[n].index {
      assert TakesOver(t, n, from, world) && Due(t, n, from, from);
      if from < last.pos {
        var r :| r in init && r.pos == from;
        assert r in ran;
      }
    }
  }

  // What a tick of a node must show if it is a Selector of that kind.
  ghost predicate Prioritised(t: seq<Shape>, n: nat, ran: seq<Report>, s: BehaviorState)
    requires IsNode(t, n)
  {
    t[n].kind.Selector? && t[n].children != [] && AllButLastFlagged(t, n) ==> InOrderUpTo(ran, s, |t[n].children|)
  }

  lemma TickIsPrioritised(t: seq<Shape>, a: seq<Cell>, n: nat, world: World, ran: seq<Report>, s: BehaviorState)
    requires IsNode(t, n) && Fits(t, a) && TickOk(t, a, n, world, ran, s)
    ensures Prioritised(t, n, ran, s)
  {
    hide AllButLastFlagged, SelectorTick, Turn;
    if t[n].kind.Selector? && t[n].children != [] && AllButLastFlagged(t, n) {
      PriorityIsKept(t, n, Turn(t, n, world, 0, StartOf(a[n])), ran, s);
    }
  }

  // ------------------------------------------------------------ what runs has leave to run

  // A Precondition that looks at its condition as long as its child runs.
  predicate Lasting(t: seq<Shape>, n: nat)
    requires IsNode(t, n)
  {
    t[n].kind.Precondition? && t[n].kind.abort in {SELF, BOTH}
  }

  // Every Precondition that runs, and looks at its condition in every tick, has one that holds.
  ghost predicate Upheld(t: seq<Shape>, b: seq<Cell>, lo: nat, hi: nat, world: World) {
    && hi <= |t| && Fits(t, b)
    && forall m: nat :: lo <= m < hi && b[m].state == RUNNING && Lasting(t, m) ==> world.holds(m)
  }

  // Every Precondition that runs, and did not run before, has a condition that holds.
  ghost predicate Started(t: seq<Shape>, a: seq<Cell>, b: seq<Cell>, lo: nat, hi: nat, world: World) {
    hi <= |t| && Fits(t, a) && Fits(t, b) && forall m: nat ::
      lo <= m < hi && a[m].state != RUNNING && b[m].state == RUNNING && t[m].kind.Precondition? ==> world.holds(m)
  }

  // What running a node leaves below it.
  ghost predicate Sanctioned(t: seq<Shape>, a: seq<Cell>, b: seq<Cell>, n: nat, s: BehaviorState, world: World)
    requires IsNode(t, n)
  {
    Started(t, a, b, n + 1, t[n].end, world) && (s == RUNNING ==> Upheld(t, b, n + 1, t[n].end, world))
  }

  lemma StartedTrans(t: seq<Shape>, a: seq<Cell>, b: seq<Cell>, c: seq<Cell>, lo: nat, hi: nat, world: World)
    requires Started(t, a, b, lo, hi, world) && Started(t, b, c, lo, hi, world)
    ensures Started(t, a, c, lo, hi, world)
  {}

  // Stopping starts nothing.
  lemma StartedByStopping(t: seq<Shape>, a: seq<Cell>, b: seq<Cell>, lo: nat, hi: nat, world: World)
    requires hi <= |t| && Fits(t, a) && Fits(t, b)
    requires forall m: nat :: lo <= m < hi && b[m].state == RUNNING ==> a[m].state == RUNNING
    ensures Started(t, a, b, lo, hi, world)
  {}

  lemma NoneRunning(t: seq<Shape>, a: seq<Cell>, b: seq<Cell>, lo: nat, hi: nat, world: World)
    requires hi <= |t| && Fits(t, a) && Fits(t, b) && forall m: nat :: lo <= m < hi ==> b[m].state != RUNNING
    ensures Started(t, a, b, lo, hi, world) && Upheld(t, b, lo, hi, world)
  {}

  // Nothing runs below a child that does not.
  lemma QuietChildUpheld(t: seq<Shape>, b: seq<Cell>, n: nat, k: nat, world: World)
    requires Preorder(t) && IsChild(t, n, k) && Good(t, b, n + 1, t[n].end) && !ChildRunning(t, b, n, k)
    ensures ChildShape(t, n, k) && Upheld(t, b, t[n].children[k], t[t[n].children[k]].end, world)
  {
    hide Preorder, NodeOk;
    ChildFacts(t, n, k);
    var c := t[n].children[k];
    forall m: nat | c <= m < t[c].end ensures b[m].state != RUNNING { NothingRunsBelow(t, b, c, m); }
  }

  /** What holds below every child holds below the node. */
  lemma UpheldBelow(t: seq<Shape>, b: seq<Cell>, n: nat, world: World)
    requires Preorder(t) && IsNode(t, n) && Fits(t, b)
    requires forall k: nat :: IsChild(t, n, k) ==>
      ChildShape(t, n, k) && Upheld(t, b, t[n].children[k], t[t[n].children[k]].end, world)
    ensures t[n].end <= |t| && Upheld(t, b, n + 1, t[n].end, world)
  {
    hide Preorder;
    NodeFacts(t, n);
    forall m: nat | n + 1 <= m < t[n].end && b[m].state == RUNNING && Lasting(t, m) ensures world.holds(m) {
      var k := ChildHolding(t, n, m);
    }
  }

  lemma OneChildUpheld(t: seq<Shape>, b: seq<Cell>, n: nat, k: nat, world: World)
    requires Preorder(t) && IsChild(t, n, k) && ChildShape(t, n, k) && Good(t, b, n + 1, t[n].end)
    requires OthersQuiet(t, b, n, k)
    requires Upheld(t, b, t[n].children[k], t[t[n].children[k]].end, world)
    ensures t[n].end <= |t| && Upheld(t, b, n + 1, t[n].end, world)
  {
    assert Fits(t, b);
    hide Preorder, Good, Upheld;
    forall j: nat | IsChild(t, n, j)
      ensures ChildShape(t, n, j) && Upheld(t, b, t[n].children[j], t[t[n].children[j]].end, world)
    {
      if j != k { QuietChildUpheld(t, b, n, j, world); }
    }
    UpheldBelow(t, b, n, world);
  }

  // A change elsewhere.
  lemma UpheldElsewhere(t: seq<Shape>, a: seq<Cell>, b: seq<Cell>, lo: nat, hi: nat, world: World)
    requires Upheld(t, a, lo, hi, world) && |b| == |a| && forall m: nat :: lo <= m < hi ==> b[m].state == a[m].state
    ensures Upheld(t, b, lo, hi, world)
  {}

  // ------------------------------------------------------------ what a tick means, kind by kind

  /**
   * A Precondition whose condition holds runs its child; one whose condition does not hold fails
   * without running it, unless the child runs already and the condition is only for its start.
   */
  lemma PreconditionDecides(t: seq<Shape>, a: seq<Cell>, n: nat, world: World, ran: seq<Report>, s: BehaviorState)
    requires IsChild(t, n, 0) && t[n].kind.Precondition? && Fits(t, a) && TickOk(t, a, n, world, ran, s)
    ensures world.holds(n) ==> ran == [Report(0, s)]
    ensures !world.holds(n) && (!ChildRunning(t, a, n, 0) || t[n].kind.abort in {SELF, BOTH}) ==>
      ran == [] && s == FAILURE
    ensures !world.holds(n) && ChildRunning(t, a, n, 0) && t[n].kind.abort == NONE ==> ran == [Report(0, s)]
    ensures !world.holds(n) && ChildRunning(t, a, n, 0) && t[n].kind.abort == LOW_PRIORITY ==>
      var p := t[n].parent;
      if IsNode(t, p) && t[p].kind.Selector? && t[n].pos < a[p].index then ran == [] && s == FAILURE
      else ran == [Report(0, s)]
  {}

  /** A Sequence that starts runs its children from the first on until one does not succeed. */
  lemma SequenceFromFirst(t: seq<Shape>, a: seq<Cell>, n: nat, world: World, ran: seq<Report>, s: BehaviorState)
    requires IsNode(t, n) && t[n].kind.Sequence? && t[n].children != [] && Fits(t, a) && a[n].state != RUNNING
    requires TickOk(t, a, n, world, ran, s)
    ensures 0 < |ran| <= |t[n].children|
    ensures forall j :: 0 <= j < |ran| ==> ran[j] == Report(j, if j < |ran| - 1 then SUCCESS else s)
    ensures s == SUCCESS ==> |ran| == |t[n].children|
  {}

  /** A Sequence that goes on runs its children from the one it was at, until one does not succeed. */
  lemma SequenceGoesOn(t: seq<Shape>, a: seq<Cell>, n: nat, world: World, ran: seq<Report>, s: BehaviorState)
    requires IsNode(t, n) && t[n].kind.Sequence? && t[n].children != [] && Fits(t, a) && a[n].state == RUNNING
    requires TickOk(t, a, n, world, ran, s)
    ensures 0 < |ran| <= |t[n].children| - a[n].index
    ensures forall j :: 0 <= j < |ran| ==> ran[j] == Report(a[n].index + j, if j < |ran| - 1 then SUCCESS else s)
    ensures s == SUCCESS ==> a[n].index + |ran| == |t[n].children|
  {}

  // The reports with a given state.
  function With(ran: seq<Report>, s: BehaviorState): set<nat> {
    set j: nat | j < |ran| && ran[j].state == s
  }

  lemma {:induction false} TallyCounts(ran: seq<Report>, s: BehaviorState)
    ensures Tally(ran, s) == |With(ran, s)|
  {
    if ran != [] {
      var n := |ran| - 1;
      TallyCounts(ran[..n], s);
      assert With(ran, s) == With(ran[..n], s) + if ran[n].state == s then {n} else {};
    }
  }

  lemma {:induction false} PendingAreAll(done: seq<bool>, ran: seq<Report>, w: nat, j: nat)
    requires Pending(done, ran, w) && j < w <= |done| && forall k :: 0 <= k < |done| ==> !done[k]
    ensures j < |ran| && ran[j].pos == j
  {
    assert !done[j];
    var r :| r in ran && r.pos == j;
    var i :| 0 <= i < |ran| && ran[i] == r;
    if j > 0 { PendingAreAll(done, ran, w, j - 1); }
    PendingAtLeast(done, ran, w, i);
    assert i == j;
  }

  lemma {:induction false} PendingAtLeast(done: seq<bool>, ran: seq<Report>, w: nat, j: nat)
    requires Pending(done, ran, w) && j < |ran|
    ensures ran[j].pos >= j
  {
    if j > 0 { PendingAtLeast(done, ran, w, j - 1); }
  }

  // The failures after which a Parallel cannot succeed as it should, one at least.
  function Tolerance(children: nat, threshold: nat): nat {
    if threshold < children then children - threshold else 1
  }

  /**
   * A Parallel that starts runs its children from the first on, and reports as soon as as many as
   * its threshold have succeeded, or as many have failed as there are children beyond it.
   */
  lemma ParallelFromFirst(t: seq<Shape>, a: seq<Cell>, n: nat, world: World, ran: seq<Report>, s: BehaviorState)
    requires IsNode(t, n) && t[n].kind.Parallel? && Fits(t, a) && a[n].state != RUNNING
    requires 0 < t[n].kind.threshold <= |t[n].children| && TickOk(t, a, n, world, ran, s)
    ensures 0 < |ran| <= |t[n].children| && forall j :: 0 <= j < |ran| ==> ran[j].pos == j
    ensures var threshold, tolerance := t[n].kind.threshold, Tolerance(|t[n].children|, t[n].kind.threshold);
      match s
      case SUCCESS => ran[|ran| - 1].state == s && |With(ran, s)| == threshold && |With(ran, FAILURE)| < tolerance
      case FAILURE => ran[|ran| - 1].state == s && |With(ran, s)| == tolerance && |With(ran, SUCCESS)| < threshold
      case RUNNING => |ran| == |t[n].children| && |With(ran, SUCCESS)| < threshold && |With(ran, FAILURE)| < tolerance
      case IDLE => false
  {
    TallyCounts(ran, SUCCESS);
    TallyCounts(ran, FAILURE);
    hide With, Pending;
    var done := Entered(t, n, a[n]).done;
    ReportsAreAll(done, ran, if s == RUNNING then |done| else ran[|ran| - 1].pos + 1);
    if s != RUNNING {
      TallyMore(ran[..|ran| - 1], ran[|ran| - 1], SUCCESS);
      TallyMore(ran[..|ran| - 1], ran[|ran| - 1], FAILURE);
      assert ran == ran[..|ran| - 1] + [ran[|ran| - 1]];
    }
  }

  lemma {:induction false} TallyBound(ran: seq<Report>, s: BehaviorState)
    ensures Tally(ran, s) <= |ran|
  {
    if ran != [] { TallyBound(ran[..|ran| - 1], s); }
  }

  /**
   * With a threshold above the number of its children, both 32 bits wide, a Parallel that starts
   * never ends by itself: the unsigned difference is out of reach, too.
   */
  lemma ParallelStuck(t: seq<Shape>, a: seq<Cell>, n: nat, world: World, ran: seq<Report>, s: BehaviorState)
    requires IsNode(t, n) && t[n].kind.Parallel? && Fits(t, a) && a[n].state != RUNNING && t[n].children != []
    requires |t[n].children| < t[n].kind.threshold < 0x1_0000_0000 && TickOk(t, a, n, world, ran, s)
    ensures s == RUNNING
  {
    TallyBound(ran, SUCCESS);
    TallyBound(ran, FAILURE);
    if s != RUNNING {
      ReportsAreAll(Entered(t, n, a[n]).done, ran, ran[|ran| - 1].pos + 1);
      assert false;
    }
  }

  lemma ReportsAreAll(done: seq<bool>, ran: seq<Report>, w: nat)
    requires Pending(done, ran, w) && forall k :: 0 <= k < |done| ==> !done[k]
    requires w == |done| || (ran != [] && w == ran[|ran| - 1].pos + 1)
    ensures |ran| == w <= |done| && forall j :: 0 <= j < |ran| ==> ran[j].pos == j
  {
    forall j: nat | j < w ensures j < |ran| && ran[j].pos == j {
      PendingAreAll(done, ran, w, j);
    }
    if w > 0 { PendingAreAll(done, ran, w, w - 1); }
    if |ran| > w { PendingAtLeast(done, ran, w, w); }
  }

  // ------------------------------------------------------------ steps of the updates

  lemma FailedMore(t: seq<Shape>, n: nat, from: nat, ran: seq<Report>, i: nat, s: BehaviorState)
    requires IsChild(t, n, i) && Failed(t, n, from, ran, i) && Counts(t, n, from, Report(i, s))
    ensures Failed(t, n, from, ran + [Report(i, s)], i + 1)
  {
    var more := ran + [Report(i, s)];
    assert more[|ran|] == Report(i, s);
    forall k: nat | k < i + 1 && IsChild(t, n, k) && Due(t, n, from, k) ensures exists r :: r in more && r.pos == k {
      if k < i {
        var r :| r in ran && r.pos == k;
        assert r in more;
      }
    }
  }

  lemma FailedSkip(t: seq<Shape>, n: nat, from: nat, ran: seq<Report>, i: nat)
    requires IsChild(t, n, i) && Failed(t, n, from, ran, i) && !Due(t, n, from, i)
    ensures Failed(t, n, from, ran, i + 1)
  {}

  lemma FailedNone(t: seq<Shape>, n: nat, from: nat)
    requires IsNode(t, n)
    ensures Failed(t, n, from, [], 0)
  {}

  lemma FailedLast(t: seq<Shape>, n: nat, from: nat, ran: seq<Report>, w: nat, s: BehaviorState)
    requires IsChild(t, n, w) && Failed(t, n, from, ran, w) && from <= w && (s == FAILURE ==> w == |t[n].children| - 1)
    ensures SelectorTick(t, n, from, ran + [Report(w, s)], s)
  {
    assert (ran + [Report(w, s)])[..|ran|] == ran;
  }

  lemma TallyMore(ran: seq<Report>, r: Report, s: BehaviorState)
    ensures Tally(ran + [r], s) == Tally(ran, s) + (if r.state == s then 1 else 0)
  {
    assert (ran + [r])[..|ran|] == ran;
  }

  lemma PendingMore(done: seq<bool>, ran: seq<Report>, i: nat, s: BehaviorState)
    requires Pending(done, ran, i) && i < |done| && !done[i]
    ensures Pending(done, ran + [Report(i, s)], i + 1)
  {
    var more := ran + [Report(i, s)];
    assert more[|ran|] == Report(i, s);
    forall k: nat | k < i + 1 && k < |done| && !done[k] ensures exists r :: r in more && r.pos == k {
      if k < i {
        var r :| r in ran && r.pos == k;
        assert r in more;
      }
    }
  }
}
