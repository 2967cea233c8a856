// The behaviour tree engine: nodes run and reset each other in place. All nodes of a tree live
// in one vector, numbered parents first; conditions and actions answer through World.
module BehaviorTree {
  import opened BehaviorSpec

  // How a node may stand with its children when it stops: what still runs is what will be reset.
  ghost predicate CanStop(t: seq<Shape>, a: seq<Cell>, n: nat, s: BehaviorState)
    requires IsNode(t, n) && Fits(t, a)
  {
    match t[n].kind
    case Action => true
    case Parallel(_) => true
    case Precondition(_) => if s == SUCCESS then OthersQuiet(t, a, n, -1) else IsChild(t, n, 0)
    case _ =>
      if s == IDLE then IsChild(t, n, a[n].index) && OthersQuiet(t, a, n, a[n].index)
      else OthersQuiet(t, a, n, -1)
  }

  ghost predicate Ends(t: seq<Shape>, a: seq<Cell>, n: nat, s: BehaviorState)
    requires IsNode(t, n) && Fits(t, a)
  {
    if s == RUNNING then GoesOn(t, a, n) else CanStop(t, a, n, s)
  }

  // A node about to be updated: going on, or freshly initialised with nothing running below.
  ghost predicate Ready(t: seq<Shape>, a: seq<Cell>, n: nat)
    requires IsNode(t, n) && Fits(t, a)
  {
    if a[n].state == RUNNING then GoesOn(t, a, n) else OthersQuiet(t, a, n, -1) && a[n] == Entered(t, n, a[n])
  }

  // Reports outside a subtree do not change.
  ghost predicate ReportsKept(t: seq<Shape>, r: seq<seq<Report>>, q: seq<seq<Report>>, n: nat)
    requires IsNode(t, n)
  {
    |q| == |r| == |t| && forall m :: 0 <= m < |r| && !(n <= m < t[n].end) ==> q[m] == r[m]
  }

  // A run adds one report to those of the parent and changes no other outside the subtree.
  ghost predicate Reported(t: seq<Shape>, r: seq<seq<Report>>, q: seq<seq<Report>>, n: nat, s: BehaviorState)
    requires IsNode(t, n)
  {
    |q| == |r| == |t| && forall m :: 0 <= m < |r| && !(n <= m < t[n].end) ==>
      q[m] == if m == t[n].parent then r[m] + [Report(t[n].pos, s)] else r[m]
  }

  // ------------------------------------------------------------ lemmas for stopping

  /** Resetting a child leaves the others as they are. */
  lemma StopChild(t: seq<Shape>, a: seq<Cell>, n: nat, k: nat)
    requires Preorder(t) && IsChild(t, n, k) && Good(t, a, n + 1, t[n].end)
    ensures ChildShape(t, n, k) && t[t[n].children[k]].end <= t[n].end
    ensures var c := t[n].children[k];
      var b := Stopped(a, c, t[c].end);
      Good(t, b, n + 1, t[n].end) && OnlyStopped(a, b, n + 1, t[n].end) && !ChildRunning(t, b, n, k)
      && forall j: nat :: IsChild(t, n, j) && j != k ==>
        ChildShape(t, n, j) && b[t[n].children[j]] == a[t[n].children[j]]
  {
    hide Preorder, NodeOk;
    ChildFacts(t, n, k);
    var c := t[n].children[k];
    StoppedGood(t, a, c);
    GoodAround(t, a, Stopped(a, c, t[c].end), n, k);
  }

  lemma NothingToStop(t: seq<Shape>, a: seq<Cell>, n: nat)
    requires Preorder(t) && IsNode(t, n) && Good(t, a, n, t[n].end) && a[n].state != RUNNING
    ensures Stopped(a, n, t[n].end) == a
  {
    hide Preorder, NodeOk;
    forall m: nat | n <= m < t[n].end ensures a[m].state != RUNNING {
      NothingRunsBelow(t, a, n, m);
    }
  }

  // Order below a node does not depend on the node itself or on anything outside.
  lemma GoodLocal(t: seq<Shape>, a: seq<Cell>, b: seq<Cell>, n: nat)
    requires Preorder(t) && IsNode(t, n) && Good(t, a, n + 1, t[n].end)
    requires |b| == |a| && forall m: nat :: n < m < t[n].end ==> b[m] == a[m]
    ensures Good(t, b, n + 1, t[n].end)
    ensures forall k :: IsChild(t, n, k) ==> ChildRunning(t, b, n, k) == ChildRunning(t, a, n, k)
  {
    hide Preorder, NodeOk;
    forall m: nat | n + 1 <= m < t[n].end ensures NodeOk(t, b, m) {
      forall k: nat | IsChild(t, m, k)
        ensures ChildShape(t, m, k) && b[t[m].children[k]] == a[t[m].children[k]]
      {
        ChildFacts(t, m, k);
        NestedFacts(t, n, m);
      }
      SameChildren(t, a, b, m);
    }
    forall k: nat | IsChild(t, n, k) ensures ChildRunning(t, b, n, k) == ChildRunning(t, a, n, k) {
      ChildFacts(t, n, k);
    }
  }

  // A node and what is below it are in order once all below has been stopped.
  lemma StoppedBelow(t: seq<Shape>, a: seq<Cell>, n: nat)
    requires Preorder(t) && IsNode(t, n) && Fits(t, a) && a[n].state != RUNNING
    ensures t[n].end <= |t| && Good(t, Stopped(a, n + 1, t[n].end), n, t[n].end)
    ensures SameOutside(a, Stopped(a, n + 1, t[n].end), n + 1, t[n].end)
  {
    hide Preorder, NodeOk;
    StoppedGood(t, a, n);
    assert Stopped(a, n + 1, t[n].end) == Stopped(a, n, t[n].end);
  }

  // ------------------------------------------------------------ lemmas for running a node

  lemma RunStarts(t: seq<Shape>, a: seq<Cell>, b: seq<Cell>, n: nat, world: World)
    requires Preorder(t) && IsNode(t, n) && Good(t, a, n, t[n].end) && Surrounded(t, a, n)
    requires b == if a[n].state == RUNNING then a else a[n := Entered(t, n, a[n])]
    ensures Good(t, b, n + 1, t[n].end) && Ready(t, b, n) && Surrounded(t, b, n)
    ensures SameOutside(Around(t, a, n, world), Around(t, b, n, world), n, n + 1)
    ensures forall ran, s :: TickOk(t, b, n, world, ran, s) ==> TickOk(t, a, n, world, ran, s)
  {
    hide Preorder;
    NodeFacts(t, n);
    assert NodeOk(t, a, n);
    GoodLocal(t, a, b, n);
    assert t[n].kind.Precondition? ==> b == a;
  }

  // Taking on a result changes nothing for the children.
  lemma RunSettles(t: seq<Shape>, a: seq<Cell>, b: seq<Cell>, n: nat, s: BehaviorState)
    requires Preorder(t) && IsNode(t, n) && Good(t, a, n + 1, t[n].end) && Ends(t, a, n, s)
    requires b == a[n := a[n].(state := s)]
    ensures Good(t, b, n + 1, t[n].end)
    ensures if s == RUNNING then Good(t, b, n, t[n].end) else CanStop(t, b, n, s)
  {
    hide Preorder;
    GoodLocal(t, a, b, n);
    NodeFacts(t, n);
    forall k: nat | IsChild(t, n, k)
      ensures ChildShape(t, n, k) && b[t[n].children[k]] == a[t[n].children[k]]
    {
      ChildFacts(t, n, k);
    }
    EndedSame(t, a, b, n, SUCCESS);
    EndedSame(t, a, b, n, FAILURE);
  }

  lemma EndedSame(t: seq<Shape>, a: seq<Cell>, b: seq<Cell>, n: nat, s: BehaviorState)
    requires IsNode(t, n) && Fits(t, a) && Fits(t, b) && a[n].done == b[n].done
    requires forall k: nat :: IsChild(t, n, k) && t[n].children[k] < |t| ==> b[t[n].children[k]] == a[t[n].children[k]]
    ensures Ended(t, b, n, s) == Ended(t, a, n, s)
  {
    forall k: nat ensures k in Ended(t, b, n, s) <==> k in Ended(t, a, n, s) {
      assert k < |t[n].children| ==> IsChild(t, n, k);
    }
  }

  lemma NothingSanctioned(t: seq<Shape>, a: seq<Cell>, c: seq<Cell>, n: nat, world: World)
    requires IsNode(t, n) && t[n].end <= |t| && Fits(t, a) && Fits(t, c) && c[n].state != RUNNING
    ensures var b := Stopped(c, n + 1, t[n].end);
      Started(t, a, b, n, t[n].end, world) && Upheld(t, b, n, t[n].end, world)
  {
    NoneRunning(t, a, Stopped(c, n + 1, t[n].end), n, t[n].end, world);
  }

  /** A Precondition that runs after a tick has been let run by its condition. */
  lemma RunSanctioned(t: seq<Shape>, a: seq<Cell>, e: seq<Cell>, u: seq<Cell>, n: nat, world: World, ran: seq<Report>)
    requires Preorder(t) && IsNode(t, n) && Good(t, a, n, t[n].end) && TickOk(t, a, n, world, ran, RUNNING)
    requires e == (if a[n].state == RUNNING then a else a[n := Entered(t, n, a[n])]) && Fits(t, u)
    requires Sanctioned(t, e, u, n, RUNNING, world)
    ensures var b := u[n := u[n].(state := RUNNING)];
      Started(t, a, b, n, t[n].end, world) && Upheld(t, b, n, t[n].end, world)
  {
    hide Preorder;
    NodeFacts(t, n);
    assert NodeOk(t, a, n);
    if t[n].kind.Precondition? && IsChild(t, n, 0) {
      PreconditionDecides(t, a, n, world, ran, RUNNING);
    }
  }

  // ------------------------------------------------------------ lemmas for running a child

  // The branch next to a watched child is stopped and the parent turned; nothing else changes.
  lemma AbortFacts(t: seq<Shape>, a: seq<Cell>, n: nat, k: nat, world: World)
    requires Preorder(t) && IsChild(t, n, k) && Good(t, a, n + 1, t[n].end)
    requires t[n].kind.Selector? ==> IsChild(t, n, a[n].index)
    ensures ChildShape(t, n, k) && Good(t, a, t[n].children[k], t[t[n].children[k]].end)
    ensures Surrounded(t, a, t[n].children[k])
    ensures var c := t[n].children[k];
      var b := Around(t, a, c, world);
      Good(t, b, n + 1, t[n].end) && SameOutside(a, b, n, t[n].end)
      && (if Watched(t, a, c) && world.holds(c) then
            b[n] == a[n].(index := k) && !ChildRunning(t, b, n, a[n].index)
            && (forall j: nat :: IsChild(t, n, j) && j != a[n].index ==>
              ChildShape(t, n, j) && b[t[n].children[j]] == a[t[n].children[j]])
          else b == a)
  {
    assert Fits(t, a);
    hide Preorder, NodeOk, Good;
    ChildFacts(t, n, k);
    GoodPart(t, a, n, k);
    var c := t[n].children[k];
    if Watched(t, a, c) {
      var i := a[n].index;
      ChildFacts(t, n, i);
      GoodPart(t, a, n, i);
      if world.holds(c) {
        StopChild(t, a, n, i);
        var d := t[n].children[i];
        var b := Stopped(a, d, t[d].end);
        GoodLocal(t, b, b[n := b[n].(index := k)], n);
        assert b[n] == a[n];
      }
    }
  }

  lemma GoodPart(t: seq<Shape>, a: seq<Cell>, n: nat, k: nat)
    requires Preorder(t) && IsChild(t, n, k) && Good(t, a, n + 1, t[n].end)
    ensures ChildShape(t, n, k) && Good(t, a, t[n].children[k], t[t[n].children[k]].end)
  {
    hide Preorder, NodeOk;
    ChildFacts(t, n, k);
  }

  // What running child k does to the cells below node n and to n itself.
  ghost predicate ChildRan(t: seq<Shape>, a: seq<Cell>, b: seq<Cell>, n: nat, k: nat, world: World, s: BehaviorState)
    requires IsChild(t, n, k) && Fits(t, a)
  {
    && Good(t, b, n + 1, t[n].end) && SameOutside(a, b, n, t[n].end)
    && ChildShape(t, n, k) && b[t[n].children[k]].state == s
    && Started(t, a, b, n + 1, t[n].end, world)
    && Upheld(t, b, t[n].children[k], t[t[n].children[k]].end, world)
    && (if Watched(t, a, t[n].children[k]) && world.holds(t[n].children[k]) then
          && b[n] == a[n].(index := k) && (IsChild(t, n, a[n].index) ==> !ChildRunning(t, b, n, a[n].index))
          && (forall j: nat :: IsChild(t, n, j) && j != a[n].index && j != k ==>
            ChildShape(t, n, j) && b[t[n].children[j]] == a[t[n].children[j]])
        else
          && b[n] == a[n] && SameOutside(a, b, t[n].children[k], t[t[n].children[k]].end)
          && (forall j: nat :: IsChild(t, n, j) && j != k ==>
            ChildShape(t, n, j) && b[t[n].children[j]] == a[t[n].children[j]]))
  }

  lemma ChildRunFacts(t: seq<Shape>, a: seq<Cell>, b: seq<Cell>, n: nat, k: nat, world: World, s: BehaviorState)
    requires Preorder(t) && IsChild(t, n, k) && Good(t, a, n + 1, t[n].end)
    requires t[n].kind.Selector? ==> IsChild(t, n, a[n].index)
    requires IsNode(t, t[n].children[k]) && Surrounded(t, a, t[n].children[k])
    requires var c := t[n].children[k];
      Good(t, b, c, t[c].end) && b[c].state == s && SameOutside(Around(t, a, c, world), b, c, t[c].end)
      && Started(t, a, b, c, t[c].end, world) && Upheld(t, b, c, t[c].end, world)
    ensures ChildRan(t, a, b, n, k, world, s)
  {
    assert Fits(t, a);
    hide Preorder, NodeOk, Good, Surrounded, Around, Started, Upheld;
    AbortFacts(t, a, n, k, world);
    ChildFacts(t, n, k);
    NodeFacts(t, n);
    var c := t[n].children[k];
    var mid := Around(t, a, c, world);
    GoodAround(t, mid, b, n, k);
    AroundStops(t, a, c, world);
    StartedAround(t, a, mid, b, c, n + 1, t[n].end, world);
  }

  // An abort starts nothing.
  lemma AroundStops(t: seq<Shape>, a: seq<Cell>, n: nat, world: World)
    requires IsNode(t, n) && Fits(t, a) && Surrounded(t, a, n)
    ensures forall m :: 0 <= m < |a| && Around(t, a, n, world)[m].state == RUNNING ==> a[m].state == RUNNING
  {
    hide Good;
  }

  lemma StartedAround(t: seq<Shape>, a: seq<Cell>, mid: seq<Cell>, b: seq<Cell>, c: nat, lo: nat, hi: nat, world: World)
    requires IsNode(t, c) && hi <= |t| && Fits(t, a) && Fits(t, b) && |mid| == |a|
    requires forall m :: 0 <= m < |a| && mid[m].state == RUNNING ==> a[m].state == RUNNING
    requires SameOutside(mid, b, c, t[c].end) && Started(t, a, b, c, t[c].end, world)
    ensures Started(t, a, b, lo, hi, world)
  {}

  // ------------------------------------------------------------ lemmas for the updates

  // A node sees the same cells at and below itself when it has aborted its rival.
  lemma AroundLocal(t: seq<Shape>, a: seq<Cell>, n: nat, world: World)
    requires Preorder(t) && IsNode(t, n) && Fits(t, a) && Surrounded(t, a, n)
    ensures forall m :: n <= m < t[n].end <= |a| ==> Around(t, a, n, world)[m] == a[m]
  {
    hide Preorder, NodeOk, Good;
    NodeFacts(t, n);
    if Watched(t, a, n) {
      SiblingsApart(t, t[n].parent, t[n].pos, a[t[n].parent].index);
    }
  }

  // A Selector or Sequence in the middle of an update: only the child at its index may run.
  ghost predicate Scanning(t: seq<Shape>, a: seq<Cell>, b: seq<Cell>, n: nat, world: World)
    requires IsNode(t, n) && Fits(t, a)
  {
    && Fits(t, b) && Good(t, b, n + 1, t[n].end) && SameOutside(a, b, n, t[n].end) && b[n].state == a[n].state
    && IsChild(t, n, b[n].index) && OthersQuiet(t, b, n, b[n].index)
    && Started(t, a, b, n + 1, t[n].end, world)
  }

  ghost predicate Aborts(t: seq<Shape>, a: seq<Cell>, n: nat, k: nat, world: World)
    requires IsChild(t, n, k) && IsNode(t, t[n].children[k])
  {
    Watched(t, a, t[n].children[k]) && world.holds(t[n].children[k])
  }

  // Left of its Selector's index a child aborts exactly if it takes over.
  lemma AbortsIs(t: seq<Shape>, a: seq<Cell>, n: nat, k: nat, world: World)
    requires Preorder(t) && IsChild(t, n, k) && t[n].kind.Selector? && Fits(t, a) && k < a[n].index
    ensures IsNode(t, t[n].children[k]) && (Aborts(t, a, n, k, world) <==> TakesOver(t, n, k, world))
  {
    ChildFacts(t, n, k);
  }

  lemma NothingChanged(t: seq<Shape>, a: seq<Cell>, b: seq<Cell>, n: nat, s: BehaviorState, world: World)
    requires Preorder(t) && IsNode(t, n) && Fits(t, a) && Fits(t, b) && s != RUNNING
    requires forall m: nat :: n < m < t[n].end <= |t| ==> b[m] == a[m]
    ensures Sanctioned(t, a, b, n, s, world)
  {
    NodeFacts(t, n);
  }

  lemma LeafSanctioned(t: seq<Shape>, a: seq<Cell>, n: nat, world: World)
    requires Preorder(t) && IsNode(t, n) && Good(t, a, n + 1, t[n].end) && (t[n].kind.Action? || t[n].children == [])
    ensures forall s :: Sanctioned(t, a, a, n, s, world)
  {
    NodeFacts(t, n);
    UpheldBelow(t, a, n, world);
  }

  lemma OnlyChildSanctioned(t: seq<Shape>, a: seq<Cell>, b: seq<Cell>, c: seq<Cell>, n: nat, s: BehaviorState,
      world: World)
    requires Preorder(t) && IsChild(t, n, 0) && t[n].kind.Precondition? && Fits(t, a) && Fits(t, b)
    requires forall m: nat :: n < m < t[n].end <= |t| ==> b[m] == a[m]
    requires ChildRan(t, b, c, n, 0, world, s)
    ensures Sanctioned(t, a, c, n, s, world)
  {
    hide Preorder, NodeOk, Watched;
    NodeFacts(t, n);
    StartedByStopping(t, a, b, n + 1, t[n].end, world);
    StartedTrans(t, a, b, c, n + 1, t[n].end, world);
    OneChildUpheld(t, c, n, 0, world);
  }

  // The child a Selector or Sequence is at is the only one that may run.
  lemma ScanSanctioned(t: seq<Shape>, a: seq<Cell>, b: seq<Cell>, c: seq<Cell>, n: nat, k: nat, world: World,
      s: BehaviorState)
    requires Preorder(t) && IsChild(t, n, k) && Fits(t, a) && Fits(t, b) && ChildRan(t, b, c, n, k, world, s)
    requires Scanning(t, a, c, n, world)
    ensures Started(t, a, c, n + 1, t[n].end, world)
    ensures c[n].index == k ==> Sanctioned(t, a, c, n, s, world)
  {
    hide Preorder, NodeOk, Watched, Started, Upheld;
    if c[n].index == k { OneChildUpheld(t, c, n, k, world); }
  }

  /** Whichever child was run, the one at the index is again the only one that may run. */
  lemma ScanStep(t: seq<Shape>, a: seq<Cell>, b: seq<Cell>, c: seq<Cell>, n: nat, k: nat, world: World,
      s: BehaviorState)
    requires IsChild(t, n, k) && ChildShape(t, n, k) && Fits(t, a) && Scanning(t, a, b, n, world)
    requires ChildRan(t, b, c, n, k, world, s)
    requires k == b[n].index || Aborts(t, b, n, k, world) || s != RUNNING
    ensures Scanning(t, a, c, n, world)
    ensures c[n] == if Aborts(t, b, n, k, world) then b[n].(index := k) else b[n]
    ensures c[n].index == k ==> (if s == RUNNING then ChildRunning(t, c, n, k) else OthersQuiet(t, c, n, -1))
  {
    hide Good, Watched, NodeOk, Started, Upheld;
    StartedTrans(t, a, b, c, n + 1, t[n].end, world);
    forall j: nat | IsChild(t, n, j) && j != c[n].index ensures !ChildRunning(t, c, n, j) {
      assert j != b[n].index ==> !ChildRunning(t, b, n, j);
    }
  }

  lemma SameSequence(t: seq<Shape>, n: nat, k: nat, a: seq<Cell>)
    requires Preorder(t) && IsChild(t, n, k) && (t[n].kind.Selector? ==> k >= (if n < |a| then a[n].index else 0))
    ensures ChildShape(t, n, k) && !Watched(t, a, t[n].children[k])
  {
    ChildFacts(t, n, k);
  }

  // With nothing running, the index may be moved.
  lemma IndexMoves(t: seq<Shape>, a: seq<Cell>, b: seq<Cell>, n: nat, i: nat)
    requires Preorder(t) && IsNode(t, n) && Fits(t, a) && Good(t, b, n + 1, t[n].end) && SameOutside(a, b, n, t[n].end)
    requires OthersQuiet(t, b, n, -1)
    ensures var c := b[n := b[n].(index := i)];
      Good(t, c, n + 1, t[n].end) && SameOutside(a, c, n, t[n].end)
      && OthersQuiet(t, c, n, -1) && OthersQuiet(t, c, n, i)
  {
    hide Preorder, NodeOk;
    NodeFacts(t, n);
    GoodLocal(t, b, b[n := b[n].(index := i)], n);
  }

  /** Run again below its Selector's index, a flagged condition either aborts or fails. */
  lemma WatchedReport(t: seq<Shape>, b: seq<Cell>, n: nat, k: nat, world: World, ran: seq<Report>, s: BehaviorState)
    requires Preorder(t) && IsChild(t, n, k) && Fits(t, b) && t[n].kind.Selector? && k < b[n].index
    requires ChildShape(t, n, k) && Flagged(t, t[n].children[k]) && TickOk(t, b, t[n].children[k], world, ran, s)
    ensures Aborts(t, b, n, k, world) || s == FAILURE || (s == SUCCESS && Bare(t, t[n].children[k]))
  {
    ChildFacts(t, n, k);
  }

  // Running a child a Parallel is not done with leaves its counts right.
  lemma CountedStays(t: seq<Shape>, b: seq<Cell>, c: seq<Cell>, n: nat, k: nat)
    requires Preorder(t) && IsChild(t, n, k) && Fits(t, b) && Fits(t, c) && Counted(t, b, n) && !b[n].done[k]
    requires c[n] == b[n]
    requires forall j: nat :: IsChild(t, n, j) && j != k ==>
      ChildShape(t, n, j) && c[t[n].children[j]] == b[t[n].children[j]]
    ensures Counted(t, c, n)
  {
    hide Preorder;
    forall s: BehaviorState, j: nat ensures j in Ended(t, c, n, s) <==> j in Ended(t, b, n, s) {
      assert j < |t[n].children| ==> IsChild(t, n, j);
    }
    assert Ended(t, c, n, SUCCESS) == Ended(t, b, n, SUCCESS);
    assert Ended(t, c, n, FAILURE) == Ended(t, b, n, FAILURE);
    forall j | IsChild(t, n, j) && c[n].done[j] ensures !ChildRunning(t, c, n, j) {
      assert !ChildRunning(t, b, n, j);
    }
  }

  // A Parallel's cell once child k is done with a result.
  function Marked(c: Cell, k: nat, s: BehaviorState): Cell
    requires k < |c.done|
  {
    if s == SUCCESS then c.(done := c.done[k := true], successes := c.successes + 1)
    else c.(done := c.done[k := true], failures := c.failures + 1)
  }

  lemma EndedMore(t: seq<Shape>, b: seq<Cell>, n: nat, k: nat, s: BehaviorState, r: BehaviorState)
    requires Preorder(t) && IsChild(t, n, k) && ChildShape(t, n, k) && Fits(t, b) && k < |b[n].done| && !b[n].done[k]
    requires b[t[n].children[k]].state == s
    ensures k !in Ended(t, b, n, r)
    ensures Ended(t, b[n := Marked(b[n], k, s)], n, r) == if r == s then Ended(t, b, n, r) + {k} else Ended(t, b, n, r)
  {
    hide Preorder;
    var c := b[n := Marked(b[n], k, s)];
    forall j: nat ensures j in Ended(t, c, n, r) <==> j in Ended(t, b, n, r) || (j == k && r == s) {
      if j < |t[n].children| { ChildFacts(t, n, j); }
    }
  }

  /** Marking a child that has ended counts it once. */
  lemma CountedMore(t: seq<Shape>, b: seq<Cell>, n: nat, k: nat, s: BehaviorState)
    requires Preorder(t) && IsChild(t, n, k) && ChildShape(t, n, k) && Fits(t, b) && Counted(t, b, n) && !b[n].done[k]
    requires s in {SUCCESS, FAILURE} && b[t[n].children[k]].state == s
    ensures Counted(t, b[n := Marked(b[n], k, s)], n)
  {
    hide Preorder, Ended;
    var c := b[n := Marked(b[n], k, s)];
    EndedMore(t, b, n, k, s, SUCCESS);
    EndedMore(t, b, n, k, s, FAILURE);
    forall j: nat | IsChild(t, n, j) && c[n].done[j] ensures !ChildRunning(t, c, n, j) {
      ChildFacts(t, n, j);
      assert j != k ==> !ChildRunning(t, b, n, j);
    }
  }

  lemma AroundBare(t: seq<Shape>, a: seq<Cell>, n: nat, world: World)
    requires IsNode(t, n) && Fits(t, a) && !Watched(t, a, n)
    ensures Surrounded(t, a, n) && Around(t, a, n, world) == a
  {}

  lemma EmptySelector(t: seq<Shape>, a: seq<Cell>, n: nat, from: nat)
    requires IsNode(t, n) && Fits(t, a) && t[n].children == [] && !t[n].kind.Precondition?
    ensures Ends(t, a, n, SUCCESS) && SelectorTick(t, n, from, [], SUCCESS) && SameOutside(a, a, n, t[n].end)
    ensures t[n].kind.Parallel? ==> ParallelTick(t, a[n], n, [], SUCCESS)
  {}

  // At the start only the child at the index may run.
  lemma SelectorStarts(t: seq<Shape>, a: seq<Cell>, n: nat, world: World)
    requires Preorder(t) && IsNode(t, n) && (t[n].kind.Selector? || t[n].kind.Sequence?) && t[n].children != []
    requires Good(t, a, n + 1, t[n].end) && Ready(t, a, n)
    ensures Scanning(t, a, a, n, world) && IsChild(t, n, a[n].index)
    ensures a[n].state != RUNNING ==> a[n].index == 0
  {
    hide Preorder;
  }

  // A Parallel in the middle of an update: children below i are done if they have ended.
  ghost predicate Sweeping(t: seq<Shape>, a: seq<Cell>, b: seq<Cell>, n: nat, ran: seq<Report>, i: nat,
      world: World)
    requires IsNode(t, n) && Fits(t, a) && t[n].kind.Parallel?
  {
    && Started(t, a, b, n + 1, t[n].end, world)
    && (forall k: nat :: IsChild(t, n, k) && k < i ==>
          ChildShape(t, n, k) && Upheld(t, b, t[n].children[k], t[t[n].children[k]].end, world))
    && Fits(t, b) && Good(t, b, n + 1, t[n].end) && SameOutside(a, b, n, t[n].end) && Counted(t, b, n)
    && b[n].successes == a[n].successes + Tally(ran, SUCCESS) && b[n].failures == a[n].failures + Tally(ran, FAILURE)
    && Pending(a[n].done, ran, i) && |a[n].done| == |t[n].children| && i <= |t[n].children|
    && (forall k :: IsChild(t, n, k) && (k >= i || a[n].done[k]) ==> b[n].done[k] == a[n].done[k])
    && (forall k ::
          IsChild(t, n, k) && k < i && IsNode(t, t[n].children[k]) && b[t[n].children[k]].state in {SUCCESS, FAILURE}
          ==> b[n].done[k])
  }

  lemma SweepStarts(t: seq<Shape>, a: seq<Cell>, n: nat, world: World)
    requires Preorder(t) && IsNode(t, n) && t[n].kind.Parallel? && Good(t, a, n + 1, t[n].end) && Ready(t, a, n)
    ensures Sweeping(t, a, a, n, [], 0, world) && Short(t, n, a[n], [])
  {
    hide Preorder;
    if a[n].state != RUNNING {
      assert a[n].done == seq(|t[n].children|, _ => false);
      assert forall k :: 0 <= k < |a[n].done| ==> !a[n].done[k];
      assert Ended(t, a, n, SUCCESS) == {} && Ended(t, a, n, FAILURE) == {};
    }
  }

  lemma SweepSkips(t: seq<Shape>, a: seq<Cell>, b: seq<Cell>, n: nat, ran: seq<Report>, i: nat, world: World)
    requires Preorder(t) && IsChild(t, n, i) && Fits(t, a) && t[n].kind.Parallel?
    requires Sweeping(t, a, b, n, ran, i, world) && b[n].done[i]
    ensures Sweeping(t, a, b, n, ran, i + 1, world)
  {
    hide Preorder, Good, Ended, Upheld, Started;
    QuietChildUpheld(t, b, n, i, world);
  }

  /** One child run and, if it ended, marked. */
  lemma SweepStep(t: seq<Shape>, a: seq<Cell>, b: seq<Cell>, c: seq<Cell>, n: nat, ran: seq<Report>, i: nat,
      world: World, s: BehaviorState)
    requires Preorder(t) && IsChild(t, n, i) && Fits(t, a) && t[n].kind.Parallel?
    requires Sweeping(t, a, b, n, ran, i, world) && |b[n].done| == |t[n].children| && !b[n].done[i]
      && ChildRan(t, b, c, n, i, world, s)
    ensures |c| == |b| && c[n] == b[n]
    ensures var d := if s in {SUCCESS, FAILURE} then c[n := Marked(c[n], i, s)] else c;
      Sweeping(t, a, d, n, ran + [Report(i, s)], i + 1, world)
  {
    hide Preorder, Good, Counted, Pending, Watched, Tally, ChildRan, Started, Upheld;
    SweepCounts(t, b, c, n, i, world, s);
    SweepSanctioned(t, a, b, c, n, i, world, s);
    TallyMore(ran, Report(i, s), SUCCESS);
    TallyMore(ran, Report(i, s), FAILURE);
    PendingMore(a[n].done, ran, i, s);
  }

  // What was let run stays so while another child is run, and so does what is marked after that.
  lemma SweepSanctioned(t: seq<Shape>, a: seq<Cell>, b: seq<Cell>, c: seq<Cell>, n: nat, i: nat, world: World,
      s: BehaviorState)
    requires Preorder(t) && IsChild(t, n, i) && t[n].kind.Parallel? && Fits(t, a) && Fits(t, b) && i < |b[n].done|
    requires Started(t, a, b, n + 1, t[n].end, world) && ChildRan(t, b, c, n, i, world, s)
    requires forall k: nat :: IsChild(t, n, k) && k < i ==>
      ChildShape(t, n, k) && Upheld(t, b, t[n].children[k], t[t[n].children[k]].end, world)
    ensures |c| == |b| && c[n] == b[n]
    ensures var d := if s in {SUCCESS, FAILURE} then c[n := Marked(c[n], i, s)] else c;
      Started(t, a, d, n + 1, t[n].end, world)
      && forall k: nat :: IsChild(t, n, k) && k < i + 1 ==>
        ChildShape(t, n, k) && Upheld(t, d, t[n].children[k], t[t[n].children[k]].end, world)
  {
    hide Preorder, NodeOk, Good, Upheld;
    SameSequence(t, n, i, b);
    StartedTrans(t, a, b, c, n + 1, t[n].end, world);
    var d := if s in {SUCCESS, FAILURE} then c[n := Marked(c[n], i, s)] else c;
    forall k: nat | IsChild(t, n, k) && k < i + 1
      ensures ChildShape(t, n, k) && Upheld(t, d, t[n].children[k], t[t[n].children[k]].end, world)
    {
      ChildFacts(t, n, k);
      var lo, hi := t[n].children[k], t[t[n].children[k]].end;
      if k < i {
        SiblingsApart(t, n, k, i);
        UpheldElsewhere(t, b, d, lo, hi, world);
      } else {
        UpheldElsewhere(t, c, d, lo, hi, world);
      }
    }
  }

  // Reports that reach no limit let the Parallel go on.
  lemma SweepGoesOn(t: seq<Shape>, a: seq<Cell>, d: seq<Cell>, n: nat, ran: seq<Report>, i: nat, s: BehaviorState,
                    world: World)
    requires IsChild(t, n, i) && Fits(t, a) && t[n].kind.Parallel? && Short(t, n, a[n], ran)
    requires Sweeping(t, a, d, n, ran + [Report(i, s)], i + 1, world)
    requires s == SUCCESS ==> d[n].successes < t[n].kind.threshold
    requires s == FAILURE ==> d[n].failures < Margin(|t[n].children|, t[n].kind.threshold)
    ensures Short(t, n, a[n], ran + [Report(i, s)])
  {
    hide Good, Counted, Pending, SameOutside, Margin;
    TallyMore(ran, Report(i, s), SUCCESS);
    TallyMore(ran, Report(i, s), FAILURE);
  }

  /** A report that reaches a limit decides. */
  lemma SweepDecides(t: seq<Shape>, a: seq<Cell>, d: seq<Cell>, n: nat, ran: seq<Report>, i: nat, s: BehaviorState,
                     world: World)
    requires IsChild(t, n, i) && Fits(t, a) && t[n].kind.Parallel? && Short(t, n, a[n], ran)
    requires Sweeping(t, a, d, n, ran + [Report(i, s)], i + 1, world) && s in {SUCCESS, FAILURE}
    requires s == SUCCESS ==> d[n].successes >= t[n].kind.threshold
    requires s == FAILURE ==> d[n].failures >= Margin(|t[n].children|, t[n].kind.threshold)
    ensures ParallelTick(t, a[n], n, ran + [Report(i, s)], s)
    ensures Fits(t, d) && Good(t, d, n + 1, t[n].end) && SameOutside(a, d, n, t[n].end) && Ends(t, d, n, s)
    ensures Sanctioned(t, a, d, n, s, world)
  {
    hide Good, Counted, Pending, SameOutside, Margin, Tally;
    assert (ran + [Report(i, s)])[..|ran|] == ran;
  }

  lemma SweepEnds(t: seq<Shape>, a: seq<Cell>, b: seq<Cell>, n: nat, ran: seq<Report>, world: World)
    requires Preorder(t) && IsNode(t, n) && Fits(t, a) && t[n].kind.Parallel? && Short(t, n, a[n], ran)
    requires Sweeping(t, a, b, n, ran, |t[n].children|, world) && t[n].children != []
    ensures Fits(t, b) && Ends(t, b, n, RUNNING) && ParallelTick(t, a[n], n, ran, RUNNING)
    ensures Good(t, b, n + 1, t[n].end) && SameOutside(a, b, n, t[n].end)
    ensures Sanctioned(t, a, b, n, RUNNING, world)
  {
    hide Preorder, Good, Counted, Pending, SameOutside, Margin, Tally, Started, Upheld;
    UpheldBelow(t, b, n, world);
    assert t[n].children != [] ==> IsChild(t, n, 0);
    forall k: nat | IsChild(t, n, k) ensures ChildShape(t, n, k) {
      ChildFacts(t, n, k);
    }
  }

  lemma StopsQuiet(t: seq<Shape>, a: seq<Cell>, n: nat, s: BehaviorState)
    requires IsNode(t, n) && Fits(t, a) && (t[n].kind.Selector? || t[n].kind.Sequence?)
    requires OthersQuiet(t, a, n, -1) && s in {SUCCESS, FAILURE}
    ensures Ends(t, a, n, s)
  {}

  lemma StartedSanctioned(t: seq<Shape>, a: seq<Cell>, b: seq<Cell>, n: nat, s: BehaviorState, world: World)
    requires IsNode(t, n) && Started(t, a, b, n + 1, t[n].end, world) && s != RUNNING
    ensures Sanctioned(t, a, b, n, s, world)
  {}

  lemma KeptSelf(t: seq<Shape>, r: seq<seq<Report>>, n: nat)
    requires IsNode(t, n) && |r| == |t|
    ensures ReportsKept(t, r, r, n)
  {}

  lemma SweepHolds(t: seq<Shape>, a: seq<Cell>, b: seq<Cell>, n: nat, ran: seq<Report>, i: nat, world: World)
    requires IsNode(t, n) && Fits(t, a) && t[n].kind.Parallel? && Sweeping(t, a, b, n, ran, i, world)
    ensures Fits(t, b) && |b[n].done| == |t[n].children| && Good(t, b, n + 1, t[n].end)
  {
    hide Good;
  }

  lemma SweepCounts(t: seq<Shape>, b: seq<Cell>, c: seq<Cell>, n: nat, i: nat, world: World, s: BehaviorState)
    requires Preorder(t) && IsChild(t, n, i) && Fits(t, b) && t[n].kind.Parallel? && Counted(t, b, n)
    requires !b[n].done[i] && ChildRan(t, b, c, n, i, world, s)
    ensures SameOutside(b, c, n, t[n].end) && c[n] == b[n] && n < t[n].end
    ensures var d := if s in {SUCCESS, FAILURE} then c[n := Marked(c[n], i, s)] else c;
      Good(t, d, n + 1, t[n].end) && Counted(t, d, n)
      && forall k :: IsChild(t, n, k) ==>
        ChildShape(t, n, k) && d[t[n].children[k]].state == if k == i then s else b[t[n].children[k]].state
  {
    hide Preorder, NodeOk, Ended;
    NodeFacts(t, n);
    SameSequence(t, n, i, b);
    CountedStays(t, b, c, n, i);
    if s in {SUCCESS, FAILURE} {
      CountedMore(t, c, n, i, s);
      GoodLocal(t, c, c[n := Marked(c[n], i, s)], n);
    }
    forall k: nat | IsChild(t, n, k) ensures ChildShape(t, n, k) {
      ChildFacts(t, n, k);
    }
  }

  class Engine {
    const t: seq<Shape>
    var nodes: seq<Cell>
    // What each node was reported by its children in its latest run.
    ghost var ran: seq<seq<Report>>

    /** Between ticks every node stands with its children as NodeOk says. */
    ghost predicate Valid()
      reads this
    {
      Preorder(t) && |ran| == |t| && Good(t, nodes, 0, |t|)
    }

    constructor (t: seq<Shape>)
      requires Preorder(t)
      ensures Valid() && this.t == t && forall n :: 0 <= n < |nodes| ==> nodes[n].state == IDLE
    {
      this.t := t;
      nodes := seq(|t|, _ => Cell(IDLE, 0, [], 0, 0));
      ran := seq(|t|, _ => []);
    }

    // ---------------------------------------------------------- reset

    /** Stops what runs in a subtree, all of it and nothing else. */
    method Reset(n: nat)
      requires Preorder(t) && IsNode(t, n) && Good(t, nodes, n, t[n].end)
      modifies this`nodes
      ensures nodes == Stopped(old(nodes), n, t[n].end)
      decreases t[n].end - n, 1
    {
      hide Preorder;
      ghost var a := nodes;
      NodeFacts(t, n);
      if nodes[n].state == RUNNING {
        assert NodeOk(t, a, n);
        nodes := nodes[n := nodes[n].(state := IDLE)];
        GoodLocal(t, a, nodes, n);
        OnTerminate(n, IDLE);
      } else {
        NothingToStop(t, a, n);
      }
    }

    /** However a node stops, nothing runs below it afterwards. */
    method OnTerminate(n: nat, s: BehaviorState)
      requires Preorder(t) && IsNode(t, n) && Good(t, nodes, n + 1, t[n].end)
      requires s != RUNNING && CanStop(t, nodes, n, s)
      modifies this`nodes
      ensures nodes == Stopped(old(nodes), n + 1, t[n].end)
      decreases t[n].end - n, 0
    {
      hide Preorder, NodeOk, Stopped;
      ghost var a := nodes;
      NodeFacts(t, n);
      match t[n].kind {
        case Action =>
        case Precondition(_) => if s == IDLE || s == FAILURE { ResetChild(n, 0); }
        case Selector => if s == IDLE { ResetChild(n, nodes[n].index); }
        case Sequence => if s == IDLE { ResetChild(n, nodes[n].index); }
        case Parallel(_) =>
          for i := 0 to |t[n].children|
            invariant Fits(t, nodes) && Good(t, nodes, n + 1, t[n].end) && OnlyStopped(a, nodes, n + 1, t[n].end)
            invariant forall j :: IsChild(t, n, j) && j < i ==> !ChildRunning(t, nodes, n, j)
          {
            ResetChild(n, i);
          }
      }
      AllStopped(t, a, nodes, n);
    }

    method ResetChild(n: nat, k: nat)
      requires Preorder(t) && IsChild(t, n, k) && Good(t, nodes, n + 1, t[n].end)
      modifies this`nodes
      ensures Good(t, nodes, n + 1, t[n].end) && OnlyStopped(old(nodes), nodes, n + 1, t[n].end)
      ensures !ChildRunning(t, nodes, n, k)
      ensures forall j :: IsChild(t, n, j) && j != k ==>
        ChildRunning(t, nodes, n, j) == ChildRunning(t, old(nodes), n, j)
      decreases t[n].end - n, 0, 0
    {
      hide Preorder, NodeOk, Stopped;
      ghost var a := nodes;
      StopChild(t, a, n, k);
      GoodPart(t, a, n, k);
      Reset(t[n].children[k]);
    }

    // ---------------------------------------------------------- run

    /** One tick of the tree, from the root. */
    method Tick(world: World) returns (s: BehaviorState)
      requires Valid()
      modifies this`nodes, this`ran
      ensures Valid() && nodes[0].state == s && TickOk(t, old(nodes), 0, world, ran[0], s)
      ensures Prioritised(t, 0, ran[0], s)
      ensures forall m: nat :: m < |t| && t[m].kind.Precondition? && nodes[m].state == RUNNING ==>
        t[m].kind.abort in {SELF, BOTH} || old(nodes)[m].state != RUNNING ==> world.holds(m)
    {
      hide NodeOk, TickOk, Prioritised;
      NodeFacts(t, 0);
      s := Run(0, world);
    }

    /** Stops the whole tree. */
    method Stop()
      requires Valid()
      modifies this`nodes
      ensures Valid() && forall m :: 0 <= m < |nodes| ==> nodes[m].state != RUNNING
    {
      hide NodeOk;
      NodeFacts(t, 0);
      StoppedGood(t, nodes, 0);
      Reset(0);
    }

    /** Runs a node: what it reports, what its children reported to it, and what else it changed. */
    method Run(n: nat, world: World) returns (s: BehaviorState)
      requires Preorder(t) && IsNode(t, n) && Good(t, nodes, n, t[n].end) && Surrounded(t, nodes, n) && |ran| == |t|
      modifies this`nodes, this`ran
      ensures Good(t, nodes, n, t[n].end) && nodes[n].state == s
      ensures SameOutside(Around(t, old(nodes), n, world), nodes, n, t[n].end)
      ensures Reported(t, old(ran), ran, n, s) && TickOk(t, old(nodes), n, world, ran[n], s)
      ensures Prioritised(t, n, ran[n], s)
      ensures Started(t, old(nodes), nodes, n, t[n].end, world) && Upheld(t, nodes, n, t[n].end, world)
      decreases t[n].end - n, 6
    {
      hide Preorder, NodeOk, GoesOn, CanStop, TickOk, Stopped, Watched, Surrounded, Around, OthersQuiet, Entered,
        Prioritised, Started, Upheld, Sanctioned;
      ghost var a := nodes;
      NodeFacts(t, n);
      ran := ran[n := []];
      if nodes[n].state != RUNNING {
        OnInitialize(n);
      }
      ghost var entered := nodes;
      RunStarts(t, a, entered, n, world);
      s := Update(n, world);
      ghost var updated := nodes;
      nodes := nodes[n := nodes[n].(state := s)];
      RunSettles(t, updated, nodes, n, s);
      if s != RUNNING {
        StoppedBelow(t, nodes, n);
        NothingSanctioned(t, a, nodes, n, world);
        OnTerminate(n, s);
      } else {
        RunSanctioned(t, a, entered, updated, n, world, ran[n]);
      }
      if t[n].parent >= 0 {
        ran := ran[t[n].parent := ran[t[n].parent] + [Report(t[n].pos, s)]];
      }
      TickIsPrioritised(t, a, n, world, ran[n], s);
    }

    method OnInitialize(n: nat)
      requires IsNode(t, n) && Fits(t, nodes) && nodes[n].state != RUNNING
      modifies this`nodes
      ensures nodes == old(nodes)[n := Entered(t, n, old(nodes)[n])]
    {
      match t[n].kind {
        case Action =>
        case Precondition(_) =>
        case Selector => nodes := nodes[n := nodes[n].(index := 0)];
        case Sequence => nodes := nodes[n := nodes[n].(index := 0)];
        case Parallel(_) =>
          nodes := nodes[n := nodes[n].(failures := 0, successes := 0, done := seq(|t[n].children|, _ => false))];
      }
    }

    method Update(n: nat, world: World) returns (s: BehaviorState)
      requires Preorder(t) && IsNode(t, n) && Good(t, nodes, n + 1, t[n].end) && Ready(t, nodes, n)
      requires Surrounded(t, nodes, n) && |ran| == |t| && ran[n] == []
      modifies this`nodes, this`ran
      ensures Good(t, nodes, n + 1, t[n].end) && Ends(t, nodes, n, s)
      ensures SameOutside(Around(t, old(nodes), n, world), nodes, n, t[n].end)
      ensures ReportsKept(t, old(ran), ran, n) && TickOk(t, old(nodes), n, world, ran[n], s)
      ensures Sanctioned(t, old(nodes), nodes, n, s, world)
      decreases t[n].end - n, 5
    {
      hide Preorder, NodeOk, Good, OthersQuiet, SelectorTick, SequenceTick, ParallelTick, PreconditionTick, Sanctioned;
      match t[n].kind {
        case Action =>
          LeafSanctioned(t, nodes, n, world);
          s := world.result(n);
        case Precondition(_) => s := PreconditionUpdate(n, world);
        case Selector => s := SelectorUpdate(n, world);
        case Sequence => s := SequenceUpdate(n, world);
        case Parallel(_) => s := ParallelUpdate(n, world);
      }
    }

    // Runs a child, as seen from its parent.
    method RunChild(n: nat, k: nat, world: World) returns (s: BehaviorState)
      requires Preorder(t) && IsChild(t, n, k) && Good(t, nodes, n + 1, t[n].end) && |ran| == |t|
      requires t[n].kind.Selector? ==> IsChild(t, n, nodes[n].index)
      modifies this`nodes, this`ran
      ensures ChildRan(t, old(nodes), nodes, n, k, world, s)
      ensures ReportsKept(t, old(ran), ran, n) && ran[n] == old(ran)[n] + [Report(k, s)]
      ensures ChildShape(t, n, k) && TickOk(t, old(nodes), t[n].children[k], world, ran[t[n].children[k]], s)
      decreases t[n].end - n, 0
    {
      hide Preorder, NodeOk, Good, Surrounded, Around, TickOk, ChildRan;
      ghost var a := nodes;
      AbortFacts(t, a, n, k, world);
      ChildFacts(t, n, k);
      s := Run(t[n].children[k], world);
      ChildRunFacts(t, a, nodes, n, k, world, s);
    }

    // ---------------------------------------------------------- updates, kind by kind

    // Whether the condition lets the child run; an abort it makes happens here.
    method Reevaluation(n: nat, world: World) returns (ok: bool)
      requires Preorder(t) && IsChild(t, n, 0) && t[n].kind.Precondition? && Fits(t, nodes) && Surrounded(t, nodes, n)
      modifies this`nodes
      ensures nodes == Around(t, old(nodes), n, world) && ok == Passes(t, old(nodes), n, world)
    {
      hide Preorder, NodeOk, Good, Stopped;
      NodeFacts(t, n);
      ChildFacts(t, n, 0);
      var p := t[n].parent;
      if p >= 0 && t[p].kind.Selector? && t[n].kind.abort in {LOW_PRIORITY, BOTH} && t[n].pos < nodes[p].index {
        assert Watched(t, nodes, n);
        if world.holds(n) {
          Reset(t[p].children[nodes[p].index]);
          nodes := nodes[p := nodes[p].(index := t[n].pos)];
          return true;
        } else {
          return false;
        }
      }
      assert !Watched(t, nodes, n);
      if t[n].kind.abort in {SELF, BOTH} || nodes[t[n].children[0]].state != RUNNING {
        if !world.holds(n) {
          return false;
        }
      }
      return true;
    }

    method PreconditionUpdate(n: nat, world: World) returns (s: BehaviorState)
      requires Preorder(t) && IsNode(t, n) && Good(t, nodes, n + 1, t[n].end) && Ready(t, nodes, n)
        && t[n].kind.Precondition?
      requires Surrounded(t, nodes, n) && |ran| == |t| && ran[n] == []
      modifies this`nodes, this`ran
      ensures Good(t, nodes, n + 1, t[n].end) && Ends(t, nodes, n, s)
      ensures SameOutside(Around(t, old(nodes), n, world), nodes, n, t[n].end)
      ensures ReportsKept(t, old(ran), ran, n) && PreconditionTick(t, old(nodes), n, world, ran[n], s)
      ensures Sanctioned(t, old(nodes), nodes, n, s, world)
      decreases t[n].end - n, 2
    {
      hide Preorder, NodeOk, Surrounded, Around, Stopped, Passes, Sanctioned, Started, Upheld;
      ghost var a := nodes;
      NodeFacts(t, n);
      if |t[n].children| == 0 {
        assert !Watched(t, nodes, n) by { NodeFacts(t, n); }
        AroundBare(t, a, n, world);
        NothingChanged(t, a, a, n, SUCCESS, world);
        return SUCCESS;
      }
      AroundLocal(t, a, n, world);
      var ok := Reevaluation(n, world);
      ghost var b := nodes;
      GoodLocal(t, a, b, n);
      if ok {
        s := RunChild(n, 0, world);
        OnlyChildSanctioned(t, a, b, nodes, n, s, world);
      } else {
        s := FAILURE;
        NothingChanged(t, a, b, n, s, world);
      }
    }

    // Runs a child of a Selector or Sequence, the one at the index or a flagged one left of it.
    method ScanChild(n: nat, k: nat, world: World, ghost a: seq<Cell>, ghost r: seq<seq<Report>>)
      returns (s: BehaviorState)
      requires Preorder(t) && IsChild(t, n, k) && (t[n].kind.Selector? || t[n].kind.Sequence?) && Fits(t, a)
      requires Scanning(t, a, nodes, n, world) && ReportsKept(t, r, ran, n) && Fits(t, nodes) && |ran| == |t|
      requires k == nodes[n].index ||
        (k < nodes[n].index && t[n].kind.Selector? && IsNode(t, t[n].children[k]) && Flagged(t, t[n].children[k]))
      modifies this`nodes, this`ran
      ensures Scanning(t, a, nodes, n, world) && ReportsKept(t, r, ran, n) && ran[n] == old(ran[n]) + [Report(k, s)]
      ensures Fits(t, nodes) && IsChild(t, n, nodes[n].index) && |ran| == |t|
      ensures Good(t, nodes, n + 1, t[n].end) && SameOutside(a, nodes, n, t[n].end)
      ensures nodes[n].index in {k, old(nodes[n].index)}
      ensures k < old(nodes[n].index) ==> (nodes[n].index == k <==> TakesOver(t, n, k, world))
      ensures Started(t, a, nodes, n + 1, t[n].end, world)
      ensures nodes[n].index == k ==> Sanctioned(t, a, nodes, n, s, world)
      ensures if nodes[n].index == k then Ends(t, nodes, n, s) && (s != RUNNING ==> OthersQuiet(t, nodes, n, -1))
        else s == FAILURE || (IsNode(t, t[n].children[k]) && Bare(t, t[n].children[k]))
      decreases t[n].end - n, 1
    {
      hide Preorder, NodeOk, Good, Watched, ChildRan, TickOk, OthersQuiet, ChildRunning, TakesOver, Started, Upheld,
        Sanctioned;
      ghost var b := nodes;
      NodeFacts(t, n);
      ChildFacts(t, n, k);
      if k == nodes[n].index { SameSequence(t, n, k, b); }
      s := RunChild(n, k, world);
      if k < b[n].index {
        WatchedReport(t, b, n, k, world, ran[t[n].children[k]], s);
        AbortsIs(t, b, n, k, world);
      }
      ScanStep(t, a, b, nodes, n, k, world, s);
      ScanSanctioned(t, a, b, nodes, n, k, world, s);
    }

    method SetIndex(n: nat, i: nat, world: World, ghost a: seq<Cell>)
      requires Preorder(t) && IsNode(t, n) && Fits(t, a) && Scanning(t, a, nodes, n, world) && Fits(t, nodes)
        && OthersQuiet(t, nodes, n, -1)
      modifies this`nodes
      ensures Fits(t, nodes) && nodes[n].index == i && (IsChild(t, n, i) ==> Scanning(t, a, nodes, n, world))
      ensures Good(t, nodes, n + 1, t[n].end) && SameOutside(a, nodes, n, t[n].end) && OthersQuiet(t, nodes, n, -1)
      ensures Started(t, a, nodes, n + 1, t[n].end, world)
    {
      hide Preorder, NodeOk, Good, OthersQuiet;
      IndexMoves(t, a, nodes, n, i);
      nodes := nodes[n := nodes[n].(index := i)];
    }

    // Looks again at the flagged children left of the index; an abort may decide the update.
    method Reexamine(n: nat, world: World, ghost a: seq<Cell>, ghost r: seq<seq<Report>>, ghost from: nat)
      returns (s: BehaviorState, decided: bool)
      requires Preorder(t) && IsNode(t, n) && t[n].kind.Selector? && Fits(t, a) && Fits(t, nodes) && |ran| == |t|
      requires Scanning(t, a, nodes, n, world) && ReportsKept(t, r, ran, n) && ran[n] == []
      requires IsChild(t, n, nodes[n].index) && from == Turn(t, n, world, 0, nodes[n].index)
      modifies this`nodes, this`ran
      ensures Fits(t, nodes) && IsChild(t, n, nodes[n].index) && |ran| == |t| && ReportsKept(t, r, ran, n)
      ensures decided ==> SelectorTick(t, n, from, ran[n], s) && Ends(t, nodes, n, s)
      ensures decided ==> Good(t, nodes, n + 1, t[n].end) && SameOutside(a, nodes, n, t[n].end)
      ensures decided ==> Sanctioned(t, a, nodes, n, s, world)
      ensures !decided ==> Scanning(t, a, nodes, n, world) && Failed(t, n, from, ran[n], nodes[n].index)
      ensures !decided ==> from <= nodes[n].index
      decreases t[n].end - n, 2
    {
      hide Preorder, Good, Ready, Ends, OthersQuiet, Failed, SelectorTick, SameOutside, Scanning, ReportsKept, TickOk,
        Started, Upheld, Sanctioned;
      s, decided := FAILURE, false;
      FailedNone(t, n, from);
      ghost var index := nodes[n].index;
      var i := 0;
      while i < nodes[n].index
        invariant Fits(t, nodes) && IsChild(t, n, nodes[n].index) && |ran| == |t| && ReportsKept(t, r, ran, n)
        invariant Scanning(t, a, nodes, n, world) && nodes[n].index == index && i <= nodes[n].index
        invariant Failed(t, n, from, ran[n], i) && Turn(t, n, world, i, index) == from
      {
        ChildFacts(t, n, i);
        ghost var before := ran[n];
        if Flagged(t, t[n].children[i]) {
          s := ScanChild(n, i, world, a, r);
          if i == nodes[n].index {
            if s != FAILURE {
              FailedLast(t, n, from, before, i, s);
              return s, true;
            }
            FailedMore(t, n, from, before, i, s);
            SetIndex(n, i + 1, world, a);
            return;
          }
          FailedMore(t, n, from, before, i, s);
        } else {
          FailedSkip(t, n, from, before, i);
        }
        i := i + 1;
      }
    }

    // Runs the children from the index on until one does not fail.
    method RunOn(n: nat, world: World, ghost a: seq<Cell>, ghost r: seq<seq<Report>>, ghost from: nat)
      returns (s: BehaviorState)
      requires Preorder(t) && IsNode(t, n) && t[n].kind.Selector? && Fits(t, a) && Fits(t, nodes) && |ran| == |t|
      requires Scanning(t, a, nodes, n, world) && ReportsKept(t, r, ran, n) && IsChild(t, n, nodes[n].index)
      requires Failed(t, n, from, ran[n], nodes[n].index) && from <= nodes[n].index
      modifies this`nodes, this`ran
      ensures Fits(t, nodes) && |ran| == |t| && ReportsKept(t, r, ran, n)
      ensures SelectorTick(t, n, from, ran[n], s) && Ends(t, nodes, n, s)
      ensures Good(t, nodes, n + 1, t[n].end) && SameOutside(a, nodes, n, t[n].end)
      ensures Sanctioned(t, a, nodes, n, s, world)
      decreases t[n].end - n, 2
    {
      hide Preorder, Good, Ready, Ends, OthersQuiet, Failed, SelectorTick, SameOutside, Scanning, ReportsKept, TickOk,
        Started, Upheld, Sanctioned;
      while true
        invariant Fits(t, nodes) && IsChild(t, n, nodes[n].index) && |ran| == |t| && ReportsKept(t, r, ran, n)
        invariant Scanning(t, a, nodes, n, world)
        invariant Failed(t, n, from, ran[n], nodes[n].index) && from <= nodes[n].index
        decreases |t[n].children| - nodes[n].index
      {
        ghost var before, w := ran[n], nodes[n].index;
        s := ScanChild(n, nodes[n].index, world, a, r);
        if s != FAILURE {
          FailedLast(t, n, from, before, w, s);
          return;
        }
        FailedMore(t, n, from, before, w, s);
        if nodes[n].index + 1 == |t[n].children| {
          FailedLast(t, n, from, before, w, s);
          SetIndex(n, 0, world, a);
          StopsQuiet(t, nodes, n, s);
          StartedSanctioned(t, a, nodes, n, s, world);
          return;
        }
        SetIndex(n, nodes[n].index + 1, world, a);
      }
    }

    // Runs children until one does not fail.
    method SelectChild(n: nat, world: World) returns (s: BehaviorState)
      requires Preorder(t) && IsNode(t, n) && Good(t, nodes, n + 1, t[n].end) && Ready(t, nodes, n)
        && t[n].kind.Selector?
      requires |ran| == |t| && ran[n] == [] && t[n].children != []
      modifies this`nodes, this`ran
      ensures Good(t, nodes, n + 1, t[n].end) && Ends(t, nodes, n, s)
      ensures SameOutside(old(nodes), nodes, n, t[n].end)
      ensures ReportsKept(t, old(ran), ran, n) && old(nodes)[n].index <= |t[n].children|
        && SelectorTick(t, n, Turn(t, n, world, 0, old(nodes)[n].index), ran[n], s)
      ensures Sanctioned(t, old(nodes), nodes, n, s, world)
      decreases t[n].end - n, 3
    {
      assert Fits(t, nodes);
      hide Preorder, Good, Ready, Ends, OthersQuiet, Failed, SelectorTick, SameOutside, Scanning, ReportsKept, TickOk,
        Started, Upheld, Sanctioned;
      ghost var a, r := nodes, ran;
      NodeFacts(t, n);
      KeptSelf(t, r, n);
      SelectorStarts(t, a, n, world);
      ghost var from := Turn(t, n, world, 0, a[n].index);
      var decided;
      s, decided := Reexamine(n, world, a, r, from);
      if !decided {
        s := RunOn(n, world, a, r, from);
      }
    }

    method SelectorUpdate(n: nat, world: World) returns (s: BehaviorState)
      requires Preorder(t) && IsNode(t, n) && Good(t, nodes, n + 1, t[n].end) && Ready(t, nodes, n)
        && t[n].kind.Selector?
      requires |ran| == |t| && ran[n] == []
      modifies this`nodes, this`ran
      ensures Good(t, nodes, n + 1, t[n].end) && Ends(t, nodes, n, s)
      ensures SameOutside(old(nodes), nodes, n, t[n].end)
      ensures ReportsKept(t, old(ran), ran, n) && old(nodes)[n].index <= |t[n].children|
        && SelectorTick(t, n, Turn(t, n, world, 0, old(nodes)[n].index), ran[n], s)
      ensures Sanctioned(t, old(nodes), nodes, n, s, world)
      decreases t[n].end - n, 4
    {
      assert Fits(t, nodes);
      hide Preorder, Good, Ready, Ends, OthersQuiet, Failed, SelectorTick, SameOutside, Scanning, ReportsKept, TickOk,
        Started, Upheld, Sanctioned;
      ghost var a, r := nodes, ran;
      NodeFacts(t, n);
      KeptSelf(t, r, n);
      if |t[n].children| == 0 {
        EmptySelector(t, a, n, 0);
        LeafSanctioned(t, a, n, world);
        s := SUCCESS;
      } else {
        s := SelectChild(n, world);
      }
    }

    // Runs children until one does not succeed.
    method FollowChildren(n: nat, world: World) returns (s: BehaviorState)
      requires Preorder(t) && IsNode(t, n) && Good(t, nodes, n + 1, t[n].end) && Ready(t, nodes, n)
        && t[n].kind.Sequence?
      requires |ran| == |t| && ran[n] == [] && t[n].children != []
      modifies this`nodes, this`ran
      ensures Good(t, nodes, n + 1, t[n].end) && Ends(t, nodes, n, s)
      ensures SameOutside(old(nodes), nodes, n, t[n].end)
      ensures ReportsKept(t, old(ran), ran, n) && SequenceTick(t, old(nodes)[n].index, n, ran[n], s)
      ensures Sanctioned(t, old(nodes), nodes, n, s, world)
      decreases t[n].end - n, 2
    {
      assert Fits(t, nodes);
      hide Preorder, Good, Ready, Ends, OthersQuiet, SameOutside, Scanning, ReportsKept, TickOk, Started, Upheld,
        Sanctioned;
      ghost var a, r, first := nodes, ran, nodes[n].index;
      NodeFacts(t, n);
      KeptSelf(t, r, n);
      SelectorStarts(t, a, n, world);
      while true
        invariant Fits(t, nodes) && IsChild(t, n, nodes[n].index) && |ran| == |t|
        invariant Scanning(t, a, nodes, n, world) && ReportsKept(t, r, ran, n)
        invariant nodes[n].index == first + |ran[n]|
        invariant forall j :: 0 <= j < |ran[n]| ==> ran[n][j] == Report(first + j, SUCCESS)
        decreases |t[n].children| - nodes[n].index
      {
        s := ScanChild(n, nodes[n].index, world, a, r);
        if s != SUCCESS {
          return;
        }
        if nodes[n].index + 1 == |t[n].children| {
          SetIndex(n, 0, world, a);
          StopsQuiet(t, nodes, n, s);
          StartedSanctioned(t, a, nodes, n, s, world);
          return;
        }
        SetIndex(n, nodes[n].index + 1, world, a);
      }
    }

    method SequenceUpdate(n: nat, world: World) returns (s: BehaviorState)
      requires Preorder(t) && IsNode(t, n) && Good(t, nodes, n + 1, t[n].end) && Ready(t, nodes, n)
        && t[n].kind.Sequence?
      requires |ran| == |t| && ran[n] == []
      modifies this`nodes, this`ran
      ensures Good(t, nodes, n + 1, t[n].end) && Ends(t, nodes, n, s)
      ensures SameOutside(old(nodes), nodes, n, t[n].end)
      ensures ReportsKept(t, old(ran), ran, n) && SequenceTick(t, old(nodes)[n].index, n, ran[n], s)
      ensures Sanctioned(t, old(nodes), nodes, n, s, world)
      decreases t[n].end - n, 3
    {
      assert Fits(t, nodes);
      hide Preorder, Good, Ready, Ends, OthersQuiet, SameOutside, Scanning, ReportsKept, TickOk, Started, Upheld,
        Sanctioned;
      ghost var a, r, first := nodes, ran, nodes[n].index;
      NodeFacts(t, n);
      KeptSelf(t, r, n);
      if |t[n].children| == 0 {
        EmptySelector(t, a, n, 0);
        LeafSanctioned(t, a, n, world);
        s := SUCCESS;
      } else {
        s := FollowChildren(n, world);
      }
    }

    // Runs a child of a Parallel; what is left to do is to mark it if it ended.
    method SweepChild(n: nat, i: nat, world: World, ghost a: seq<Cell>, ghost r: seq<seq<Report>>)
      returns (s: BehaviorState)
      requires Preorder(t) && IsChild(t, n, i) && t[n].kind.Parallel? && Fits(t, a) && |ran| == |t|
        && ReportsKept(t, r, ran, n)
      requires Fits(t, nodes) && |nodes[n].done| == |t[n].children|
      requires Sweeping(t, a, nodes, n, ran[n], i, world) && !nodes[n].done[i]
      modifies this`nodes, this`ran
      ensures ReportsKept(t, r, ran, n) && ran[n] == old(ran[n]) + [Report(i, s)]
      ensures Fits(t, nodes) && |ran| == |t| && nodes[n] == old(nodes)[n]
      ensures Sweeping(
        t, a, if s in {SUCCESS, FAILURE} then nodes[n := Marked(nodes[n], i, s)] else nodes, n, ran[n], i + 1, world)
      decreases t[n].end - n, 1
    {
      hide Preorder, NodeOk, Good, Watched, ChildRan, TickOk, Counted, Pending, Tally, ChildRunning;
      ghost var b := nodes;
      SweepHolds(t, a, b, n, ran[n], i, world);
      NodeFacts(t, n);
      s := RunChild(n, i, world);
      SweepStep(t, a, b, nodes, n, old(ran[n]), i, world, s);
    }

    // Counts a child's result and tells whether it reaches a limit.
    method Count(n: nat, i: nat, s: BehaviorState, world: World, ghost a: seq<Cell>, ghost before: seq<Report>)
      returns (decided: bool)
      requires IsChild(t, n, i) && t[n].kind.Parallel? && Fits(t, a) && Fits(t, nodes) && |ran| == |t|
      requires |nodes[n].done| == |t[n].children| && ran[n] == before + [Report(i, s)] && Short(t, n, a[n], before)
      requires Sweeping(
        t, a, if s in {SUCCESS, FAILURE} then nodes[n := Marked(nodes[n], i, s)] else nodes, n, ran[n], i + 1, world)
      modifies this`nodes
      ensures Fits(t, nodes)
      ensures decided ==> ParallelTick(t, a[n], n, ran[n], s) && Ends(t, nodes, n, s)
      ensures decided ==> Good(t, nodes, n + 1, t[n].end) && SameOutside(a, nodes, n, t[n].end)
      ensures decided ==> Sanctioned(t, a, nodes, n, s, world)
      ensures !decided ==> Sweeping(t, a, nodes, n, ran[n], i + 1, world) && Short(t, n, a[n], ran[n])
    {
      hide Good, Ends, Sweeping, Short, SameOutside, Margin, ParallelTick, Sanctioned;
      decided := false;
      if s == SUCCESS {
        nodes := nodes[n := nodes[n].(done := nodes[n].done[i := true], successes := nodes[n].successes + 1)];
        decided := nodes[n].successes >= t[n].kind.threshold;
      } else if s == FAILURE {
        nodes := nodes[n := nodes[n].(done := nodes[n].done[i := true], failures := nodes[n].failures + 1)];
        decided := nodes[n].failures >= Margin(|t[n].children|, t[n].kind.threshold);
      }
      if decided {
        SweepDecides(t, a, nodes, n, before, i, s, world);
      } else {
        SweepGoesOn(t, a, nodes, n, before, i, s, world);
      }
    }

    // Runs and counts a child unless it is done.
    method SweepOne(n: nat, i: nat, world: World, ghost a: seq<Cell>, ghost r: seq<seq<Report>>)
      returns (s: BehaviorState, decided: bool)
      requires Preorder(t) && IsChild(t, n, i) && t[n].kind.Parallel? && Fits(t, a) && Fits(t, nodes) && |ran| == |t|
      requires Sweeping(t, a, nodes, n, ran[n], i, world) && Short(t, n, a[n], ran[n]) && ReportsKept(t, r, ran, n)
      modifies this`nodes, this`ran
      ensures Fits(t, nodes) && |ran| == |t| && ReportsKept(t, r, ran, n)
      ensures decided ==> ParallelTick(t, a[n], n, ran[n], s) && Ends(t, nodes, n, s)
      ensures decided ==> Good(t, nodes, n + 1, t[n].end) && SameOutside(a, nodes, n, t[n].end)
      ensures decided ==> Sanctioned(t, a, nodes, n, s, world)
      ensures !decided ==> Sweeping(t, a, nodes, n, ran[n], i + 1, world) && Short(t, n, a[n], ran[n])
      decreases t[n].end - n, 2
    {
      hide Preorder, Good, Ready, Ends, Sweeping, Short, SameOutside, Margin, ReportsKept, ParallelTick, Marked,
        Sanctioned;
      ghost var before := ran[n];
      s, decided := RUNNING, false;
      SweepHolds(t, a, nodes, n, before, i, world);
      if !nodes[n].done[i] {
        s := SweepChild(n, i, world, a, r);
        decided := Count(n, i, s, world, a, before);
      } else {
        SweepSkips(t, a, nodes, n, before, i, world);
      }
    }

    // Runs all children that are not done, until the results decide.
    method SweepChildren(n: nat, world: World) returns (s: BehaviorState)
      requires Preorder(t) && IsNode(t, n) && Good(t, nodes, n + 1, t[n].end) && Ready(t, nodes, n)
        && t[n].kind.Parallel?
      requires |ran| == |t| && ran[n] == [] && t[n].children != []
      modifies this`nodes, this`ran
      ensures Good(t, nodes, n + 1, t[n].end) && Ends(t, nodes, n, s)
      ensures SameOutside(old(nodes), nodes, n, t[n].end)
      ensures ReportsKept(t, old(ran), ran, n) && ParallelTick(t, old(nodes)[n], n, ran[n], s)
      ensures Sanctioned(t, old(nodes), nodes, n, s, world)
      decreases t[n].end - n, 3
    {
      assert Fits(t, nodes);
      hide Preorder, Good, Ready, Ends, Sweeping, Short, SameOutside, Margin, ReportsKept, ParallelTick, Marked,
        Sanctioned;
      ghost var a, r := nodes, ran;
      NodeFacts(t, n);
      KeptSelf(t, r, n);
      SweepStarts(t, a, n, world);
      for i := 0 to |t[n].children|
        invariant Fits(t, nodes) && |ran| == |t| && ReportsKept(t, r, ran, n)
        invariant Sweeping(t, a, nodes, n, ran[n], i, world) && Short(t, n, a[n], ran[n])
      {
        var decided;
        s, decided := SweepOne(n, i, world, a, r);
        if decided {
          return;
        }
      }
      SweepEnds(t, a, nodes, n, ran[n], world);
      s := RUNNING;
    }

    method ParallelUpdate(n: nat, world: World) returns (s: BehaviorState)
      requires Preorder(t) && IsNode(t, n) && Good(t, nodes, n + 1, t[n].end) && Ready(t, nodes, n)
        && t[n].kind.Parallel?
      requires |ran| == |t| && ran[n] == []
      modifies this`nodes, this`ran
      ensures Good(t, nodes, n + 1, t[n].end) && Ends(t, nodes, n, s)
      ensures SameOutside(old(nodes), nodes, n, t[n].end)
      ensures ReportsKept(t, old(ran), ran, n) && ParallelTick(t, old(nodes)[n], n, ran[n], s)
      ensures Sanctioned(t, old(nodes), nodes, n, s, world)
      decreases t[n].end - n, 4
    {
      assert Fits(t, nodes);
      hide Preorder, Good, Ready, Ends, Sweeping, Short, SameOutside, Margin, ReportsKept, ParallelTick, Marked,
        Sanctioned;
      ghost var a, r := nodes, ran;
      NodeFacts(t, n);
      KeptSelf(t, r, n);
      if |t[n].children| == 0 {
        EmptySelector(t, a, n, 0);
        LeafSanctioned(t, a, n, world);
        s := SUCCESS;
      } else {
        s := SweepChildren(n, world);
      }
    }
  }
}
