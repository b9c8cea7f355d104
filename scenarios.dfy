/**
 * A worked run of `astar` on a three-node graph, seeded as src/main.rs seeds its search: one item
 * for the start, and the start's closed entry a `StartingPoint(0)`. A = 0, B = 1 and C = 2; A–B and
 * B–C cost 1, A–C costs `ac`; the goal is C and the estimate is 0 everywhere.
 *
 * Expanding A labels both B and C from A. When the direct edge is dearer than the way through B
 * (`ac > 2`), expanding B then meets C's dearer label and the search stops with
 * `FoundHigherCostPath`; otherwise C is popped and the search returns it, and C unwinds to [A, C].
 */
module Scenarios {
  import opened Wrappers
  import opened AStar
  import opened SimpleOpen
  import opened SimpleClosed
  import opened AStarDriver

  function TriangleEdges(ac: Cost, n: Node): seq<(Cost, Node)> {
    if n == 0 then [(1, 1), (ac, 2)] else if n == 1 then [(1, 0), (1, 2)] else [(ac, 0), (1, 1)]
  }

  function IsC(n: Node): bool { n == 2 }

  function Zero(n: Node): Cost { 0 }

  function Triangle(ac: Cost): Problem {
    Problem(IsC, Zero, n => TriangleEdges(ac, n))
  }

  /** The lists as the search starts on them at A. */
  function TriangleStart(): SearchState {
    SearchState([StartingPoint(0), Unvisited, Unvisited], multiset{OpenItem(0, 0)})
  }

  /** The closed list once A is expanded: both B and C reached from A. */
  function TriangleLabelled(ac: Cost): seq<ClosedListState> {
    [StartingPoint(0), PathFrom(0, 1), PathFrom(0, ac)]
  }

  lemma TriangleInRange(ac: Cost)
    ensures NeighboursInRange(Triangle(ac), 3)
  {
    forall n, k | 0 <= n < 3 && 0 <= k < |Triangle(ac).neighbours(n)|
      ensures Triangle(ac).neighbours(n)[k].1 < 3
    {
      assert Triangle(ac).neighbours(n) == TriangleEdges(ac, n);
    }
  }

  /** Expanding A labels B and C from A and pushes an item for each. */
  lemma ExpandA(ac: Cost)
    ensures EdgesInRange(TriangleEdges(ac, 0), 3)
    ensures Expand(TriangleStart().closed, 0, 0, TriangleEdges(ac, 0), Zero)
            == Expansion(TriangleLabelled(ac), [OpenItem(1, 1), OpenItem(ac, 2)], false)
  {
    var s, edges := TriangleStart().closed, TriangleEdges(ac, 0);
    assert edges[..0] == [] && edges[..1] == [(1, 1)] && edges[..2] == edges;
    ExpandNext(s, 0, 0, edges, Zero, 0);
    assert Expand(s, 0, 0, edges[..1], Zero) == Expansion([StartingPoint(0), PathFrom(0, 1), Unvisited], [OpenItem(1, 1)], false);
    ExpandNext(s, 0, 0, edges, Zero, 1);
  }

  /** Expanding B skips A, the start, and meets C's label from A: a conflict exactly when `ac > 2`. */
  lemma ExpandB(ac: Cost)
    ensures EdgesInRange(TriangleEdges(ac, 1), 3)
    ensures Expand(TriangleLabelled(ac), 1, 1, TriangleEdges(ac, 1), Zero) == Expansion(TriangleLabelled(ac), [], ac > 2)
  {
    var s, edges := TriangleLabelled(ac), TriangleEdges(ac, 1);
    assert edges[..0] == [] && edges[..1] == [(1, 0)] && edges[..2] == edges;
    ExpandNext(s, 1, 1, edges, Zero, 0);
    assert Expand(s, 1, 1, edges[..1], Zero) == Expansion(s, [], false);
    ExpandNext(s, 1, 1, edges, Zero, 1);
  }

  /** The first pop can only be A, and expanding it labels B and C and pushes their items. */
  lemma FirstStep(ac: Cost, x: OpenItem)
    requires CanPop(Triangle(ac), TriangleStart(), x)
    ensures x == OpenItem(0, 0)
    ensures Step(Triangle(ac), TriangleStart(), x)
            == StepOutcome(SearchState(TriangleLabelled(ac), multiset{OpenItem(1, 1), OpenItem(ac, 2)}), None)
  {
    var p := Triangle(ac);
    assert p.neighbours(0) == TriangleEdges(ac, 0);
    ExpandA(ac);
    assert TriangleStart().open - multiset{x} == multiset{};
    assert multiset([OpenItem(1, 1), OpenItem(ac, 2)]) == multiset{OpenItem(1, 1), OpenItem(ac, 2)};
  }

  /**
   * From the labelled state the pop takes B when `ac >= 1`, and expanding B meets C's label, a
   * conflict exactly when `ac > 2`; or it takes C, the goal, when `ac <= 1`.
   */
  lemma SecondStep(ac: Cost, x: OpenItem)
    requires CanPop(Triangle(ac), SearchState(TriangleLabelled(ac), multiset{OpenItem(1, 1), OpenItem(ac, 2)}), x)
    ensures var o := Step(Triangle(ac), SearchState(TriangleLabelled(ac), multiset{OpenItem(1, 1), OpenItem(ac, 2)}), x);
            || (&& x == OpenItem(1, 1) && 1 <= ac
                && o == StepOutcome(SearchState(TriangleLabelled(ac), multiset{OpenItem(ac, 2)}),
                                    if ac > 2 then Some(Err(FoundHigherCostPath)) else None))
            || (&& x == OpenItem(ac, 2) && ac <= 1
                && o == StepOutcome(SearchState(TriangleLabelled(ac), multiset{OpenItem(1, 1)}), Some(Ok(2))))
  {
    var p := Triangle(ac);
    var m := multiset{OpenItem(1, 1), OpenItem(ac, 2)};
    if x == OpenItem(1, 1) {
      assert OpenItem(ac, 2) in m;
      assert p.neighbours(1) == TriangleEdges(ac, 1);
      ExpandB(ac);
      assert m - multiset{x} == multiset{OpenItem(ac, 2)};
    } else {
      assert x == OpenItem(ac, 2);
      assert OpenItem(1, 1) in m;
      assert m - multiset{x} == multiset{OpenItem(1, 1)};
    }
  }

  /** After B is expanded without conflict only C is left, and popping it returns it. */
  lemma ThirdStep(ac: Cost, x: OpenItem)
    requires CanPop(Triangle(ac), SearchState(TriangleLabelled(ac), multiset{OpenItem(ac, 2)}), x)
    ensures x == OpenItem(ac, 2)
    ensures Step(Triangle(ac), SearchState(TriangleLabelled(ac), multiset{OpenItem(ac, 2)}), x)
            == StepOutcome(SearchState(TriangleLabelled(ac), multiset{}), Some(Ok(2)))
  {
    assert multiset{OpenItem(ac, 2)} - multiset{x} == multiset{};
  }

  /** The state after `k` pops that continued: the start, A expanded, then B expanded. */
  function Reached(ac: Cost, k: nat): SearchState {
    if k == 0 then TriangleStart()
    else if k == 1 then SearchState(TriangleLabelled(ac), multiset{OpenItem(1, 1), OpenItem(ac, 2)})
    else SearchState(TriangleLabelled(ac), multiset{OpenItem(ac, 2)})
  }

  /**
   * A run from the start continues for at most two pops, A and then B (the second only when
   * `1 <= ac <= 2`), and the open list is never empty in between.
   */
  lemma {:induction false} TriangleContinues(ac: Cost, states: seq<SearchState>, pops: seq<OpenItem>)
    requires Continues(Triangle(ac), states, pops) && states[0] == TriangleStart()
    ensures |pops| <= 2 && states[|pops|] == Reached(ac, |pops|)
    ensures |pops| >= 1 ==> pops[0] == OpenItem(0, 0)
    ensures |pops| == 2 ==> 1 <= ac <= 2
    ensures states[|pops|].open != multiset{}
  {
    var p := Triangle(ac);
    if |pops| >= 1 {
      FirstStep(ac, pops[0]);
    }
    if |pops| >= 2 {
      SecondStep(ac, pops[1]);
    }
    if |pops| >= 3 {
      assert CanPop(p, states[2], pops[2]) && Step(p, states[2], pops[2]) == StepOutcome(states[3], None);
      ThirdStep(ac, pops[2]);
    }
    var k := |pops|;
    var x := if k == 0 then OpenItem(0, 0) else if k == 1 then OpenItem(1, 1) else OpenItem(ac, 2);
    assert x in Reached(ac, k).open;
  }

  /** A pop that makes the search return, after the pops that continued. */
  lemma LastStep(ac: Cost, m: nat, x: OpenItem, next: SearchState, r: Result<Node, AStarError>)
    requires m <= 2 && (m == 2 ==> 1 <= ac <= 2)
    requires CanPop(Triangle(ac), Reached(ac, m), x) && Step(Triangle(ac), Reached(ac, m), x) == StepOutcome(next, Some(r))
    ensures r == Err(FoundHigherCostPath) <==> ac > 2
    ensures r == Ok(2) <==> ac <= 2
    ensures ac > 2 ==> m == 1 && x == OpenItem(1, 1)
    ensures next.closed == TriangleLabelled(ac)
  {
    if m == 0 {
      FirstStep(ac, x);
    } else if m == 1 {
      SecondStep(ac, x);
    } else {
      ThirdStep(ac, x);
    }
  }

  /**
   * Every run from the start: `FoundHigherCostPath`, after popping A and then B, exactly when the
   * direct edge to C is dearer than the way through B; `Ok(C)` otherwise. In every case the search
   * leaves B and C labelled from A.
   */
  lemma TriangleRuns(ac: Cost, states: seq<SearchState>, pops: seq<OpenItem>, r: Result<Node, AStarError>)
    requires IsRun(Triangle(ac), states, pops, r) && states[0] == TriangleStart()
    ensures r == Err(FoundHigherCostPath) <==> ac > 2
    ensures r == Ok(2) <==> ac <= 2
    ensures ac > 2 ==> |pops| == 2 && pops[0] == OpenItem(0, 0) && pops[1] == OpenItem(1, 1)
    ensures states[|pops|].closed == TriangleLabelled(ac)
  {
    var p := Triangle(ac);
    if Continues(p, states, pops) && states[|pops|].open == multiset{} && r == Err(PathNotFound) {
      TriangleContinues(ac, states, pops);
    } else {
      var m := |pops| - 1;
      var before, pre := states[..m + 1], pops[..m];
      assert before[0] == states[0];
      TriangleContinues(ac, before, pre);
      assert before[m] == states[m];
      LastStep(ac, m, pops[m], states[m + 1], r);
      assert m >= 1 ==> pre[0] == pops[0];
    }
  }

  /** A fresh closed list of capacity three with A made a `StartingPoint(0)` is the start's. */
  lemma SeededAtA(empty: seq<ClosedListState>, seeded: seq<ClosedListState>)
    requires |empty| == 3 && forall i :: 0 <= i < 3 ==> empty[i] == Unvisited
    requires seeded == empty[0 := StartingPoint(0)]
    ensures seeded == TriangleStart().closed
  {
    assert empty == [Unvisited, Unvisited, Unvisited];
  }

  lemma LabelledAcyclic(ac: Cost)
    ensures Acyclic(TriangleLabelled(ac))
  {
    assert Ranked(TriangleLabelled(ac), [0, 1, 1]);
  }

  /** On the labelled closed list C unwinds to [A, C], and that is the only unwinding. */
  lemma TriangleUnwind(ac: Cost, path: seq<Node>)
    requires IsUnwinding(TriangleLabelled(ac), 2, path)
    ensures path == [0, 2]
  {
    assert IsUnwinding(TriangleLabelled(ac), 2, [0, 2]);
    UnwindingUnique(TriangleLabelled(ac), 2, path, [0, 2]);
  }

  /**
   * src/main.rs's use of `astar`, on the three-node graph: a fresh open list holding the start's
   * item and a closed list of capacity three with A a `StartingPoint(0)`; on `Ok(n)` the path is
   * `closed.unwind(n)`.
   */
  method SolveTriangle(ac: Cost) returns (r: Result<Node, AStarError>, path: seq<Node>)
    ensures r == Ok(2) <==> ac <= 2
    ensures r == Err(FoundHigherCostPath) <==> ac > 2
    ensures r.Ok? ==> path == [0, 2]
  {
    var open := new SimpleOpenList();
    var closed := new SimpleClosed(3);
    open.PushOpen(OpenItem(0, 0));
    ghost var empty := closed.slots[..];
    closed.Set(0, StartingPoint(0));
    SeededAtA(empty, closed.slots[..]);
    assert open.ordering == multiset{OpenItem(0, 0)};
    var p := Triangle(ac);
    TriangleInRange(ac);
    ghost var states, pops;
    r, states, pops := Search(open, closed, p);
    TriangleRuns(ac, states, pops, r);
    path := [];
    if r.Ok? {
      assert closed.slots[..] == TriangleLabelled(ac);
      LabelledAcyclic(ac);
      path := closed.Unwind(2);
      TriangleUnwind(ac, path);
    }
  }
}
