/**
 * The generic part of src/astar.rs: the per-node closed-list state machine, the open-list item and
 * its ordering, the three error outcomes, and a step-by-step specification of the search loop.
 *
 * Nodes are the `usize` offsets the closed list is indexed by; costs are unbounded integers.
 * The search driver itself (a loop over the two concrete containers) lives in module AStarDriver
 * and is proved against `IsRun` below.
 */
module AStar {
  import opened Wrappers

  type Node = nat
  type Cost = int

  /** How a node was reached: not yet, as a search origin, or from a predecessor at a total cost. */
  datatype ClosedListState =
    | Unvisited
    | StartingPoint(cost: Cost)
    | PathFrom(from: Node, cost: Cost)

  /** An open-list entry: estimated total cost and the node it is for. */
  datatype OpenItem = OpenItem(heuristic: Cost, node: Node)

  datatype AStarError = OpenItemNotInClosedList | FoundHigherCostPath | PathNotFound

  datatype Ordering = Less | Equal | Greater {
    function Reverse(): Ordering {
      match this
      case Less => Greater
      case Equal => Equal
      case Greater => Less
    }
  }

  function CompareCost(a: Cost, b: Cost): Ordering {
    if a < b then Less else if a == b then Equal else Greater
  }

  /**
   * `Ord`/`PartialOrd` for OpenItem: the comparison of the heuristics, reversed, so that the
   * max-heap pops the item of smallest estimate first. The node plays no part.
   */
  function Compare(a: OpenItem, b: OpenItem): (o: Ordering)
    ensures o == Greater <==> a.heuristic < b.heuristic
    ensures o == Equal <==> a.heuristic == b.heuristic
    ensures o == Less <==> a.heuristic > b.heuristic
  {
    CompareCost(a.heuristic, b.heuristic).Reverse()
  }

  /** `PartialEq` for OpenItem: the nodes only. */
  predicate ItemEq(a: OpenItem, b: OpenItem) {
    a.node == b.node
  }

  /**
   * The order is a total preorder that ignores the node, equality ignores the heuristic, and the two
   * disagree: items for one node with different estimates are equal but not `Ordering::Equal`.
   */
  lemma OpenItemOrderLaws(a: OpenItem, b: OpenItem, c: OpenItem, n: Node, m: Node)
    ensures Compare(a, b) == Compare(b, a).Reverse()
    ensures Compare(a, b) != Less && Compare(b, c) != Less ==> Compare(a, c) != Less
    ensures Compare(a.(node := n), b.(node := m)) == Compare(a, b)
    ensures ItemEq(a.(heuristic := c.heuristic), b) == ItemEq(a, b)
    ensures ItemEq(a, b) && Compare(a, b) == Equal <==> a == b
    ensures ItemEq(OpenItem(0, n), OpenItem(1, n)) && Compare(OpenItem(0, n), OpenItem(1, n)) == Greater
  {
  }

  // ---------------------------------------------------------------------------------------------
  // Labelling one neighbour (the `match closed[neighbour]` of the inner loop)

  /** What the driver does with a neighbour in state `st` reached at cost `candidate`. */
  datatype Relaxation = Skip | Conflict | Label

  function Relax(st: ClosedListState, candidate: Cost): (r: Relaxation)
    ensures r == Label <==> st.Unvisited?
    ensures r == Conflict <==> st.PathFrom? && st.cost > candidate
    ensures r == Skip <==> st.StartingPoint? || (st.PathFrom? && st.cost <= candidate)
  {
    match st
    case PathFrom(_, existing) => if existing <= candidate then Skip else Conflict
    case StartingPoint(_) => Skip
    case Unvisited => Label
  }

  /** The closed list and the items pushed after a prefix of the neighbour loop, and whether it stopped. */
  datatype Expansion = Expansion(closed: seq<ClosedListState>, pushed: seq<OpenItem>, conflict: bool)

  predicate EdgesInRange(edges: seq<(Cost, Node)>, capacity: nat) {
    forall k :: 0 <= k < |edges| ==> edges[k].1 < capacity
  }

  /**
   * The neighbour loop of `astar` run over `edges` from node `current` whose recorded cost is
   * `currentCost`: an unvisited neighbour is labelled `PathFrom(current, candidate)` and an item with
   * estimate `candidate + h(neighbour)` is pushed; a start point or an equally cheap label is skipped;
   * a strictly dearer label stops the loop with a conflict.
   */
  function Expand(s: seq<ClosedListState>, current: Node, currentCost: Cost, edges: seq<(Cost, Node)>,
                  h: Node -> Cost): (e: Expansion)
    requires EdgesInRange(edges, |s|)
    ensures |e.closed| == |s|
    decreases |edges|
  {
    if |edges| == 0 then Expansion(s, [], false)
    else
      var e := Expand(s, current, currentCost, edges[..|edges| - 1], h);
      var (edgeCost, neighbour) := edges[|edges| - 1];
      var candidate := edgeCost + currentCost;
      if e.conflict then e
      else
        match Relax(e.closed[neighbour], candidate)
        case Skip => e
        case Conflict => e.(conflict := true)
        case Label =>
          Expansion(e.closed[neighbour := PathFrom(current, candidate)],
                    e.pushed + [OpenItem(candidate + h(neighbour), neighbour)], false)
  }

  /** `t` is `s` with some unvisited entries labelled, and nothing else changed. */
  predicate LabelsOnce(s: seq<ClosedListState>, t: seq<ClosedListState>) {
    |t| == |s| && forall i :: 0 <= i < |s| ==> t[i] == s[i] || (s[i].Unvisited? && t[i].PathFrom?)
  }

  /** Only unvisited entries change, and each changed one now points back to `current`. */
  lemma {:induction false} ExpandChangesOnlyUnvisited(s: seq<ClosedListState>, current: Node, currentCost: Cost,
                                                      edges: seq<(Cost, Node)>, h: Node -> Cost)
    requires EdgesInRange(edges, |s|)
    ensures var e := Expand(s, current, currentCost, edges, h);
            forall i :: 0 <= i < |s| ==>
              e.closed[i] == s[i] || (s[i].Unvisited? && e.closed[i].PathFrom? && e.closed[i].from == current)
    ensures LabelsOnce(s, Expand(s, current, currentCost, edges, h).closed)
    decreases |edges|
  {
    if |edges| > 0 {
      ExpandChangesOnlyUnvisited(s, current, currentCost, edges[..|edges| - 1], h);
    }
  }

  /**
   * The loop ends without conflict exactly when every neighbour, relaxed again against the final
   * closed list, would be skipped: it is a start point or is labelled no dearer than its candidate.
   */
  lemma {:induction false} ExpandRelaxes(s: seq<ClosedListState>, current: Node, currentCost: Cost,
                                         edges: seq<(Cost, Node)>, h: Node -> Cost)
    requires EdgesInRange(edges, |s|)
    ensures var e := Expand(s, current, currentCost, edges, h);
            && (!e.conflict <==>
                  forall k :: 0 <= k < |edges| ==> Relax(e.closed[edges[k].1], edges[k].0 + currentCost) == Skip)
            && (e.conflict ==>
                  exists k :: 0 <= k < |edges| && Relax(e.closed[edges[k].1], edges[k].0 + currentCost) == Conflict)
    decreases |edges|
  {
    if |edges| > 0 {
      var pre := edges[..|edges| - 1];
      ExpandRelaxes(s, current, currentCost, pre, h);
      var e0 := Expand(s, current, currentCost, pre, h);
      var e := Expand(s, current, currentCost, edges, h);
      var m := |edges| - 1;
      var (edgeCost, neighbour) := edges[m];
      assert forall k :: 0 <= k < m ==> edges[k] == pre[k];
      if e0.conflict {
        var k :| 0 <= k < m && Relax(e0.closed[pre[k].1], pre[k].0 + currentCost) == Conflict;
        assert Relax(e.closed[edges[k].1], edges[k].0 + currentCost) == Conflict;
      } else if Relax(e0.closed[neighbour], edgeCost + currentCost) == Label {
        forall k | 0 <= k < |edges|
          ensures Relax(e.closed[edges[k].1], edges[k].0 + currentCost) == Skip
        {
          if k < m {
            assert Relax(e0.closed[pre[k].1], pre[k].0 + currentCost) == Skip;
          }
        }
      }
    }
  }

  /**
   * Every entry the loop labels is `PathFrom(current, c + currentCost)` for the FIRST edge
   * `(c, i)` that leads to it.
   */
  lemma {:induction false} ExpandLabelsFirstCandidate(s: seq<ClosedListState>, current: Node, currentCost: Cost,
                                                      edges: seq<(Cost, Node)>, h: Node -> Cost)
    requires EdgesInRange(edges, |s|)
    ensures var e := Expand(s, current, currentCost, edges, h);
            forall i :: 0 <= i < |s| && e.closed[i] != s[i] ==>
              exists k :: 0 <= k < |edges| && edges[k].1 == i
                && e.closed[i] == PathFrom(current, edges[k].0 + currentCost)
                && forall j :: 0 <= j < k ==> edges[j].1 != i
    decreases |edges|
  {
    if |edges| > 0 {
      var pre := edges[..|edges| - 1];
      ExpandLabelsFirstCandidate(s, current, currentCost, pre, h);
      ExpandRelaxes(s, current, currentCost, pre, h);
      var e0 := Expand(s, current, currentCost, pre, h);
      var e := Expand(s, current, currentCost, edges, h);
      var m := |edges| - 1;
      var (edgeCost, neighbour) := edges[m];
      assert forall k :: 0 <= k < m ==> edges[k] == pre[k];
      if !e0.conflict && Relax(e0.closed[neighbour], edgeCost + currentCost) == Label {
        forall i | 0 <= i < |s| && e.closed[i] != s[i]
          ensures exists k :: 0 <= k < |edges| && edges[k].1 == i
                    && e.closed[i] == PathFrom(current, edges[k].0 + currentCost)
                    && forall j :: 0 <= j < k ==> edges[j].1 != i
        {
          if i == neighbour {
            forall j | 0 <= j < m ensures edges[j].1 != i {
              assert Relax(e0.closed[pre[j].1], pre[j].0 + currentCost) == Skip;
            }
          } else {
            var k :| 0 <= k < |pre| && pre[k].1 == i
                     && e0.closed[i] == PathFrom(current, pre[k].0 + currentCost)
                     && forall j :: 0 <= j < k ==> pre[j].1 != i;
            assert edges[k] == pre[k];
          }
        }
      }
    }
  }

  /** The indices of the unvisited entries. */
  function UnvisitedSet(s: seq<ClosedListState>): set<nat> {
    set i | 0 <= i < |s| && s[i].Unvisited?
  }

  /**
   * One item is pushed for each entry the loop labels and for nothing else: its node was unvisited
   * and is now labelled, and its estimate is the label's cost plus the heuristic.
   */
  lemma {:induction false} ExpandPushes(s: seq<ClosedListState>, current: Node, currentCost: Cost,
                                        edges: seq<(Cost, Node)>, h: Node -> Cost)
    requires EdgesInRange(edges, |s|)
    ensures var e := Expand(s, current, currentCost, edges, h);
            && (forall k :: 0 <= k < |e.pushed| ==>
                  && e.pushed[k].node < |s|
                  && s[e.pushed[k].node].Unvisited?
                  && e.closed[e.pushed[k].node].PathFrom?
                  && e.pushed[k].heuristic == e.closed[e.pushed[k].node].cost + h(e.pushed[k].node))
            && (forall i :: 0 <= i < |s| && e.closed[i] != s[i] ==>
                  exists k :: 0 <= k < |e.pushed| && e.pushed[k].node == i)
            && (forall k, l :: 0 <= k < l < |e.pushed| ==> e.pushed[k].node != e.pushed[l].node)
    decreases |edges|
  {
    if |edges| > 0 {
      var pre := edges[..|edges| - 1];
      ExpandPushes(s, current, currentCost, pre, h);
      ExpandChangesOnlyUnvisited(s, current, currentCost, pre, h);
      var e0 := Expand(s, current, currentCost, pre, h);
      var e := Expand(s, current, currentCost, edges, h);
      var (edgeCost, neighbour) := edges[|edges| - 1];
      if !e0.conflict && Relax(e0.closed[neighbour], edgeCost + currentCost) == Label {
        var item := OpenItem(edgeCost + currentCost + h(neighbour), neighbour);
        assert e.closed == e0.closed[neighbour := PathFrom(current, edgeCost + currentCost)];
        assert e.pushed == e0.pushed + [item];
        var n := |e0.pushed|;
        forall k | 0 <= k < n ensures e.pushed[k] == e0.pushed[k] && e0.pushed[k].node != neighbour {
          assert e0.closed[e0.pushed[k].node].PathFrom?;
        }
        forall i | 0 <= i < |s| && e.closed[i] != s[i]
          ensures exists k :: 0 <= k < |e.pushed| && e.pushed[k].node == i
        {
          if i == neighbour {
            assert e.pushed[n].node == i;
          } else {
            assert e0.closed[i] != s[i];
            var k :| 0 <= k < n && e0.pushed[k].node == i;
            assert e.pushed[k].node == i;
          }
        }
      } else {
        assert e.closed == e0.closed && e.pushed == e0.pushed;
      }
    }
  }

  /** Each label used up one unvisited entry and pushed one item. */
  lemma {:induction false} ExpandUsesUnvisited(s: seq<ClosedListState>, current: Node, currentCost: Cost,
                                               edges: seq<(Cost, Node)>, h: Node -> Cost)
    requires EdgesInRange(edges, |s|)
    ensures var e := Expand(s, current, currentCost, edges, h);
            |UnvisitedSet(e.closed)| + |e.pushed| == |UnvisitedSet(s)|
    decreases |edges|
  {
    if |edges| > 0 {
      var pre := edges[..|edges| - 1];
      ExpandUsesUnvisited(s, current, currentCost, pre, h);
      var e0 := Expand(s, current, currentCost, pre, h);
      var (edgeCost, neighbour) := edges[|edges| - 1];
      if !e0.conflict && Relax(e0.closed[neighbour], edgeCost + currentCost) == Label {
        var t := e0.closed[neighbour := PathFrom(current, edgeCost + currentCost)];
        assert UnvisitedSet(t) == UnvisitedSet(e0.closed) - {neighbour};
      }
    }
  }

  /** Once the loop has stopped on a conflict, the remaining neighbours change nothing. */
  lemma {:induction false} ExpandStopsAtConflict(s: seq<ClosedListState>, current: Node, currentCost: Cost,
                                                 edges: seq<(Cost, Node)>, h: Node -> Cost, j: nat)
    requires EdgesInRange(edges, |s|) && j <= |edges|
    requires Expand(s, current, currentCost, edges[..j], h).conflict
    ensures Expand(s, current, currentCost, edges, h) == Expand(s, current, currentCost, edges[..j], h)
    decreases |edges|
  {
    if j < |edges| {
      var pre := edges[..|edges| - 1];
      assert pre[..j] == edges[..j];
      ExpandStopsAtConflict(s, current, currentCost, pre, h, j);
    } else {
      assert edges[..j] == edges;
    }
  }

  /** A prefix of an in-range edge list is in range. */
  lemma EdgesPrefixInRange(edges: seq<(Cost, Node)>, capacity: nat, i: nat)
    requires EdgesInRange(edges, capacity) && i <= |edges|
    ensures EdgesInRange(edges[..i], capacity)
  {
    assert forall k :: 0 <= k < i ==> edges[..i][k] == edges[k];
  }

  /** One more turn of the neighbour loop, on edge `edges[i]`, after the first `i` edges. */
  lemma ExpandNext(s: seq<ClosedListState>, current: Node, currentCost: Cost, edges: seq<(Cost, Node)>,
                   h: Node -> Cost, i: nat)
    requires EdgesInRange(edges, |s|) && i < |edges|
    ensures EdgesInRange(edges[..i], |s|) && EdgesInRange(edges[..i + 1], |s|)
    ensures var e := Expand(s, current, currentCost, edges[..i], h);
            var next := Expand(s, current, currentCost, edges[..i + 1], h);
            var candidate := edges[i].0 + currentCost;
            var n := edges[i].1;
            !e.conflict ==>
              && (Relax(e.closed[n], candidate) == Skip ==> next == e)
              && (Relax(e.closed[n], candidate) == Conflict ==> next == e.(conflict := true))
              && (Relax(e.closed[n], candidate) == Label ==>
                    next == Expansion(e.closed[n := PathFrom(current, candidate)],
                                      e.pushed + [OpenItem(candidate + h(n), n)], false))
  {
    EdgesPrefixInRange(edges, |s|, i);
    EdgesPrefixInRange(edges, |s|, i + 1);
    assert edges[..i + 1][..i] == edges[..i];
  }

  /**
   * The neighbour loop's bookkeeping over one more edge: if the closed list and a multiset of pushed
   * items stood for the first `i` edges, and the edge was relaxed without conflict, they now stand
   * for the first `i + 1`.
   */
  lemma ExpandAdvances(s: seq<ClosedListState>, current: Node, currentCost: Cost, edges: seq<(Cost, Node)>,
                       h: Node -> Cost, i: nat, base: multiset<OpenItem>,
                       before: multiset<OpenItem>, after: multiset<OpenItem>, closedAfter: seq<ClosedListState>)
    requires EdgesInRange(edges, |s|) && i < |edges| && EdgesInRange(edges[..i], |s|)
    requires var e := Expand(s, current, currentCost, edges[..i], h);
             && !e.conflict && before == base + multiset(e.pushed)
             && var candidate := edges[i].0 + currentCost;
             && var n := edges[i].1;
             && Relax(e.closed[n], candidate) != Conflict
             && (Relax(e.closed[n], candidate) == Label ==>
                   closedAfter == e.closed[n := PathFrom(current, candidate)]
                   && after == before + multiset{OpenItem(candidate + h(n), n)})
             && (Relax(e.closed[n], candidate) == Skip ==> closedAfter == e.closed && after == before)
    ensures EdgesInRange(edges[..i + 1], |s|)
    ensures var next := Expand(s, current, currentCost, edges[..i + 1], h);
            !next.conflict && closedAfter == next.closed && after == base + multiset(next.pushed)
  {
    ExpandNext(s, current, currentCost, edges, h, i);
    var e := Expand(s, current, currentCost, edges[..i], h);
    var candidate := edges[i].0 + currentCost;
    var n := edges[i].1;
    if Relax(e.closed[n], candidate) == Label {
      var item := OpenItem(candidate + h(n), n);
      assert multiset(e.pushed + [item]) == multiset(e.pushed) + multiset{item};
    }
  }

  /** A conflict on edge `edges[i]` is the outcome of the whole loop: the last `i + 1` edges change nothing. */
  lemma ExpandConflictAt(s: seq<ClosedListState>, current: Node, currentCost: Cost, edges: seq<(Cost, Node)>,
                         h: Node -> Cost, i: nat)
    requires EdgesInRange(edges, |s|) && i < |edges| && EdgesInRange(edges[..i], |s|)
    requires var e := Expand(s, current, currentCost, edges[..i], h);
             !e.conflict && Relax(e.closed[edges[i].1], edges[i].0 + currentCost) == Conflict
    ensures Expand(s, current, currentCost, edges, h) == Expand(s, current, currentCost, edges[..i], h).(conflict := true)
  {
    ExpandNext(s, current, currentCost, edges, h, i);
    ExpandStopsAtConflict(s, current, currentCost, edges, h, i + 1);
  }

  // ---------------------------------------------------------------------------------------------
  // The search loop, one popped item at a time

  /** The three callables `astar` is given. */
  datatype Problem = Problem(isGoal: Node -> bool, heuristic: Node -> Cost, neighbours: Node -> seq<(Cost, Node)>)

  /** Every neighbour of an in-range node is in range: the closed list's indexing never panics. */
  predicate NeighboursInRange(p: Problem, capacity: nat) {
    forall n, k :: 0 <= n < capacity && 0 <= k < |p.neighbours(n)| ==> p.neighbours(n)[k].1 < capacity
  }

  /** The contents of the closed list and of the open list between two pops. */
  datatype SearchState = SearchState(closed: seq<ClosedListState>, open: multiset<OpenItem>)

  /** `x` is an item of least estimate in `m`: what `pop_min` may return. */
  predicate IsMinItem(x: OpenItem, m: multiset<OpenItem>) {
    x in m && forall y :: y in m ==> x.heuristic <= y.heuristic
  }

  predicate CanPop(p: Problem, st: SearchState, x: OpenItem) {
    IsMinItem(x, st.open) && x.node < |st.closed| && NeighboursInRange(p, |st.closed|)
  }

  /** The state after handling popped item `x`, and the result if the loop returns there. */
  datatype StepOutcome = StepOutcome(next: SearchState, result: Option<Result<Node, AStarError>>)

  /** One iteration of the `while let Some(item) = openlist.pop_min()` loop. */
  function Step(p: Problem, st: SearchState, x: OpenItem): StepOutcome
    requires CanPop(p, st, x)
  {
    var rest := st.open - multiset{x};
    var n := x.node;
    if p.isGoal(n) then
      StepOutcome(SearchState(st.closed, rest), Some(Ok(n)))
    else if st.closed[n].Unvisited? then
      StepOutcome(SearchState(st.closed, rest), Some(Err(OpenItemNotInClosedList)))
    else
      var e := Expand(st.closed, n, st.closed[n].cost, p.neighbours(n), p.heuristic);
      StepOutcome(SearchState(e.closed, rest + multiset(e.pushed)),
                  if e.conflict then Some(Err(FoundHigherCostPath)) else None)
  }

  /** `states[k+1]` follows from `states[k]` by popping `pops[k]`, and no step returned. */
  predicate Continues(p: Problem, states: seq<SearchState>, pops: seq<OpenItem>) {
    && |states| == |pops| + 1
    && forall k :: 0 <= k < |pops| ==>
         CanPop(p, states[k], pops[k]) && Step(p, states[k], pops[k]) == StepOutcome(states[k + 1], None)
  }

  /**
   * A complete run of `astar` from `states[0]` with result `r`: either every step continued and the
   * open list ran dry (`PathNotFound`), or the last popped item made the loop return `r`.
   */
  predicate IsRun(p: Problem, states: seq<SearchState>, pops: seq<OpenItem>, r: Result<Node, AStarError>) {
    || (Continues(p, states, pops) && states[|pops|].open == multiset{} && r == Err(PathNotFound))
    || (&& |pops| > 0 && |states| == |pops| + 1
        && Continues(p, states[..|pops|], pops[..|pops| - 1])
        && CanPop(p, states[|pops| - 1], pops[|pops| - 1])
        && Step(p, states[|pops| - 1], pops[|pops| - 1]) == StepOutcome(states[|pops|], Some(r)))
  }

  /** What is left to do: pending items plus entries that can still be labelled. */
  function Work(st: SearchState): nat {
    |st.open| + |UnvisitedSet(st.closed)|
  }

  /** A step that continues strictly decreases the work left, so the loop terminates. */
  lemma StepDecreasesWork(p: Problem, st: SearchState, x: OpenItem)
    requires CanPop(p, st, x) && Step(p, st, x).result.None?
    ensures Work(Step(p, st, x).next) < Work(st)
  {
    var n := x.node;
    ExpandUsesUnvisited(st.closed, n, st.closed[n].cost, p.neighbours(n), p.heuristic);
  }

  /** A step keeps the capacity, only labels unvisited entries, and pushes only in-range nodes. */
  lemma StepFrame(p: Problem, st: SearchState, x: OpenItem)
    requires CanPop(p, st, x)
    ensures LabelsOnce(st.closed, Step(p, st, x).next.closed)
    ensures (forall y :: y in st.open ==> y.node < |st.closed|) ==>
              forall y :: y in Step(p, st, x).next.open ==> y.node < |st.closed|
  {
    var n := x.node;
    if !p.isGoal(n) && !st.closed[n].Unvisited? {
      ExpandChangesOnlyUnvisited(st.closed, n, st.closed[n].cost, p.neighbours(n), p.heuristic);
      ExpandPushes(st.closed, n, st.closed[n].cost, p.neighbours(n), p.heuristic);
    }
  }

  lemma {:induction false} ContinuesPrefix(p: Problem, states: seq<SearchState>, pops: seq<OpenItem>, j: nat)
    requires Continues(p, states, pops) && j <= |pops|
    ensures Continues(p, states[..j + 1], pops[..j])
  {
  }

  /** A run that continues one more step. */
  lemma ContinuesExtend(p: Problem, states: seq<SearchState>, pops: seq<OpenItem>, x: OpenItem, next: SearchState)
    requires Continues(p, states, pops)
    requires CanPop(p, states[|pops|], x) && Step(p, states[|pops|], x) == StepOutcome(next, None)
    ensures Continues(p, states + [next], pops + [x])
    ensures (states + [next])[0] == states[0] && (states + [next])[|pops| + 1] == next
  {
    var states', pops' := states + [next], pops + [x];
    forall k | 0 <= k < |pops'|
      ensures CanPop(p, states'[k], pops'[k]) && Step(p, states'[k], pops'[k]) == StepOutcome(states'[k + 1], None)
    {
      if k < |pops| {
        assert states'[k] == states[k] && states'[k + 1] == states[k + 1] && pops'[k] == pops[k];
      }
    }
  }

  /** A run that ends on a step returning `r`. */
  lemma RunEndsWith(p: Problem, states: seq<SearchState>, pops: seq<OpenItem>, x: OpenItem, next: SearchState,
                    r: Result<Node, AStarError>)
    requires Continues(p, states, pops)
    requires CanPop(p, states[|pops|], x) && Step(p, states[|pops|], x) == StepOutcome(next, Some(r))
    ensures IsRun(p, states + [next], pops + [x], r)
  {
    assert (states + [next])[..|pops| + 1] == states;
    assert (pops + [x])[..|pops|] == pops;
  }

  /** Over steps that continue, entries only ever change from `Unvisited` to `PathFrom`. */
  lemma {:induction false} ContinuesLabelsOnce(p: Problem, states: seq<SearchState>, pops: seq<OpenItem>)
    requires Continues(p, states, pops)
    ensures LabelsOnce(states[0].closed, states[|pops|].closed)
    decreases |pops|
  {
    if |pops| > 0 {
      var m := |pops| - 1;
      ContinuesPrefix(p, states, pops, m);
      ContinuesLabelsOnce(p, states[..m + 1], pops[..m]);
      StepFrame(p, states[m], pops[m]);
    }
  }

  /** Which result a single step returns, and what it leaves untouched when it returns early. */
  lemma StepCases(p: Problem, st: SearchState, x: OpenItem)
    requires CanPop(p, st, x)
    ensures var o := Step(p, st, x);
            && (o.result == Some(Ok(x.node)) <==> p.isGoal(x.node))
            && (o.result.Some? && o.result.value.Ok? ==> o.result.value.value == x.node)
            && o.result != Some(Err(PathNotFound))
            && (o.result == Some(Err(OpenItemNotInClosedList)) <==> !p.isGoal(x.node) && st.closed[x.node].Unvisited?)
            && (o.result == Some(Err(OpenItemNotInClosedList)) ==> o.next.closed == st.closed)
            && (o.result == Some(Err(FoundHigherCostPath)) ==> !p.isGoal(x.node) && !st.closed[x.node].Unvisited?)
  {
  }

  /**
   * The outcomes of a run: `Ok(n)` only for a popped goal, at the first goal popped; `PathNotFound`
   * only with an empty open list and no goal popped; `OpenItemNotInClosedList` only for a popped
   * unvisited non-goal, with the closed list untouched by that step. Throughout, closed-list entries
   * only change from `Unvisited` to `PathFrom`.
   */
  lemma RunOutcome(p: Problem, states: seq<SearchState>, pops: seq<OpenItem>, r: Result<Node, AStarError>)
    requires IsRun(p, states, pops, r)
    ensures |states| == |pops| + 1
    ensures LabelsOnce(states[0].closed, states[|pops|].closed)
    ensures forall k :: 0 <= k < |pops| - 1 ==> !p.isGoal(pops[k].node)
    ensures r.Ok? ==> |pops| > 0 && r.value == pops[|pops| - 1].node && p.isGoal(r.value)
    ensures r == Err(PathNotFound) ==>
              states[|pops|].open == multiset{} && forall k :: 0 <= k < |pops| ==> !p.isGoal(pops[k].node)
    ensures r == Err(OpenItemNotInClosedList) ==>
              && |pops| > 0
              && !p.isGoal(pops[|pops| - 1].node)
              && states[|pops| - 1].closed[pops[|pops| - 1].node].Unvisited?
              && states[|pops|].closed == states[|pops| - 1].closed
  {
    if Continues(p, states, pops) && states[|pops|].open == multiset{} && r == Err(PathNotFound) {
      ContinuesLabelsOnce(p, states, pops);
      forall k | 0 <= k < |pops| ensures !p.isGoal(pops[k].node) {
        assert Continues(p, states, pops);
        assert CanPop(p, states[k], pops[k]);
        assert Step(p, states[k], pops[k]) == StepOutcome(states[k + 1], None);
        StepCases(p, states[k], pops[k]);
      }
    } else {
      var m := |pops| - 1;
      ContinuesPrefix(p, states[..m + 1], pops[..m], m);
      ContinuesLabelsOnce(p, states[..m + 1], pops[..m]);
      assert forall k :: 0 <= k < m ==> pops[k] == pops[..m][k] && states[k] == states[..m + 1][k];
      StepFrame(p, states[m], pops[m]);
      StepCases(p, states[m], pops[m]);
      forall k | 0 <= k < m ensures !p.isGoal(pops[k].node) {
        assert states[k + 1] == states[..m + 1][k + 1];
        StepCases(p, states[k], pops[k]);
      }
    }
  }

  /**
   * `FoundHigherCostPath` only when some neighbour of the last expanded (labelled, non-goal) node is
   * labelled strictly dearer than the path through that node.
   */
  lemma RunConflict(p: Problem, states: seq<SearchState>, pops: seq<OpenItem>)
    requires IsRun(p, states, pops, Err(FoundHigherCostPath))
    ensures && |pops| > 0 && |states| == |pops| + 1
            && var n := pops[|pops| - 1].node;
            && var before := states[|pops| - 1].closed;
            && !p.isGoal(n) && n < |before| && !before[n].Unvisited?
            && exists k :: 0 <= k < |p.neighbours(n)|
                 && p.neighbours(n)[k].1 < |states[|pops|].closed|
                 && Relax(states[|pops|].closed[p.neighbours(n)[k].1], p.neighbours(n)[k].0 + before[n].cost) == Conflict
  {
    var m := |pops| - 1;
    StepCases(p, states[m], pops[m]);
    var n := pops[m].node;
    var before := states[m].closed;
    ExpandRelaxes(before, n, before[n].cost, p.neighbours(n), p.heuristic);
  }

  /**
   * Correct seeding: every item in the open list is for a labelled node, as when the start node's
   * item is pushed together with its `StartingPoint`.
   */
  predicate OpenLabelled(st: SearchState) {
    forall y :: y in st.open ==> y.node < |st.closed| && !st.closed[y.node].Unvisited?
  }

  /** From a correctly seeded state a step never meets an unlabelled item, and it stays seeded. */
  lemma StepKeepsOpenLabelled(p: Problem, st: SearchState, x: OpenItem)
    requires CanPop(p, st, x) && OpenLabelled(st)
    ensures Step(p, st, x).result != Some(Err(OpenItemNotInClosedList))
    ensures OpenLabelled(Step(p, st, x).next)
  {
    var n := x.node;
    if !p.isGoal(n) {
      var e := Expand(st.closed, n, st.closed[n].cost, p.neighbours(n), p.heuristic);
      ExpandChangesOnlyUnvisited(st.closed, n, st.closed[n].cost, p.neighbours(n), p.heuristic);
      ExpandPushes(st.closed, n, st.closed[n].cost, p.neighbours(n), p.heuristic);
      forall y | y in Step(p, st, x).next.open
        ensures y.node < |e.closed| && !e.closed[y.node].Unvisited?
      {
        if y !in st.open - multiset{x} {
          assert y in e.pushed;
        }
      }
    }
  }

  lemma {:induction false} ContinuesKeepsOpenLabelled(p: Problem, states: seq<SearchState>, pops: seq<OpenItem>)
    requires Continues(p, states, pops) && OpenLabelled(states[0])
    ensures OpenLabelled(states[|pops|])
    decreases |pops|
  {
    if |pops| > 0 {
      var m := |pops| - 1;
      ContinuesPrefix(p, states, pops, m);
      ContinuesKeepsOpenLabelled(p, states[..m + 1], pops[..m]);
      StepKeepsOpenLabelled(p, states[m], pops[m]);
    }
  }

  /**
   * A correctly seeded run never returns `OpenItemNotInClosedList`, and the node it returns with
   * `Ok` is labelled in the final closed list.
   */
  lemma RunSeededCorrectly(p: Problem, states: seq<SearchState>, pops: seq<OpenItem>, r: Result<Node, AStarError>)
    requires IsRun(p, states, pops, r) && OpenLabelled(states[0])
    ensures r != Err(OpenItemNotInClosedList)
    ensures r.Ok? ==> r.value < |states[|pops|].closed| && !states[|pops|].closed[r.value].Unvisited?
  {
    if !(Continues(p, states, pops) && states[|pops|].open == multiset{} && r == Err(PathNotFound)) {
      var m := |pops| - 1;
      ContinuesKeepsOpenLabelled(p, states[..m + 1], pops[..m]);
      assert states[..m + 1][m] == states[m];
      StepKeepsOpenLabelled(p, states[m], pops[m]);
      StepCases(p, states[m], pops[m]);
    }
  }

  // ---------------------------------------------------------------------------------------------
  // Back-links and path reconstruction

  /** `rank` strictly increases along every `PathFrom` back-link, so following them terminates. */
  predicate Ranked(s: seq<ClosedListState>, rank: seq<nat>) {
    && |rank| == |s|
    && forall i :: 0 <= i < |s| && s[i].PathFrom? ==> s[i].from < |s| && rank[s[i].from] < rank[i]
  }

  /** The back-links form a forest: no cycle, no dangling index. */
  ghost predicate Acyclic(s: seq<ClosedListState>) {
    exists rank :: Ranked(s, rank)
  }

  /** Every back-link points to a labelled (start or reached) node. */
  predicate LinksLabelled(s: seq<ClosedListState>) {
    forall i :: 0 <= i < |s| && s[i].PathFrom? ==> s[i].from < |s| && !s[s[i].from].Unvisited?
  }

  /**
   * `path` is what `unwind(node)` returns: it ends with `node`, starts at a node that is not
   * `PathFrom`, and each element is the recorded predecessor of the next.
   */
  predicate IsUnwinding(s: seq<ClosedListState>, node: Node, path: seq<Node>) {
    && |path| > 0
    && path[|path| - 1] == node
    && (forall k :: 0 <= k < |path| ==> path[k] < |s|)
    && !s[path[0]].PathFrom?
    && forall k :: 0 < k < |path| ==> s[path[k]].PathFrom? && s[path[k]].from == path[k - 1]
  }

  /** The back-link chain is determined by the closed list: `unwind` has exactly one possible result. */
  lemma {:induction false} UnwindingUnique(s: seq<ClosedListState>, node: Node, path: seq<Node>, other: seq<Node>)
    requires IsUnwinding(s, node, path) && IsUnwinding(s, node, other)
    ensures path == other
    decreases |path|
  {
    if |path| > 1 && |other| > 1 {
      assert s[path[|path| - 1]].PathFrom?;
      var prev := s[node].from;
      var p', o' := path[..|path| - 1], other[..|other| - 1];
      assert p'[|p'| - 1] == prev && o'[|o'| - 1] == prev;
      assert forall k :: 0 <= k < |p'| ==> p'[k] == path[k];
      assert forall k :: 0 <= k < |o'| ==> o'[k] == other[k];
      UnwindingUnique(s, prev, p', o');
      assert path == p' + [node] && other == o' + [node];
    }
  }

  /** A labelled origin unwinds to itself alone: `unwind(start) == [start]`. */
  lemma UnwindStartingPoint(s: seq<ClosedListState>, node: Node, path: seq<Node>)
    requires node < |s| && s[node].StartingPoint? && IsUnwinding(s, node, path)
    ensures path == [node]
  {
  }

  /** Labelling through `Expand` from a labelled node keeps the back-links a labelled forest. */
  lemma {:induction false} ExpandKeepsForest(s: seq<ClosedListState>, current: Node, currentCost: Cost,
                                             edges: seq<(Cost, Node)>, h: Node -> Cost, rank: seq<nat>)
    returns (rank': seq<nat>)
    requires EdgesInRange(edges, |s|) && current < |s| && !s[current].Unvisited?
    requires Ranked(s, rank) && LinksLabelled(s)
    ensures var e := Expand(s, current, currentCost, edges, h);
            Ranked(e.closed, rank') && LinksLabelled(e.closed)
    decreases |edges|
  {
    if |edges| == 0 {
      rank' := rank;
    } else {
      var pre := edges[..|edges| - 1];
      var r0 := ExpandKeepsForest(s, current, currentCost, pre, h, rank);
      ExpandChangesOnlyUnvisited(s, current, currentCost, pre, h);
      var e0 := Expand(s, current, currentCost, pre, h);
      var (edgeCost, neighbour) := edges[|edges| - 1];
      if !e0.conflict && Relax(e0.closed[neighbour], edgeCost + currentCost) == Label {
        rank' := r0[neighbour := r0[current] + 1];
        var t := e0.closed[neighbour := PathFrom(current, edgeCost + currentCost)];
        assert current != neighbour;
        forall i | 0 <= i < |t| && t[i].PathFrom?
          ensures t[i].from < |t| && rank'[t[i].from] < rank'[i] && !t[t[i].from].Unvisited?
        {
          if i != neighbour {
            assert e0.closed[i].PathFrom? && !e0.closed[e0.closed[i].from].Unvisited?;
            assert t[i].from != neighbour;
          }
        }
      } else {
        rank' := r0;
      }
    }
  }

  /** A step keeps the back-links a labelled forest. */
  lemma StepKeepsForest(p: Problem, st: SearchState, x: OpenItem, rank: seq<nat>) returns (rank': seq<nat>)
    requires CanPop(p, st, x) && Ranked(st.closed, rank) && LinksLabelled(st.closed)
    ensures Ranked(Step(p, st, x).next.closed, rank') && LinksLabelled(Step(p, st, x).next.closed)
  {
    var n := x.node;
    if p.isGoal(n) || st.closed[n].Unvisited? {
      rank' := rank;
    } else {
      rank' := ExpandKeepsForest(st.closed, n, st.closed[n].cost, p.neighbours(n), p.heuristic, rank);
    }
  }

  lemma {:induction false} ContinuesKeepsForest(p: Problem, states: seq<SearchState>, pops: seq<OpenItem>,
                                                rank: seq<nat>) returns (rank': seq<nat>)
    requires Continues(p, states, pops) && Ranked(states[0].closed, rank) && LinksLabelled(states[0].closed)
    ensures Ranked(states[|pops|].closed, rank') && LinksLabelled(states[|pops|].closed)
    decreases |pops|
  {
    if |pops| == 0 {
      rank' := rank;
    } else {
      var m := |pops| - 1;
      ContinuesPrefix(p, states, pops, m);
      var r0 := ContinuesKeepsForest(p, states[..m + 1], pops[..m], rank);
      rank' := StepKeepsForest(p, states[m], pops[m], r0);
    }
  }

  /**
   * Seeded with an acyclic, labelled closed list, a run leaves one: every back-link the search
   * writes points to an earlier-labelled node, so `unwind` terminates on the final closed list.
   */
  lemma RunKeepsForest(p: Problem, states: seq<SearchState>, pops: seq<OpenItem>, r: Result<Node, AStarError>)
    requires IsRun(p, states, pops, r)
    requires Acyclic(states[0].closed) && LinksLabelled(states[0].closed)
    ensures Acyclic(states[|pops|].closed) && LinksLabelled(states[|pops|].closed)
  {
    var rank :| Ranked(states[0].closed, rank);
    if Continues(p, states, pops) && states[|pops|].open == multiset{} && r == Err(PathNotFound) {
      var rank' := ContinuesKeepsForest(p, states, pops, rank);
    } else {
      var m := |pops| - 1;
      var r0 := ContinuesKeepsForest(p, states[..m + 1], pops[..m], rank);
      var rank' := StepKeepsForest(p, states[m], pops[m], r0);
    }
  }

  /** On labelled-linked back-links, the unwinding of a labelled node starts at a `StartingPoint`. */
  lemma UnwindingFromLabelled(s: seq<ClosedListState>, node: Node, path: seq<Node>)
    requires LinksLabelled(s) && IsUnwinding(s, node, path) && !s[node].Unvisited?
    ensures s[path[0]].StartingPoint?
  {
    if |path| > 1 {
      assert s[path[1]].PathFrom? && s[path[1]].from == path[0];
    }
  }

  /**
   * A correctly seeded run started on an acyclic, labelled-linked closed list that finds `n`: the
   * path `unwind(n)` returns on the final closed list starts at a seeded start node.
   */
  lemma RunUnwindsToStart(p: Problem, states: seq<SearchState>, pops: seq<OpenItem>, n: Node, path: seq<Node>)
    requires IsRun(p, states, pops, Ok(n)) && OpenLabelled(states[0])
    requires Acyclic(states[0].closed) && LinksLabelled(states[0].closed)
    requires IsUnwinding(states[|pops|].closed, n, path)
    ensures states[|pops|].closed[path[0]].StartingPoint?
  {
    RunSeededCorrectly(p, states, pops, Ok(n));
    RunKeepsForest(p, states, pops, Ok(n));
    UnwindingFromLabelled(states[|pops|].closed, n, path);
  }
}
