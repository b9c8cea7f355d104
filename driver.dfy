/**
 * src/astar.rs, `astar`: the search loop itself, run over the simple open and closed lists of
 * src/simpleopen.rs and src/simpleclosed.rs. Each method is proved to do what the pure functions of
 * module AStar say: the neighbour loop computes `Expand`, and the whole loop is a run (`IsRun`) from
 * the lists it was given to the lists it leaves behind.
 */
module AStarDriver {
  import opened Wrappers
  import opened AStar
  import opened SimpleOpen
  import opened SimpleClosed

  /** The contents of the two lists, as the pure model sees them. */
  function Snapshot(open: SimpleOpenList, closed: SimpleClosed): (st: SearchState)
    reads open, closed.slots
    ensures |st.closed| == closed.slots.Length
    ensures st.open == open.ordering
  {
    SearchState(closed.slots[..], open.ordering)
  }

  /**
   * The body of the neighbour loop for one edge, reaching `neighbour` at cost `candidate`: the
   * `match closed[neighbour]`, then, for an unvisited neighbour, the store of its back-link and the
   * push of its item. Returns `true` where the source returns `FoundHigherCostPath`.
   */
  method RelaxEdge(open: SimpleOpenList, closed: SimpleClosed, current: Node, candidate: Cost,
                   neighbour: Node, h: Node -> Cost) returns (conflict: bool)
    requires neighbour < closed.slots.Length
    modifies open, closed.slots
    ensures conflict <==> Relax(old(closed.slots[..])[neighbour], candidate) == Conflict
    ensures Relax(old(closed.slots[..])[neighbour], candidate) == Label ==>
              && closed.slots[..] == old(closed.slots[..])[neighbour := PathFrom(current, candidate)]
              && open.ordering == old(open.ordering) + multiset{OpenItem(candidate + h(neighbour), neighbour)}
    ensures Relax(old(closed.slots[..])[neighbour], candidate) != Label ==>
              closed.slots[..] == old(closed.slots[..]) && open.ordering == old(open.ordering)
  {
    match closed.Get(neighbour) {
      case PathFrom(_, existingCost) =>
        if existingCost <= candidate {
          return false;
        }
        return true;
      case StartingPoint(_) =>
        return false;
      case Unvisited =>
    }
    closed.Set(neighbour, PathFrom(current, candidate));
    open.PushOpen(OpenItem(candidate + h(neighbour), neighbour));
    return false;
  }

  /**
   * The `for (neighbour_cost, neighbour) in neighbours(&current_node)` loop: relaxes each edge in
   * turn, labelling and pushing unvisited neighbours, and stops with `true` at the first neighbour
   * already labelled at a strictly higher cost.
   */
  method ExpandNode(open: SimpleOpenList, closed: SimpleClosed, current: Node, currentCost: Cost,
                    edges: seq<(Cost, Node)>, h: Node -> Cost) returns (conflict: bool)
    requires EdgesInRange(edges, closed.slots.Length)
    modifies open, closed.slots
    ensures var e := Expand(old(closed.slots[..]), current, currentCost, edges, h);
            && closed.slots[..] == e.closed
            && open.ordering == old(open.ordering) + multiset(e.pushed)
            && conflict == e.conflict
  {
    ghost var s0 := closed.slots[..];
    ghost var o0 := open.ordering;
    ghost var e := Expansion(s0, [], false);
    EdgesPrefixInRange(edges, |s0|, 0);
    for i := 0 to |edges|
      invariant EdgesInRange(edges[..i], |s0|) && e == Expand(s0, current, currentCost, edges[..i], h)
      invariant closed.slots[..] == e.closed && open.ordering == o0 + multiset(e.pushed) && !e.conflict
    {
      var (neighbourCost, neighbour) := edges[i];
      var potentialPathCost := neighbourCost + currentCost;
      ghost var before := open.ordering;
      var stop := RelaxEdge(open, closed, current, potentialPathCost, neighbour, h);
      if stop {
        ExpandConflictAt(s0, current, currentCost, edges, h, i);
        return true;
      }
      ExpandAdvances(s0, current, currentCost, edges, h, i, o0, before, open.ordering, closed.slots[..]);
      e := Expand(s0, current, currentCost, edges[..i + 1], h);
    }
    assert edges[..|edges|] == edges;
    return false;
  }

  /**
   * One iteration of the `while let Some(item) = openlist.pop_min()` loop of `astar`: pops an item
   * of least estimate and handles it as `Step` says, returning `None` for `popped` when the open
   * list is empty and, in `result`, what `astar` returns if it returns in this iteration.
   */
  method SearchStep(open: SimpleOpenList, closed: SimpleClosed, p: Problem)
      returns (popped: Option<OpenItem>, result: Option<Result<Node, AStarError>>)
    requires NeighboursInRange(p, closed.slots.Length)
    requires forall y :: y in open.ordering ==> y.node < closed.slots.Length
    modifies open, closed.slots
    ensures popped.None? <==> old(open.ordering) == multiset{}
    ensures popped.None? ==> Snapshot(open, closed) == old(Snapshot(open, closed))
    ensures popped.Some? ==>
              && CanPop(p, old(Snapshot(open, closed)), popped.value)
              && Step(p, old(Snapshot(open, closed)), popped.value) == StepOutcome(Snapshot(open, closed), result)
    ensures forall y :: y in open.ordering ==> y.node < closed.slots.Length
  {
    ghost var st := Snapshot(open, closed);
    var item := open.PopMin();
    if item.None? {
      return None, None;
    }
    popped := item;
    var currentNode := item.value.node;
    assert CanPop(p, st, item.value);
    StepFrame(p, st, item.value);

    if p.isGoal(currentNode) {
      return popped, Some(Ok(currentNode));
    }
    // a popped node that was never labelled has no cost to extend
    var currentCost;
    match closed.Get(currentNode) {
      case PathFrom(_, c) => currentCost := c;
      case StartingPoint(c) => currentCost := c;
      case Unvisited =>
        return popped, Some(Err(OpenItemNotInClosedList));
    }

    var conflict := ExpandNode(open, closed, currentNode, currentCost, p.neighbours(currentNode), p.heuristic);
    result := if conflict then Some(Err(FoundHigherCostPath)) else None;
  }

  /** What a run promises under correct seeding and on a labelled forest, as implications. */
  lemma RunGuarantees(p: Problem, states: seq<SearchState>, pops: seq<OpenItem>, r: Result<Node, AStarError>)
    requires IsRun(p, states, pops, r)
    ensures OpenLabelled(states[0]) ==> r != Err(OpenItemNotInClosedList)
    ensures OpenLabelled(states[0]) && r.Ok? ==>
              r.value < |states[|pops|].closed| && !states[|pops|].closed[r.value].Unvisited?
    ensures Acyclic(states[0].closed) && LinksLabelled(states[0].closed) ==>
              Acyclic(states[|pops|].closed) && LinksLabelled(states[|pops|].closed)
  {
    if OpenLabelled(states[0]) {
      RunSeededCorrectly(p, states, pops, r);
    }
    if Acyclic(states[0].closed) && LinksLabelled(states[0].closed) {
      RunKeepsForest(p, states, pops, r);
    }
  }

  /**
   * `astar`: pops items of least estimate until one is a goal (`Ok`), one is unvisited
   * (`OpenItemNotInClosedList`), a neighbour loop meets a dearer label (`FoundHigherCostPath`) or
   * the open list runs dry (`PathNotFound`). The ghost results record the run: the states between
   * pops and the items popped, the first state being the lists as given and the last the lists as
   * left behind.
   */
  method Search(open: SimpleOpenList, closed: SimpleClosed, p: Problem)
      returns (r: Result<Node, AStarError>, ghost states: seq<SearchState>, ghost pops: seq<OpenItem>)
    requires NeighboursInRange(p, closed.slots.Length)
    requires forall y :: y in open.ordering ==> y.node < closed.slots.Length
    modifies open, closed.slots
    ensures IsRun(p, states, pops, r)
    ensures states[0] == old(Snapshot(open, closed))
    ensures states[|states| - 1] == Snapshot(open, closed)
    ensures OpenLabelled(states[0]) ==> r != Err(OpenItemNotInClosedList)
    ensures OpenLabelled(states[0]) && r.Ok? ==> r.value < closed.slots.Length && !closed.slots[r.value].Unvisited?
    ensures Acyclic(states[0].closed) && LinksLabelled(states[0].closed) ==>
              Acyclic(closed.slots[..]) && LinksLabelled(closed.slots[..])
  {
    states := [Snapshot(open, closed)];
    pops := [];
    while true
      invariant |states| == |pops| + 1
      invariant Continues(p, states, pops)
      invariant states[0] == old(Snapshot(open, closed))
      invariant states[|pops|] == Snapshot(open, closed)
      invariant forall y :: y in open.ordering ==> y.node < closed.slots.Length
      decreases Work(Snapshot(open, closed))
    {
      ghost var st := Snapshot(open, closed);
      var popped, result := SearchStep(open, closed, p);
      if popped.None? {
        r := Err(PathNotFound);
        RunGuarantees(p, states, pops, r);
        return;
      }
      ghost var next := Snapshot(open, closed);
      if result.Some? {
        RunEndsWith(p, states, pops, popped.value, next, result.value);
        r, states, pops := result.value, states + [next], pops + [popped.value];
        RunGuarantees(p, states, pops, r);
        return;
      }
      StepDecreasesWork(p, st, popped.value);
      ContinuesExtend(p, states, pops, popped.value, next);
      states, pops := states + [next], pops + [popped.value];
    }
  }
}
