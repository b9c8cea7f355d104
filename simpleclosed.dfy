/**
 * src/simpleclosed.rs: the closed list, a fixed-capacity table of ClosedListState indexed by node,
 * together with the `unwind` method it inherits from the `ClosedList` trait of src/astar.rs.
 */
module SimpleClosed {
  import opened AStar

  class SimpleClosed {
    /** The slots; the table is never resized, so its capacity is fixed at construction. */
    const slots: array<ClosedListState>

    /** `capacity` slots, every one `Unvisited`. */
    constructor (capacity: nat)
      ensures fresh(slots)
      ensures slots.Length == capacity
      ensures forall i :: 0 <= i < capacity ==> slots[i] == Unvisited
    {
      slots := new ClosedListState[capacity](_ => Unvisited);
    }

    /** `Index::index`: out-of-range reads panic, so the index must be within the capacity. */
    function Get(i: Node): (st: ClosedListState)
      requires i < slots.Length
      reads slots
      ensures st == slots[..][i]
    {
      slots[i]
    }

    /** `IndexMut::index_mut` followed by a store: slot `i` changes and no other. */
    method Set(i: Node, st: ClosedListState)
      requires i < slots.Length
      modifies slots
      ensures slots[..] == old(slots[..])[i := st]
    {
      slots[i] := st;
    }

    /**
     * `ClosedList::unwind`: follows the `PathFrom` back-links from `node` and returns them reversed,
     * so the path runs from an origin to `node`. It terminates because the back-links are acyclic;
     * it never repeats a node; and when every back-link points to a labelled node, a labelled `node`
     * unwinds to a path that starts at a `StartingPoint`.
     */
    method Unwind(node: Node) returns (path: seq<Node>)
      requires node < slots.Length
      requires Acyclic(slots[..])
      ensures IsUnwinding(slots[..], node, path)
      ensures forall i, j :: 0 <= i < j < |path| ==> path[i] != path[j]
      ensures LinksLabelled(slots[..]) && !slots[node].Unvisited? ==> slots[path[0]].StartingPoint?
    {
      ghost var rank :| Ranked(slots[..], rank);
      var r: Node := node;
      var back: seq<Node> := [r];
      while slots[r].PathFrom?
        invariant r < slots.Length && |rank| == slots.Length
        invariant |back| > 0 && back[0] == node && back[|back| - 1] == r
        invariant forall k :: 0 <= k < |back| ==> back[k] < slots.Length
        invariant forall k :: 0 <= k < |back| - 1 ==> slots[back[k]].PathFrom? && slots[back[k]].from == back[k + 1]
        invariant forall i, j :: 0 <= i < j < |back| ==> rank[back[j]] < rank[back[i]]
        invariant LinksLabelled(slots[..]) && !slots[node].Unvisited? ==> !slots[r].Unvisited?
        decreases rank[r]
      {
        var last := slots[r].from;
        back := back + [last];
        r := last;
      }
      // `path.reverse()`
      path := [];
      var i := |back|;
      while i > 0
        invariant 0 <= i <= |back|
        invariant |path| == |back| - i
        invariant forall k :: 0 <= k < |path| ==> path[k] == back[|back| - 1 - k]
      {
        i := i - 1;
        path := path + [back[i]];
      }
      forall k | 0 < k < |path|
        ensures slots[path[k]].PathFrom? && slots[path[k]].from == path[k - 1]
      {
        assert path[k] == back[|back| - 1 - k] && path[k - 1] == back[|back| - 1 - k + 1];
      }
      forall i, j | 0 <= i < j < |path| ensures path[i] != path[j] {
        assert rank[path[i]] < rank[path[j]];
      }
    }
  }
}
