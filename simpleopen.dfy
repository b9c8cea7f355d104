/**
 * src/simpleopen.rs: the open list, a priority queue of OpenItems with no deduplication.
 * The `BinaryHeap` is modelled by the multiset of the items it holds; `pop` hands out a greatest
 * item under the OpenItem `Ord`, which is reversed, so an item of least estimate comes out first.
 */
module SimpleOpen {
  import opened Wrappers
  import opened AStar

  /** `x` is a greatest element of `m` under `Compare`: what `BinaryHeap::pop` returns. */
  predicate IsGreatest(x: OpenItem, m: multiset<OpenItem>) {
    x in m && forall y :: y in m ==> Compare(y, x) != Greater
  }

  /** Under the reversed ordering, a greatest item is exactly an item of least estimate. */
  lemma GreatestIsLeastEstimate(x: OpenItem, m: multiset<OpenItem>)
    ensures IsGreatest(x, m) <==> IsMinItem(x, m)
  {
  }

  /** A non-empty heap has a greatest element, so `pop` on it never comes back empty. */
  lemma {:induction false} GreatestExists(m: multiset<OpenItem>)
    requires |m| > 0
    ensures exists x :: IsGreatest(x, m)
    decreases |m|
  {
    var a :| a in m;
    var rest := m - multiset{a};
    if |rest| == 0 {
      assert m == multiset{a};
      assert IsGreatest(a, m);
    } else {
      GreatestExists(rest);
      var b :| IsGreatest(b, rest);
      forall y | y in m && y != a ensures y in rest {
        assert rest[y] == m[y];
      }
      if Compare(a, b) == Greater {
        assert IsGreatest(a, m);
      } else {
        assert IsGreatest(b, m);
      }
    }
  }

  class SimpleOpenList {
    /** The pending items, with multiplicity: several items for one node may coexist. */
    var ordering: multiset<OpenItem>

    constructor ()
      ensures ordering == multiset{}
    {
      ordering := multiset{};
    }

    function IsEmpty(): (b: bool)
      reads this
      ensures b <==> |ordering| == 0
      ensures b <==> forall x :: x !in ordering
    {
      ordering == multiset{}
    }

    /** Adds one item, whatever is already queued for its node. */
    method PushOpen(e: OpenItem)
      modifies this
      ensures ordering == old(ordering) + multiset{e}
      ensures ordering[e] == old(ordering)[e] + 1
    {
      ordering := ordering + multiset{e};
    }

    /** Removes and returns an item of least estimate, or `None` when the list is empty. */
    method PopMin() returns (r: Option<OpenItem>)
      modifies this
      ensures old(ordering) == multiset{} ==> r == None && ordering == multiset{}
      ensures old(ordering) != multiset{} ==>
                && r.Some?
                && IsMinItem(r.value, old(ordering))
                && ordering == old(ordering) - multiset{r.value}
                && forall y :: y in ordering ==> r.value.heuristic <= y.heuristic
    {
      if ordering == multiset{} {
        return None;
      }
      GreatestExists(ordering);
      var x :| IsGreatest(x, ordering);
      GreatestIsLeastEstimate(x, ordering);
      ordering := ordering - multiset{x};
      r := Some(x);
    }
  }
}
