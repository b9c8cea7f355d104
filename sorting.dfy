/**
 * `sort_unstable_by_key`, as src/evemap.rs uses it to order the solar systems by id: an in-place
 * sort of an array by an integer key. Insertion sort stands in for the library's unstable sort;
 * what the rest of the model relies on is only its contract (ordered by key, a permutation).
 */
module KeySort {

  /** The keys of `s`, position by position. */
  function Keys<T>(s: seq<T>, key: T -> int): (r: seq<int>)
    ensures |r| == |s|
    ensures forall i :: 0 <= i < |s| ==> r[i] == key(s[i])
  {
    seq(|s|, i requires 0 <= i < |s| => key(s[i]))
  }

  predicate SortedBy<T>(s: seq<T>, key: T -> int) {
    forall i, j :: 0 <= i < j < |s| ==> key(s[i]) <= key(s[j])
  }

  predicate Sorted(s: seq<int>) {
    forall i, j :: 0 <= i < j < |s| ==> s[i] <= s[j]
  }

  predicate Distinct<T(==)>(s: seq<T>) {
    forall i, j :: 0 <= i < j < |s| ==> s[i] != s[j]
  }

  /**
   * Sorts `a` in place so that the keys never decrease; the elements are only rearranged. Items of
   * equal key may end up in any order (the sort is unstable).
   */
  method SortByKey<T>(a: array<T>, key: T -> int)
    modifies a
    ensures SortedBy(a[..], key)
    ensures multiset(a[..]) == multiset(old(a[..]))
  {
    var i := 0;
    while i < a.Length
      invariant 0 <= i <= a.Length
      invariant forall k, l :: 0 <= k < l < i ==> key(a[k]) <= key(a[l])
      invariant multiset(a[..]) == multiset(old(a[..]))
    {
      var j := i;
      while j > 0 && key(a[j - 1]) > key(a[j])
        invariant 0 <= j <= i
        invariant forall k, l :: 0 <= k < l <= i && l != j ==> key(a[k]) <= key(a[l])
        invariant multiset(a[..]) == multiset(old(a[..]))
      {
        ghost var s := a[..];
        a[j - 1], a[j] := a[j], a[j - 1];
        SwapStep(s, a[..], j, i, key);
        j := j - 1;
      }
      InsertDone(a[..], j, i, key);
      i := i + 1;
    }
  }

  /**
   * One step of the insertion: swapping the out-of-order pair at `j - 1`, `j` keeps the elements
   * and moves the one position whose order is unknown down to `j - 1`.
   */
  lemma SwapStep<T>(s: seq<T>, t: seq<T>, j: nat, i: nat, key: T -> int)
    requires 0 < j <= i < |s| == |t|
    requires t[j - 1] == s[j] && t[j] == s[j - 1] && forall k :: 0 <= k < |s| && k != j - 1 && k != j ==> t[k] == s[k]
    requires key(s[j - 1]) > key(s[j])
    requires forall k, l :: 0 <= k < l <= i && l != j ==> key(s[k]) <= key(s[l])
    ensures multiset(t) == multiset(s)
    ensures forall k, l :: 0 <= k < l <= i && l != j - 1 ==> key(t[k]) <= key(t[l])
  {
    assert t == s[j - 1 := s[j]][j := s[j - 1]];
  }

  /** When the element at `j` is no smaller than its left neighbour, the first `i + 1` are in order. */
  lemma InsertDone<T>(s: seq<T>, j: nat, i: nat, key: T -> int)
    requires j <= i < |s|
    requires forall k, l :: 0 <= k < l <= i && l != j ==> key(s[k]) <= key(s[l])
    requires j == 0 || key(s[j - 1]) <= key(s[j])
    ensures forall k, l :: 0 <= k < l < i + 1 ==> key(s[k]) <= key(s[l])
  {
  }

  lemma KeysConcat<T>(s: seq<T>, t: seq<T>, key: T -> int)
    ensures Keys(s + t, key) == Keys(s, key) + Keys(t, key)
  {
  }

  lemma MultisetCancel<T>(x: T, a: multiset<T>, b: multiset<T>)
    requires multiset{x} + a == multiset{x} + b
    ensures a == b
  {
    forall v ensures a[v] == b[v] {
      assert (multiset{x} + a)[v] == (multiset{x} + b)[v];
    }
  }

  /** Taking out the element at `p` takes its key out of the keys. */
  lemma KeysRemove<T>(t: seq<T>, p: nat, key: T -> int)
    requires p < |t|
    ensures multiset(Keys(t, key)) == multiset{key(t[p])} + multiset(Keys(t[..p] + t[p + 1..], key))
  {
    var a, b := t[..p], t[p + 1..];
    assert t == a + ([t[p]] + b);
    KeysConcat(a, [t[p]] + b, key);
    KeysConcat([t[p]], b, key);
    KeysConcat(a, b, key);
    var ka, kb := Keys(a, key), Keys(b, key);
    assert Keys([t[p]], key) == [key(t[p])];
    assert Keys(t, key) == ka + ([key(t[p])] + kb);
    assert multiset(ka + ([key(t[p])] + kb)) == multiset(ka) + (multiset{key(t[p])} + multiset(kb));
    assert multiset(Keys(a + b, key)) == multiset(ka) + multiset(kb);
  }

  /** Rearranging a sequence rearranges its keys. */
  lemma {:induction false} PermutationKeys<T>(s: seq<T>, t: seq<T>, key: T -> int)
    requires multiset(s) == multiset(t)
    ensures multiset(Keys(s, key)) == multiset(Keys(t, key))
    decreases |s|
  {
    if |s| == 0 {
      assert |t| == |multiset(t)| == 0;
      return;
    }
    var x := s[0];
    assert x in multiset(t);
    var p :| 0 <= p < |t| && t[p] == x;
    var t' := t[..p] + t[p + 1..];
    assert multiset(s) == multiset{x} + multiset(s[1..]) by {
      assert s == [x] + s[1..];
    }
    assert multiset(t) == multiset{x} + multiset(t') by {
      assert t == t[..p] + [x] + t[p + 1..];
    }
    MultisetCancel(x, multiset(s[1..]), multiset(t'));
    PermutationKeys(s[1..], t', key);
    KeysRemove(s, 0, key);
    assert s[..0] + s[1..] == s[1..];
    KeysRemove(t, p, key);
  }

  /** Two ascending sequences holding the same numbers are the same sequence. */
  lemma {:induction false} SortedPermutationUnique(s: seq<int>, t: seq<int>)
    requires Sorted(s) && Sorted(t) && multiset(s) == multiset(t)
    ensures s == t
    decreases |s|
  {
    assert |s| == |multiset(s)| == |t|;
    if |s| > 0 {
      SortedHeadLeast(s, t[0]);
      SortedHeadLeast(t, s[0]);
      var x := s[0];
      assert t[0] == x;
      var s', t' := s[1..], t[1..];
      MultisetTail(s);
      MultisetTail(t);
      assert multiset(s') == multiset(t');
      SortedTail(s);
      SortedTail(t);
      SortedPermutationUnique(s', t');
      ConsTail(s);
      ConsTail(t);
    }
  }

  /** The first element of an ascending sequence is no larger than any element in it. */
  lemma SortedHeadLeast(s: seq<int>, v: int)
    requires Sorted(s) && v in multiset(s)
    ensures s[0] <= v
  {
    var k :| 0 <= k < |s| && s[k] == v;
  }

  lemma SortedTail(s: seq<int>)
    requires Sorted(s) && |s| > 0
    ensures Sorted(s[1..])
  {
  }

  lemma ConsTail<T>(s: seq<T>)
    requires |s| > 0
    ensures s == [s[0]] + s[1..]
  {
  }

  lemma MultisetTail<T>(s: seq<T>)
    requires |s| > 0
    ensures multiset(s[1..]) == multiset(s) - multiset{s[0]}
  {
    assert s == [s[0]] + s[1..];
  }

  /** A sequence without repeats holds each value at most once. */
  lemma {:induction false} DistinctCounts<T>(s: seq<T>)
    requires Distinct(s)
    ensures forall v :: multiset(s)[v] <= 1
    decreases |s|
  {
    if |s| > 0 {
      assert s == [s[0]] + s[1..];
      DistinctCounts(s[1..]);
      assert s[0] !in s[1..];
    }
  }

  /** A value at two positions is counted at least twice. */
  lemma RepeatCounts<T>(t: seq<T>, i: nat, j: nat)
    requires i < j < |t|
    ensures t[i] == t[j] ==> multiset(t)[t[i]] >= 2
  {
    assert t == t[..i] + [t[i]] + t[i + 1..j] + [t[j]] + t[j + 1..];
  }

  /** Rearranging a sequence without repeats gives a sequence without repeats. */
  lemma PermutationDistinct<T>(s: seq<T>, t: seq<T>)
    requires multiset(s) == multiset(t) && Distinct(s)
    ensures Distinct(t)
  {
    DistinctCounts(s);
    forall i, j | 0 <= i < j < |t| ensures t[i] != t[j] {
      RepeatCounts(t, i, j);
    }
  }
}
