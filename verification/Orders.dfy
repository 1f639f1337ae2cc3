/** A total preorder on rows: how Arrow's row format and sort kernels compare sort keys. */
module Orders {
  import opened Seqs

  ghost predicate TotalPreorder<T(!new)>(leq: (T, T) -> bool) {
    && (forall a, b :: leq(a, b) || leq(b, a))
    && (forall a, b, c :: leq(a, b) && leq(b, c) ==> leq(a, c))
  }

  ghost predicate Sorted<T>(leq: (T, T) -> bool, s: seq<T>) {
    forall i, j :: 0 <= i < j < |s| ==> leq(s[i], s[j])
  }

  /** `sorter` returns its argument rearranged into ascending order: `lexsort_to_indices` and `take`. */
  ghost predicate Sorts<T(!new)>(leq: (T, T) -> bool, sorter: seq<T> -> seq<T>) {
    forall s :: multiset(sorter(s)) == multiset(s) && Sorted(leq, sorter(s))
  }

  lemma SortedCons<T>(leq: (T, T) -> bool, x: T, s: seq<T>)
    requires Sorted(leq, s) && forall i :: 0 <= i < |s| ==> leq(x, s[i])
    ensures Sorted(leq, [x] + s)
  {
  }

  // ---- sorted arrangements of the same rows

  /** How many rows are strictly below `v`. */
  function Below<T>(leq: (T, T) -> bool, s: seq<T>, v: T): nat {
    if s == [] then 0 else (if leq(v, s[0]) then 0 else 1) + Below(leq, s[1..], v)
  }

  lemma {:induction false} BelowAppend<T>(leq: (T, T) -> bool, a: seq<T>, b: seq<T>, v: T)
    ensures Below(leq, a + b, v) == Below(leq, a, v) + Below(leq, b, v)
  {
    if a == [] {
      assert a + b == b;
    } else {
      assert (a + b)[1..] == a[1..] + b;
      BelowAppend(leq, a[1..], b, v);
    }
  }

  lemma BelowWithout<T>(leq: (T, T) -> bool, b: seq<T>, j: nat, v: T)
    requires j < |b|
    ensures Below(leq, b, v) == Below(leq, b[..j] + b[j + 1..], v) + if leq(v, b[j]) then 0 else 1
  {
    BelowAppend(leq, b[..j], b[j + 1..], v);
    BelowAppend(leq, b[..j], b[j..], v);
    assert b == b[..j] + b[j..] && b[j..][1..] == b[j + 1..];
  }

  lemma SameWithout<T>(a: seq<T>, b: seq<T>, j: nat)
    requires a != [] && multiset(a) == multiset(b) && j < |b| && b[j] == a[0]
    ensures multiset(a[1..]) == multiset(b[..j] + b[j + 1..])
  {
    assert a == [a[0]] + a[1..] && b == b[..j] + [b[j]] + b[j + 1..];
    assert multiset(a[1..]) == multiset(a) - multiset{a[0]};
    assert multiset(b[..j] + b[j + 1..]) == multiset(b) - multiset{a[0]};
  }

  lemma {:induction false} BelowDependsOnContents<T>(leq: (T, T) -> bool, a: seq<T>, b: seq<T>, v: T)
    requires multiset(a) == multiset(b)
    ensures Below(leq, a, v) == Below(leq, b, v)
    decreases |a|
  {
    assert |multiset(a)| == |multiset(b)|;
    if a != [] {
      assert a[0] in multiset(b);
      var j :| 0 <= j < |b| && b[j] == a[0];
      SameWithout(a, b, j);
      BelowDependsOnContents(leq, a[1..], b[..j] + b[j + 1..], v);
      BelowWithout(leq, b, j, v);
    }
  }

  /** In sorted rows the rows below `v` come first. */
  lemma {:induction false} BelowComeFirst<T(!new)>(leq: (T, T) -> bool, s: seq<T>, v: T, i: nat)
    requires TotalPreorder(leq) && Sorted(leq, s) && i < |s|
    ensures Below(leq, s, v) <= i <==> leq(v, s[i])
  {
    if leq(v, s[0]) {
      assert i > 0 ==> leq(s[0], s[i]);
      NoneBelow(leq, s, v);
    } else if i > 0 {
      BelowComeFirst(leq, s[1..], v, i - 1);
    }
  }

  lemma {:induction false} NoneBelow<T(!new)>(leq: (T, T) -> bool, s: seq<T>, v: T)
    requires TotalPreorder(leq) && Sorted(leq, s) && (s != [] ==> leq(v, s[0]))
    ensures Below(leq, s, v) == 0
  {
    if |s| > 1 {
      assert leq(s[0], s[1]);
      NoneBelow(leq, s[1..], v);
    }
  }

  /** Two sorted arrangements of the same rows agree, key by key. */
  lemma SortedArrangementsAgree<T(!new)>(leq: (T, T) -> bool, s: seq<T>, t: seq<T>, i: nat)
    requires TotalPreorder(leq) && Sorted(leq, s) && Sorted(leq, t) && multiset(s) == multiset(t) && i < |s|
    ensures |t| == |s| && leq(s[i], t[i]) && leq(t[i], s[i])
  {
    assert |multiset(s)| == |multiset(t)|;
    BelowDependsOnContents(leq, s, t, s[i]);
    BelowDependsOnContents(leq, s, t, t[i]);
    assert leq(s[i], s[i]) && leq(t[i], t[i]);
    BelowComeFirst(leq, s, s[i], i);
    BelowComeFirst(leq, t, s[i], i);
    BelowComeFirst(leq, s, t[i], i);
    BelowComeFirst(leq, t, t[i], i);
  }
}
