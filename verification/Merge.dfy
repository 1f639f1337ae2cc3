/** The k-way heap merge of crates/tv-engine/src/external_sort.rs as a function: which row of
    which run comes out next, for any heap that pops a least key and breaks ties as it likes. */
module Merge {
  import opened Seqs
  import opened Orders

  /** A heap entry: the row at a run's cursor. An entry also records what a pop delivered. */
  datatype Entry<T> = Entry(key: T, run: nat)

  /** How the heap breaks ties: the position to pop, given the runs popped so far and the keys
      on the heap in the order they were pushed. */
  type Picker<!T> = (seq<nat>, seq<T>) -> nat

  ghost predicate PicksLeast<T(!new)>(leq: (T, T) -> bool, pick: Picker<T>) {
    forall history, keys :: keys != [] ==>
      pick(history, keys) < |keys| && forall i :: 0 <= i < |keys| ==> leq(keys[pick(history, keys)], keys[i])
  }

  function Keys<T>(entries: seq<Entry<T>>): (keys: seq<T>)
    ensures |keys| == |entries| && forall i :: 0 <= i < |keys| ==> keys[i] == entries[i].key
  {
    seq(|entries|, i requires 0 <= i < |entries| => entries[i].key)
  }

  function RemoveAt<T>(s: seq<T>, i: nat): seq<T>
    requires i < |s|
  {
    s[..i] + s[i + 1..]
  }

  /** What a merge still has to deliver: the heap, and each run's rows behind its heap entry. */
  datatype Progress<T> = Progress(heap: seq<Entry<T>>, rest: seq<seq<T>>, history: seq<nat>)

  ghost predicate InRange<T>(p: Progress<T>) {
    forall i :: 0 <= i < |p.heap| ==> p.heap[i].run < |p.rest|
  }

  /** One iteration of the loop: pop a least entry, push the run's next row if there is one. */
  function Popped<T>(pick: Picker<T>, p: Progress<T>): nat {
    pick(p.history, Keys(p.heap))
  }

  function Step<T>(pick: Picker<T>, p: Progress<T>): (next: Progress<T>)
    requires Popped(pick, p) < |p.heap| && InRange(p)
    ensures InRange(next) && |next.rest| == |p.rest|
  {
    var e, heap := p.heap[Popped(pick, p)], RemoveAt(p.heap, Popped(pick, p));
    var more := p.rest[e.run];
    if more == [] then Progress(heap, p.rest, p.history + [e.run])
    else Progress(heap + [Entry(more[0], e.run)], p.rest[e.run := more[1..]], p.history + [e.run])
  }

  lemma {:induction false} FlattenUpdate<T>(rest: seq<seq<T>>, r: nat, x: seq<T>)
    requires r < |rest|
    ensures multiset(Flatten(rest[r := x])) + multiset(rest[r]) == multiset(Flatten(rest)) + multiset(x)
    ensures |Flatten(rest[r := x])| + |rest[r]| == |Flatten(rest)| + |x|
  {
    if r == 0 {
      assert rest[0 := x][1..] == rest[1..];
    } else {
      var tail := rest[1..];
      FlattenUpdate(tail, r - 1, x);
      assert rest[r := x][1..] == tail[r - 1 := x];
      assert Flatten(rest[r := x]) == rest[0] + Flatten(tail[r - 1 := x]);
      assert Flatten(rest) == rest[0] + Flatten(tail) && tail[r - 1] == rest[r];
      AddBefore(rest[0], Flatten(tail[r - 1 := x]), Flatten(tail), rest[r], x);
    }
  }

  lemma AddBefore<T>(a: seq<T>, b': seq<T>, b: seq<T>, x: seq<T>, x': seq<T>)
    requires multiset(b') + multiset(x) == multiset(b) + multiset(x')
    ensures multiset(a + b') + multiset(x) == multiset(a + b) + multiset(x')
  {
    assert multiset(a + b') + multiset(x) == multiset(a) + (multiset(b') + multiset(x));
  }

  lemma StepShrinks<T>(pick: Picker<T>, p: Progress<T>)
    requires Popped(pick, p) < |p.heap| && InRange(p)
    ensures var next := Step(pick, p);
            |Flatten(next.rest)| < |Flatten(p.rest)| || (next.rest == p.rest && |next.heap| < |p.heap|)
  {
    var run := p.heap[Popped(pick, p)].run;
    if p.rest[run] != [] {
      FlattenUpdate(p.rest, run, p.rest[run][1..]);
    }
  }

  /** The entries a merge delivers from `p` on, in order. */
  ghost function Delivered<T(!new)>(leq: (T, T) -> bool, pick: Picker<T>, p: Progress<T>): (out: seq<Entry<T>>)
    requires PicksLeast(leq, pick) && InRange(p)
    decreases |Flatten(p.rest)|, |p.heap|
  {
    if p.heap == [] then []
    else
      StepShrinks(pick, p);
      [p.heap[Popped(pick, p)]] + Delivered(leq, pick, Step(pick, p))
  }

  /** The heap after every non-empty run has pushed its first row. */
  function FirstEntries<T>(runs: seq<seq<T>>, n: nat): (heap: seq<Entry<T>>)
    requires n <= |runs|
    ensures forall i :: 0 <= i < |heap| ==> heap[i].run < n
  {
    if n == 0 then []
    else if runs[n - 1] == [] then FirstEntries(runs, n - 1)
    else FirstEntries(runs, n - 1) + [Entry(runs[n - 1][0], n - 1)]
  }

  function Tails<T>(runs: seq<seq<T>>): seq<seq<T>> {
    seq(|runs|, r requires 0 <= r < |runs| => if runs[r] == [] then [] else runs[r][1..])
  }

  function Begin<T>(runs: seq<seq<T>>): (p: Progress<T>)
    ensures InRange(p)
  {
    Progress(FirstEntries(runs, |runs|), Tails(runs), [])
  }

  /** The whole merge of `runs`. */
  ghost function FullMerge<T(!new)>(leq: (T, T) -> bool, pick: Picker<T>, runs: seq<seq<T>>): seq<T>
    requires PicksLeast(leq, pick)
  {
    Keys(Delivered(leq, pick, Begin(runs)))
  }

  // ---- each run keeps its own order

  /** The rows of `entries` that came from run `r`. */
  function FromRun<T>(entries: seq<Entry<T>>, r: nat): seq<T> {
    if entries == [] then []
    else if entries[0].run == r then [entries[0].key] + FromRun(entries[1..], r)
    else FromRun(entries[1..], r)
  }

  /** A run has at most one entry on the heap, and has one while rows are left behind it. */
  ghost predicate OneEntryPerRun<T>(p: Progress<T>) {
    forall r :: 0 <= r < |p.rest| ==> |FromRun(p.heap, r)| <= 1 && (p.rest[r] != [] ==> FromRun(p.heap, r) != [])
  }

  /** What run `r` still has to deliver. */
  function Left<T>(p: Progress<T>, r: nat): seq<T>
    requires r < |p.rest|
  {
    FromRun(p.heap, r) + p.rest[r]
  }

  lemma {:induction false} FromRunAppend<T>(a: seq<Entry<T>>, b: seq<Entry<T>>, r: nat)
    ensures FromRun(a + b, r) == FromRun(a, r) + FromRun(b, r)
  {
    if a == [] {
      assert a + b == b;
    } else {
      assert (a + b)[1..] == a[1..] + b;
      FromRunAppend(a[1..], b, r);
    }
  }

  lemma {:induction false} FromRunNone<T>(a: seq<Entry<T>>, r: nat)
    ensures FromRun(a, r) == [] <==> forall i :: 0 <= i < |a| ==> a[i].run != r
  {
    if a != [] {
      FromRunNone(a[1..], r);
      assert forall i :: 0 <= i < |a[1..]| ==> a[1..][i] == a[i + 1];
    }
  }

  lemma FromRunPush<T>(heap: seq<Entry<T>>, e: Entry<T>, r: nat)
    ensures FromRun(heap + [e], r) == FromRun(heap, r) + if e.run == r then [e.key] else []
  {
    FromRunAppend(heap, [e], r);
  }

  lemma FromRunSplit<T>(heap: seq<Entry<T>>, i: nat, r: nat)
    requires i < |heap|
    ensures FromRun(heap, r) == FromRun(heap[..i], r) + (if heap[i].run == r then [heap[i].key] else []) + FromRun(heap[i + 1..], r)
    ensures FromRun(RemoveAt(heap, i), r) == FromRun(heap[..i], r) + FromRun(heap[i + 1..], r)
  {
    assert heap == heap[..i] + [heap[i]] + heap[i + 1..];
    FromRunAppend(heap[..i] + [heap[i]], heap[i + 1..], r);
    FromRunPush(heap[..i], heap[i], r);
    FromRunAppend(heap[..i], heap[i + 1..], r);
  }

  lemma FromRunRemoved<T>(heap: seq<Entry<T>>, i: nat, r: nat)
    requires i < |heap|
    ensures heap[i].run != r ==> FromRun(RemoveAt(heap, i), r) == FromRun(heap, r)
    ensures heap[i].run == r && |FromRun(heap, r)| <= 1 ==>
              && FromRun(heap, r) == [heap[i].key] && FromRun(RemoveAt(heap, i), r) == []
              && FromRun(heap[..i], r) == [] && FromRun(heap[i + 1..], r) == []
  {
    FromRunSplit(heap, i, r);
  }

  lemma OtherRun<T>(heap: seq<Entry<T>>, i: nat, k: nat)
    requires i < |heap| && k < |heap| && i != k && |FromRun(heap, heap[i].run)| <= 1
    ensures heap[k].run != heap[i].run
  {
    FromRunRemoved(heap, i, heap[i].run);
    FromRunNone(heap[..i], heap[i].run);
    FromRunNone(heap[i + 1..], heap[i].run);
    assert heap[k] == if k < i then heap[..i][k] else heap[i + 1..][k - i - 1];
  }

  /** A step takes the popped row off the front of its run and leaves every other run alone. */
  lemma StepDeliversFront<T>(pick: Picker<T>, p: Progress<T>, r: nat)
    requires Popped(pick, p) < |p.heap| && InRange(p) && OneEntryPerRun(p) && r < |p.rest|
    ensures var e, next := p.heap[Popped(pick, p)], Step(pick, p);
            && |FromRun(next.heap, r)| <= 1 && (next.rest[r] != [] ==> FromRun(next.heap, r) != [])
            && Left(p, r) == (if e.run == r then [e.key] else []) + Left(next, r)
  {
    var i := Popped(pick, p);
    var e, heap := p.heap[i], RemoveAt(p.heap, i);
    FromRunRemoved(p.heap, i, r);
    if p.rest[e.run] != [] {
      FromRunPush(heap, Entry(p.rest[e.run][0], e.run), r);
    }
  }

  lemma StepKeepsOnePerRun<T>(pick: Picker<T>, p: Progress<T>)
    requires Popped(pick, p) < |p.heap| && InRange(p) && OneEntryPerRun(p)
    ensures OneEntryPerRun(Step(pick, p))
  {
    forall r: nat | r < |p.rest| {
      StepDeliversFront(pick, p, r);
    }
  }

  /** Every run's rows come out in the run's own order, all of them. */
  lemma {:induction false} DeliversEachRunInOrder<T(!new)>(leq: (T, T) -> bool, pick: Picker<T>, p: Progress<T>, r: nat)
    requires PicksLeast(leq, pick) && InRange(p) && OneEntryPerRun(p) && r < |p.rest|
    ensures FromRun(Delivered(leq, pick, p), r) == Left(p, r)
    decreases |Flatten(p.rest)|, |p.heap|
  {
    if p.heap == [] {
      assert Delivered(leq, pick, p) == [] && FromRun(p.heap, r) == [];
    } else {
      var e, next := p.heap[Popped(pick, p)], Step(pick, p);
      StepShrinks(pick, p);
      StepKeepsOnePerRun(pick, p);
      StepDeliversFront(pick, p, r);
      DeliversEachRunInOrder(leq, pick, next, r);
      var tail := Delivered(leq, pick, next);
      assert Delivered(leq, pick, p) == [e] + tail;
      FromRunAppend([e], tail, r);
    }
  }

  lemma {:induction false} FirstEntryOf<T>(runs: seq<seq<T>>, n: nat, r: nat)
    requires n <= |runs| && r < |runs|
    ensures FromRun(FirstEntries(runs, n), r) == if r < n && runs[r] != [] then [runs[r][0]] else []
  {
    if n > 0 {
      var before := FirstEntries(runs, n - 1);
      FirstEntryOf(runs, n - 1, r);
      if runs[n - 1] != [] {
        var e := Entry(runs[n - 1][0], n - 1);
        assert FirstEntries(runs, n) == before + [e];
        FromRunPush(before, e, r);
      } else {
        assert FirstEntries(runs, n) == before;
      }
    }
  }

  lemma BeginHasEveryRun<T>(runs: seq<seq<T>>)
    ensures OneEntryPerRun(Begin(runs))
    ensures forall r :: 0 <= r < |runs| ==> Left(Begin(runs), r) == runs[r]
  {
    forall r: nat | r < |runs| {
      FirstEntryOf(runs, |runs|, r);
    }
  }

  // ---- the merge is a rearrangement

  lemma {:induction false} DeliversEverything<T(!new)>(leq: (T, T) -> bool, pick: Picker<T>, p: Progress<T>)
    requires PicksLeast(leq, pick) && InRange(p) && OneEntryPerRun(p)
    ensures multiset(Keys(Delivered(leq, pick, p))) == multiset(Keys(p.heap)) + multiset(Flatten(p.rest))
    decreases |Flatten(p.rest)|, |p.heap|
  {
    if p.heap == [] {
      NothingLeft(p);
      assert Keys(Delivered(leq, pick, p)) == [];
    } else {
      var e, next := p.heap[Popped(pick, p)], Step(pick, p);
      StepShrinks(pick, p);
      StepKeepsOnePerRun(pick, p);
      DeliversEverything(leq, pick, next);
      StepConserves(pick, p);
      KeysCons(e, Delivered(leq, pick, next));
      assert multiset([e.key] + Keys(Delivered(leq, pick, next))) == multiset{e.key} + multiset(Keys(Delivered(leq, pick, next)));
    }
  }

  lemma NothingLeft<T>(p: Progress<T>)
    requires OneEntryPerRun(p) && p.heap == []
    ensures Flatten(p.rest) == []
  {
    assert forall r :: 0 <= r < |p.rest| ==> FromRun(p.heap, r) == [];
    FlattenEmpty(p.rest);
  }

  lemma KeysCons<T>(e: Entry<T>, tail: seq<Entry<T>>)
    ensures Keys([e] + tail) == [e.key] + Keys(tail)
  {
  }

  lemma {:induction false} FlattenEmpty<T>(rest: seq<seq<T>>)
    requires forall r :: 0 <= r < |rest| ==> rest[r] == []
    ensures Flatten(rest) == []
  {
    if rest != [] {
      FlattenEmpty(rest[1..]);
    }
  }

  lemma KeysRemoved<T>(heap: seq<Entry<T>>, i: nat)
    requires i < |heap|
    ensures multiset(Keys(heap)) == multiset(Keys(RemoveAt(heap, i))) + multiset{heap[i].key}
  {
    assert Keys(heap) == Keys(heap[..i]) + [heap[i].key] + Keys(heap[i + 1..]);
    assert Keys(RemoveAt(heap, i)) == Keys(heap[..i]) + Keys(heap[i + 1..]);
  }

  lemma Balance<T>(k: multiset<T>, f: multiset<T>, f': multiset<T>, m: multiset<T>, m': multiset<T>, e: T, head: T)
    requires f' + m == f + m' && m == multiset{head} + m'
    ensures k + multiset{e} + f == multiset{e} + (k + multiset{head}) + f'
  {
    forall x
      ensures f[x] == (f' + multiset{head})[x]
    {
      assert (f' + m)[x] == (f + m')[x] && m[x] == (multiset{head} + m')[x];
    }
    assert f == f' + multiset{head};
  }

  lemma StepConserves<T>(pick: Picker<T>, p: Progress<T>)
    requires Popped(pick, p) < |p.heap| && InRange(p)
    ensures var next := Step(pick, p);
            multiset(Keys(p.heap)) + multiset(Flatten(p.rest)) ==
            multiset{p.heap[Popped(pick, p)].key} + multiset(Keys(next.heap)) + multiset(Flatten(next.rest))
  {
    var i := Popped(pick, p);
    var e, heap, next := p.heap[i], RemoveAt(p.heap, i), Step(pick, p);
    KeysRemoved(p.heap, i);
    var more := p.rest[e.run];
    if more != [] {
      FlattenUpdate(p.rest, e.run, more[1..]);
      assert more == [more[0]] + more[1..];
      assert Keys(next.heap) == Keys(heap) + [more[0]];
      Balance(multiset(Keys(heap)), multiset(Flatten(p.rest)), multiset(Flatten(next.rest)), multiset(more), multiset(more[1..]), e.key, more[0]);
    }
  }

  // ---- the merge of sorted runs is sorted

  /** Nothing left is below `floor`, and each run's remaining rows ascend. */
  ghost predicate Above<T>(leq: (T, T) -> bool, p: Progress<T>, floor: seq<T>) {
    && (forall f, i :: 0 <= f < |floor| && 0 <= i < |p.heap| ==> leq(floor[f], p.heap[i].key))
    && InRange(p)
    && (forall i :: 0 <= i < |p.heap| ==> Sorted(leq, [p.heap[i].key] + p.rest[p.heap[i].run]))
  }

  lemma StepStaysAbove<T(!new)>(leq: (T, T) -> bool, pick: Picker<T>, p: Progress<T>, floor: seq<T>)
    requires TotalPreorder(leq) && PicksLeast(leq, pick) && Above(leq, p, floor) && OneEntryPerRun(p) && p.heap != []
    ensures Above(leq, Step(pick, p), [p.heap[Popped(pick, p)].key])
  {
    var next, i := Step(pick, p), Popped(pick, p);
    var e, heap := p.heap[i], RemoveAt(p.heap, i);
    var more := p.rest[e.run];
    forall j | 0 <= j < |next.heap|
      ensures leq(e.key, next.heap[j].key) && Sorted(leq, [next.heap[j].key] + next.rest[next.heap[j].run])
    {
      if j < |heap| {
        var k := if j < i then j else j + 1;
        assert next.heap[j] == p.heap[k];
        OtherRun(p.heap, i, k);
        assert leq(e.key, Keys(p.heap)[k]);
      } else {
        var s := [e.key] + more;
        assert leq(s[0], s[1]);
        assert s[1..] == [more[0]] + more[1..];
      }
    }
  }

  lemma {:induction false} DeliversSorted<T(!new)>(leq: (T, T) -> bool, pick: Picker<T>, p: Progress<T>, floor: seq<T>)
    requires TotalPreorder(leq) && PicksLeast(leq, pick) && Above(leq, p, floor) && OneEntryPerRun(p)
    ensures var out := Keys(Delivered(leq, pick, p));
            Sorted(leq, out) && forall f, i :: 0 <= f < |floor| && 0 <= i < |out| ==> leq(floor[f], out[i])
    decreases |Flatten(p.rest)|, |p.heap|
  {
    if p.heap != [] {
      var e, next := p.heap[Popped(pick, p)], Step(pick, p);
      StepShrinks(pick, p);
      StepKeepsOnePerRun(pick, p);
      StepStaysAbove(leq, pick, p, floor);
      DeliversSorted(leq, pick, next, [e.key]);
      KeysCons(e, Delivered(leq, pick, next));
      SortedAboveFloor(leq, floor, e.key, Keys(Delivered(leq, pick, next)));
    }
  }

  lemma SortedAboveFloor<T(!new)>(leq: (T, T) -> bool, floor: seq<T>, x: T, tail: seq<T>)
    requires TotalPreorder(leq) && Sorted(leq, tail)
    requires forall f :: 0 <= f < |floor| ==> leq(floor[f], x)
    requires forall f, i :: 0 <= f < |[x]| && 0 <= i < |tail| ==> leq([x][f], tail[i])
    ensures Sorted(leq, [x] + tail)
    ensures forall f, i :: 0 <= f < |floor| && 0 <= i < |[x] + tail| ==> leq(floor[f], ([x] + tail)[i])
  {
    assert forall i :: 0 <= i < |tail| ==> leq([x][0], tail[i]);
  }

  /** The merge of sorted runs: a sorted rearrangement of all their rows. */
  lemma MergeOfSortedRuns<T(!new)>(leq: (T, T) -> bool, pick: Picker<T>, runs: seq<seq<T>>)
    requires TotalPreorder(leq) && PicksLeast(leq, pick) && forall r :: 0 <= r < |runs| ==> Sorted(leq, runs[r])
    ensures Sorted(leq, FullMerge(leq, pick, runs))
    ensures multiset(FullMerge(leq, pick, runs)) == multiset(Flatten(runs))
  {
    var p := Begin(runs);
    if runs == [] {
      assert FullMerge(leq, pick, runs) == [];
    } else {
      BeginHasEveryRun(runs);
      BeginAbove(leq, runs);
      DeliversSorted(leq, pick, p, []);
      DeliversEverything(leq, pick, p);
      BeginConservesAll(runs);
    }
  }

  lemma BeginConservesAll<T>(runs: seq<seq<T>>)
    ensures multiset(Keys(Begin(runs).heap)) + multiset(Flatten(Begin(runs).rest)) == multiset(Flatten(runs))
  {
    assert runs[..|runs|] == runs && Tails(runs)[..|runs|] == Tails(runs);
    BeginConserves(runs, |runs|, Begin(runs).heap, Flatten(Begin(runs).rest), Flatten(runs));
  }

  lemma {:induction false} FirstEntriesAreFirst<T>(runs: seq<seq<T>>, n: nat)
    requires n <= |runs|
    ensures forall i :: 0 <= i < |FirstEntries(runs, n)| ==>
              var e := FirstEntries(runs, n)[i]; runs[e.run] != [] && e.key == runs[e.run][0]
  {
    if n > 0 {
      FirstEntriesAreFirst(runs, n - 1);
    }
  }

  lemma BeginAbove<T>(leq: (T, T) -> bool, runs: seq<seq<T>>)
    requires forall r :: 0 <= r < |runs| ==> Sorted(leq, runs[r])
    ensures Above(leq, Begin(runs), [])
  {
    var p := Begin(runs);
    FirstEntriesAreFirst(runs, |runs|);
    forall i | 0 <= i < |p.heap|
      ensures Sorted(leq, [p.heap[i].key] + p.rest[p.heap[i].run])
    {
      var run := runs[p.heap[i].run];
      assert [run[0]] + run[1..] == run;
    }
  }

  /** The heap and the rows behind it hold exactly the rows of `all`. */
  ghost predicate Holds<T>(heap: seq<Entry<T>>, behind: seq<T>, all: seq<T>) {
    multiset(Keys(heap)) + multiset(behind) == multiset(all)
  }

  lemma HeadAndTail<T>(heap: seq<Entry<T>>, run: seq<T>, r: nat, behind: seq<T>, all: seq<T>)
    requires run != [] && Holds(heap, behind, all)
    ensures Holds(heap + [Entry(run[0], r)], behind + run[1..], all + run)
  {
    assert Keys(heap + [Entry(run[0], r)]) == Keys(heap) + [run[0]];
    assert run == [run[0]] + run[1..];
  }

  lemma NextRunHolds<T>(runs: seq<seq<T>>, n: nat, behind: seq<T>, behind': seq<T>, all: seq<T>, all': seq<T>)
    requires n < |runs| && Holds(FirstEntries(runs, n), behind, all)
    requires behind' == behind + Tails(runs)[n] && all' == all + runs[n]
    ensures Holds(FirstEntries(runs, n + 1), behind', all')
  {
    if runs[n] == [] {
      assert behind' == behind && all' == all;
    } else {
      HeadAndTail(FirstEntries(runs, n), runs[n], n, behind, all);
    }
  }

  /** `heap`, `behind` and `all` are what the first `n` runs begin with. */
  ghost predicate BeginsWith<T>(runs: seq<seq<T>>, n: nat, heap: seq<Entry<T>>, behind: seq<T>, all: seq<T>) {
    n <= |runs| && heap == FirstEntries(runs, n) && behind == Flatten(Tails(runs)[..n]) && all == Flatten(runs[..n])
  }

  lemma NextBegins<T>(runs: seq<seq<T>>, n: nat) returns (heap: seq<Entry<T>>, behind: seq<T>, all: seq<T>)
    requires n < |runs|
    ensures BeginsWith(runs, n, heap, behind, all)
    ensures BeginsWith(runs, n + 1, FirstEntries(runs, n + 1), behind + Tails(runs)[n], all + runs[n])
  {
    heap, behind, all := FirstEntries(runs, n), Flatten(Tails(runs)[..n]), Flatten(runs[..n]);
    FlattenNext(runs, n);
    FlattenNext(Tails(runs), n);
  }

  lemma {:induction false} BeginConserves<T>(runs: seq<seq<T>>, n: nat, heap: seq<Entry<T>>, behind: seq<T>, all: seq<T>)
    requires BeginsWith(runs, n, heap, behind, all)
    ensures Holds(heap, behind, all)
  {
    if n == 0 {
      assert runs[..0] == [] && Tails(runs)[..0] == [] && Keys(heap) == [];
    } else {
      var heap', behind', all' := NextBegins(runs, n - 1);
      BeginConserves(runs, n - 1, heap', behind', all');
      NextRunHolds(runs, n - 1, behind', behind, all', all);
    }
  }

  /** A single run merges to itself. */
  lemma MergeOfOneRun<T(!new)>(leq: (T, T) -> bool, pick: Picker<T>, run: seq<T>)
    requires PicksLeast(leq, pick)
    ensures FullMerge(leq, pick, [run]) == run
  {
    var p := Begin([run]);
    BeginHasEveryRun([run]);
    DeliversEachRunInOrder(leq, pick, p, 0);
    OnlyRunZero(leq, pick, p);
  }

  lemma {:induction false} OnlyRunZero<T(!new)>(leq: (T, T) -> bool, pick: Picker<T>, p: Progress<T>)
    requires PicksLeast(leq, pick) && InRange(p) && |p.rest| == 1
    ensures FromRun(Delivered(leq, pick, p), 0) == Keys(Delivered(leq, pick, p))
    decreases |Flatten(p.rest)|, |p.heap|
  {
    if p.heap != [] {
      StepShrinks(pick, p);
      OnlyRunZero(leq, pick, Step(pick, p));
      var e, tail := p.heap[Popped(pick, p)], Delivered(leq, pick, Step(pick, p));
      assert e.run == 0;
      FromRunAppend([e], tail, 0);
      KeysCons(e, tail);
    }
  }
}
