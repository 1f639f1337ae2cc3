/** Where the fusion pass changes the meaning of a pipeline, and what the modules on the
    limits of the other passes share: a kernel that orders nothing and lists already in order. */
module OptimizerLimits {
  import opened Seqs
  import opened TextOrder
  import opened Exprs
  import opened Executor
  import opened Relevance
  import opened Meaning
  import opened Optimizer

  /** A kernel that leaves every table in its order, and to which no text is a number or a flag. */
  function IdleRuntime(): Runtime {
    Runtime(
      (rows: seq<seq<Cell>>, keys: seq<SortKey>) => seq(|rows|, i => i),
      (n, k, seed) => [],
      s => None,
      s => None,
      x => "",
      (kind, pattern, text) => false,
      (kind, pattern) => true,
      (fn, c) => c,
      (op, x, y) => Null,
      x => x,
      0.0)
  }

  lemma IdleSorts(rt: Runtime, names: seq<string>, rows: seq<Row>, keys: seq<SortKey>)
    requires rt.sortPermutation == IdleRuntime().sortPermutation
    ensures SortRows(rt, names, rows, keys) == rows
  {
    GatherAt(rows, seq(|rows|, i => i));
  }

  // ---- lists already in phase order

  lemma InPhaseCons(op: ViewOp, rest: seq<ViewOp>, phase: nat)
    ensures InPhase([op] + rest, phase) == if PhaseOf(op) == phase then [op] + InPhase(rest, phase) else InPhase(rest, phase)
  {
    assert ([op] + rest)[1..] == rest;
  }

  lemma {:induction false} PrependFirst(op: ViewOp, rest: seq<ViewOp>, phase: nat)
    requires phase <= PhaseOf(op) && forall p: nat :: p < PhaseOf(op) ==> InPhase(rest, p) == []
    ensures PhasesFrom([op] + rest, phase) == [op] + PhasesFrom(rest, phase)
    decreases PHASES - phase
  {
    InPhaseCons(op, rest, phase);
    FirstPhase([op] + rest, phase);
    FirstPhase(rest, phase);
    if phase < PhaseOf(op) {
      PrependFirst(op, rest, phase + 1);
    } else {
      SameTail(op, rest, phase);
      Reassociate([op], InPhase(rest, phase), PhasesFrom(rest, phase + 1));
    }
  }

  lemma FirstPhase(ops: seq<ViewOp>, phase: nat)
    requires phase < PHASES
    ensures PhasesFrom(ops, phase) == InPhase(ops, phase) + PhasesFrom(ops, phase + 1)
    ensures InPhase(ops, phase) == [] ==> PhasesFrom(ops, phase) == PhasesFrom(ops, phase + 1)
  {
  }

  lemma SameTail(op: ViewOp, rest: seq<ViewOp>, phase: nat)
    requires phase == PhaseOf(op)
    ensures PhasesFrom([op] + rest, phase + 1) == PhasesFrom(rest, phase + 1)
  {
    forall p: nat {
      InPhaseCons(op, rest, p);
    }
    SameBucketsSameOrder([op] + rest, rest, phase + 1);
  }

  /** A list already in phase order is its own normal form. */
  lemma {:induction false} InOrder(ops: seq<ViewOp>)
    requires PhasesAscend(ops)
    ensures Normalize(ops) == ops
  {
    if ops == [] {
      NothingToOrder(0);
    } else {
      InOrder(ops[1..]);
      forall p: nat | p < PhaseOf(ops[0]) {
        NothingInPhase(ops[1..], p);
      }
      PrependFirst(ops[0], ops[1..], 0);
      assert ops == [ops[0]] + ops[1..];
    }
  }

  lemma {:induction false} NothingToOrder(phase: nat)
    requires phase <= PHASES
    ensures PhasesFrom([], phase) == []
    decreases PHASES - phase
  {
    if phase < PHASES {
      NothingToOrder(phase + 1);
    }
  }

  lemma {:induction false} NothingInPhase(ops: seq<ViewOp>, phase: nat)
    requires forall i :: 0 <= i < |ops| ==> phase != PhaseOf(ops[i])
    ensures InPhase(ops, phase) == []
  {
    if ops != [] {
      NothingInPhase(ops[1..], phase);
    }
  }

  lemma StepTo(rt: Runtime, f: Frame, op: ViewOp, g: Frame, rest: seq<ViewOp>)
    requires f.batches != [] && ApplyOp(rt, f, op) == Ok(g)
    ensures Run(rt, f, [op] + rest) == Run(rt, g, rest)
  {
    assert ([op] + rest)[1..] == rest;
  }

  lemma ExecInOrder(rt: Runtime, f: Frame, ops: seq<ViewOp>)
    requires PhasesAscend(ops)
    ensures Exec(rt, f, ops) == Run(rt, f, ops)
  {
    InOrder(ops);
  }

  lemma Ascends(a: ViewOp, b: ViewOp, c: ViewOp)
    requires PhaseOf(a) <= PhaseOf(b) <= PhaseOf(c)
    ensures PhasesAscend([a, b, c]) && PhasesAscend([b, c])
  {
  }

  lemma ExecTwo(rt: Runtime, f: Frame, a: ViewOp, b: ViewOp)
    requires PhaseOf(a) <= PhaseOf(b)
    ensures Exec(rt, f, [a] + [b]) == Run(rt, f, [a] + [b])
  {
    Ascends(a, a, b);
    assert [a] + [b] == [a, b];
    ExecInOrder(rt, f, [a] + [b]);
  }

  lemma ExecThree(rt: Runtime, f: Frame, a: ViewOp, b: ViewOp, c: ViewOp)
    requires PhaseOf(a) <= PhaseOf(b) <= PhaseOf(c)
    ensures Exec(rt, f, [a] + ([b] + [c])) == Run(rt, f, [a] + ([b] + [c]))
  {
    Ascends(a, b, c);
    assert [a] + ([b] + [c]) == [a, b, c];
    ExecInOrder(rt, f, [a] + ([b] + [c]));
  }

  // ---- what pass 3 makes of one sort and of two

  lemma FusesPair(keys: seq<SortKey>, n: nat, ops: seq<ViewOp>)
    requires ops == [Sort(keys), Limit(n)]
    ensures Pass3SortLimitFusion(ops) == if n <= TOP_K_THRESHOLD then [TopK(n, keys)] else ops
  {
    assert FirstSort(ops) == 0 && ops[1..] == [ops[1]];
    assert FirstLimit([ops[1]]) == 0 && FirstLimit(ops) == 1;
    if n <= TOP_K_THRESHOLD {
      assert RemoveAt(ops, 1) == [ops[0]] && RemoveAt([ops[0]], 0) == [];
    }
  }

  /** Given two sorts, pass 3 fuses the first one. */
  lemma FusesFirstOfTwo(a: seq<SortKey>, b: seq<SortKey>, n: nat, ops: seq<ViewOp>)
    requires ops == [Sort(a), Sort(b), Limit(n)]
    ensures Pass3SortLimitFusion(ops) == if n <= TOP_K_THRESHOLD then [Sort(b), TopK(n, a)] else ops
  {
    assert ops[1..] == [ops[1], ops[2]] && ops[1..][1..] == [ops[2]];
    assert FirstSort(ops) == 0;
    assert FirstLimit([ops[2]]) == 0 && FirstLimit([ops[1], ops[2]]) == 1;
    if n <= TOP_K_THRESHOLD {
      assert RemoveAt(RemoveAt(ops, 2), 0) == [ops[1]];
    }
  }

  // ---- the four lists, run

  function Sorted(rt: Runtime, f: Frame, keys: seq<SortKey>): Frame {
    Combined(f, SortRows(rt, f.names, Flatten(f.batches), keys))
  }

  /** What remains of the rows when the first `n` are taken. */
  function Cut(f: Frame, n: nat): Frame {
    Combined(f, Slice(Flatten(f.batches), 0, n))
  }

  lemma SortThen(rt: Runtime, f: Frame, keys: seq<SortKey>, rest: seq<ViewOp>)
    requires f.batches != []
    ensures Run(rt, f, [Sort(keys)] + rest) == Run(rt, Sorted(rt, f, keys), rest)
  {
    StepTo(rt, f, Sort(keys), Sorted(rt, f, keys), rest);
  }

  lemma LimitLast(rt: Runtime, f: Frame, n: nat)
    requires f.batches != []
    ensures Run(rt, f, [Limit(n)]) == Ok(Cut(f, n))
  {
    assert [Limit(n)][1..] == [];
  }

  lemma TopKLast(rt: Runtime, f: Frame, keys: seq<SortKey>, n: nat)
    requires f.batches != []
    ensures Run(rt, f, [TopK(n, keys)]) == Ok(if keys == [] then Combined(f, []) else Cut(Sorted(rt, f, keys), n))
  {
    assert [TopK(n, keys)][1..] == [];
    FlattenOne([], Sorted(rt, f, keys).batches[0]);
  }

  /** The pair, written and fused. */
  lemma PairRuns(rt: Runtime, f: Frame, keys: seq<SortKey>, n: nat, ops: seq<ViewOp>, top: seq<ViewOp>)
    requires f.batches != [] && ops == [Sort(keys), Limit(n)] && top == [TopK(n, keys)]
    ensures Exec(rt, f, ops) == Ok(Cut(Sorted(rt, f, keys), n))
    ensures Exec(rt, f, top) == Ok(if keys == [] then Combined(f, []) else Cut(Sorted(rt, f, keys), n))
  {
    Ascends(Sort(keys), Sort(keys), Limit(n));
    ExecInOrder(rt, f, ops);
    ExecInOrder(rt, f, top);
    assert ops == [Sort(keys)] + [Limit(n)];
    SortThen(rt, f, keys, [Limit(n)]);
    LimitLast(rt, Sorted(rt, f, keys), n);
    TopKLast(rt, f, keys, n);
  }

  /** Two sorts and a limit, written and fused. */
  lemma TwoSortsRun(rt: Runtime, f: Frame, a: seq<SortKey>, b: seq<SortKey>, n: nat, ops: seq<ViewOp>, fused: seq<ViewOp>)
    requires f.batches != [] && ops == [Sort(a), Sort(b), Limit(n)] && fused == [Sort(b), TopK(n, a)]
    ensures Exec(rt, f, ops) == Ok(Cut(Sorted(rt, Sorted(rt, f, a), b), n))
    ensures Exec(rt, f, fused) == Ok(if a == [] then Combined(f, []) else Cut(Sorted(rt, Sorted(rt, f, b), a), n))
  {
    Ascends(ops[0], ops[1], ops[2]);
    Ascends(fused[0], fused[0], fused[1]);
    ExecInOrder(rt, f, ops);
    ExecInOrder(rt, f, fused);
    assert ops == [Sort(a)] + ([Sort(b)] + [Limit(n)]) && fused == [Sort(b)] + [TopK(n, a)];
    SortThen(rt, f, a, [Sort(b)] + [Limit(n)]);
    SortThen(rt, Sorted(rt, f, a), b, [Limit(n)]);
    LimitLast(rt, Sorted(rt, Sorted(rt, f, a), b), n);
    SortThen(rt, f, b, [TopK(n, a)]);
    TopKLast(rt, Sorted(rt, f, b), a, n);
  }

  // ---- when fusion is sound

  /** The fused list computes what the written list computes, on every table and with every kernel. */
  ghost predicate FusionSound(ops: seq<ViewOp>) {
    forall rt, f :: WellFormed(f) ==> Exec(rt, f, Pass3SortLimitFusion(ops)) == Exec(rt, f, ops)
  }

  lemma NothingWanted(f: Frame, g: Frame)
    requires f.names == g.names
    ensures Cut(f, 0) == Combined(g, [])
  {
  }

  /** On a one-row table, a top-k without keys loses the row. */
  lemma KeylessTopKLosesRows(rt: Runtime, f: Frame, n: nat)
    requires n > 0 && f == Frame(["a"], [[[Num(1.0)]]])
    ensures WellFormed(f) && Flatten(f.batches) != [] && Cut(f, n) != Combined(f, [])
  {
    FlattenOne([], f.batches[0]);
  }

  /** Fusing a sort and a limit is sound exactly when there is a key, or nothing is wanted, or the limit is too large to fuse. */
  lemma PairFusionIsExact(keys: seq<SortKey>, n: nat, ops: seq<ViewOp>)
    requires ops == [Sort(keys), Limit(n)]
    ensures FusionSound(ops) <==> keys != [] || n == 0 || n > TOP_K_THRESHOLD
  {
    FusesPair(keys, n, ops);
    var top := [TopK(n, keys)];
    if keys != [] || n == 0 {
      forall rt, f
        ensures Exec(rt, f, top) == Exec(rt, f, ops)
      {
        if f.batches != [] {
          PairRuns(rt, f, keys, n, ops, top);
          NothingWanted(Sorted(rt, f, keys), f);
        }
      }
    } else if n <= TOP_K_THRESHOLD {
      var rt, f := IdleRuntime(), Frame(["a"], [[[Num(1.0)]]]);
      KeylessTopKLosesRows(rt, f, n);
      PairRuns(rt, f, keys, n, ops, top);
      FlattenOne([], f.batches[0]);
      assert Exec(rt, f, top) != Exec(rt, f, ops);
    }
  }

  /** A kernel that breaks the ties among three rows by the keys it is given. */
  function TieRuntime(a: seq<SortKey>, b: seq<SortKey>): Runtime {
    IdleRuntime().(sortPermutation := (rows: seq<seq<Cell>>, keys: seq<SortKey>) =>
      if |rows| == 3 && keys == a then [1, 0, 2] else if |rows| == 3 && keys == b then [0, 2, 1] else seq(|rows|, i => i))
  }

  function TiedRow(names: seq<string>, x: real): Row {
    seq(|names|, i => Null) + [Num(x)]
  }

  /** Three rows without a value in any of `names`, told apart by one more column. */
  function TiedTable(names: seq<string>): Frame {
    Frame(names + [Longer(names)], [[TiedRow(names, 0.0), TiedRow(names, 1.0), TiedRow(names, 2.0)]])
  }

  lemma {:induction false} AllPresent(names: seq<string>, keys: seq<SortKey>)
    requires forall k :: k in keys ==> k.column in names
    ensures PresentKeys(names, keys) == keys
  {
    if keys != [] {
      assert keys[0] in keys;
      assert forall k :: k in keys[1..] ==> k in keys;
      AllPresent(names, keys[1..]);
      assert keys == [keys[0]] + keys[1..];
    }
  }

  lemma TiedKeys(names: seq<string>, keys: seq<SortKey>)
    requires forall k :: k in keys ==> k.column in names
    ensures Tied(TiedTable(names), keys)
  {
    var f := TiedTable(names);
    forall i, k | 0 <= i < |f.batches[0]| && 0 <= k < |keys|
      ensures CellOf(f.names, f.batches[0][i], keys[k].column) == Null
    {
      assert keys[k] in keys;
      FirstInPrefix(names, [Longer(names)], keys[k].column);
    }
  }

  /** No two rows differ in a sort key: any order of them is sorted. */
  ghost predicate Tied(f: Frame, keys: seq<SortKey>) {
    forall b, i, j :: 0 <= b < |f.batches| && 0 <= i < |f.batches[b]| && 0 <= j < |f.batches[b]| ==>
      KeyCells(f.names, f.batches[b][i], keys) == KeyCells(f.names, f.batches[b][j], keys)
  }

  lemma FirstInPrefix(names: seq<string>, more: seq<string>, c: string)
    requires c in names
    ensures IndexOf(names + more, c).Some? && IndexOf(names + more, c).value < |names|
  {
    var all := names + more;
    var j :| 0 <= j < |names| && names[j] == c;
    assert all[j] == c;
    var i := IndexOf(all, c).value;
    assert forall k :: 0 <= k < i ==> all[..i][k] == all[k];
  }

  lemma GatherThree(rows: seq<Row>, i: nat, j: nat, k: nat)
    requires |rows| == 3 && i < 3 && j < 3 && k < 3
    ensures Gather(rows, [i, j, k]) == [rows[i], rows[j], rows[k]]
  {
    GatherAt(rows, [i, j, k]);
  }

  lemma TiedSort(a: seq<SortKey>, b: seq<SortKey>, f: Frame, rows: seq<Row>)
    requires a != [] && b != [] && a != b && f.batches == [rows] && |rows| == 3
    requires PresentKeys(f.names, a) == a && PresentKeys(f.names, b) == b
    ensures Sorted(TieRuntime(a, b), f, a) == Combined(f, [rows[1], rows[0], rows[2]])
    ensures Sorted(TieRuntime(a, b), f, b) == Combined(f, [rows[0], rows[2], rows[1]])
  {
    FlattenOne([], rows);
    GatherThree(rows, 1, 0, 2);
    GatherThree(rows, 0, 2, 1);
  }

  /** Sorting by two different lists of keys, in either order, starts with a different row. */
  lemma TiesTellOrdersApart(a: seq<SortKey>, b: seq<SortKey>, n: nat, f: Frame, r: Row, s: Row, t: Row)
    requires a != [] && b != [] && a != b && n > 0 && f.batches == [[r, s, t]] && s != t
    requires PresentKeys(f.names, a) == a && PresentKeys(f.names, b) == b
    ensures var rt := TieRuntime(a, b);
            Cut(Sorted(rt, Sorted(rt, f, a), b), n) != Cut(Sorted(rt, Sorted(rt, f, b), a), n)
  {
    var rt := TieRuntime(a, b);
    TiedSort(a, b, f, [r, s, t]);
    assert Sorted(rt, Sorted(rt, f, a), b) == Combined(f, [s, t, r]) by {
      TiedSort(a, b, Combined(f, [s, r, t]), [s, r, t]);
    }
    assert Sorted(rt, Sorted(rt, f, b), a) == Combined(f, [t, r, s]) by {
      TiedSort(a, b, Combined(f, [r, t, s]), [r, t, s]);
    }
    FirstOfCut(f, [s, t, r], n);
    FirstOfCut(f, [t, r, s], n);
  }

  lemma FirstOfCut(f: Frame, rows: seq<Row>, n: nat)
    requires rows != [] && n > 0
    ensures Cut(Combined(f, rows), n).batches[0] != [] && Cut(Combined(f, rows), n).batches[0][0] == rows[0]
  {
    FlattenOne([], rows);
  }

  /** With two sorts ahead of the limit, fusing the first one is sound exactly when nothing is wanted, or the limit is
      too large to fuse, or the first sort has a key and the second one repeats it or has none. */
  lemma TwoSortFusionIsExact(a: seq<SortKey>, b: seq<SortKey>, n: nat, ops: seq<ViewOp>)
    requires ops == [Sort(a), Sort(b), Limit(n)]
    ensures FusionSound(ops) <==> n == 0 || n > TOP_K_THRESHOLD || (a != [] && (a == b || b == []))
  {
    FusesFirstOfTwo(a, b, n, ops);
    var fused := [Sort(b), TopK(n, a)];
    if n == 0 || (a != [] && (a == b || b == [])) {
      forall rt, f
        ensures Exec(rt, f, fused) == Exec(rt, f, ops)
      {
        if f.batches != [] {
          TwoSortsRun(rt, f, a, b, n, ops, fused);
          NothingWanted(Sorted(rt, Sorted(rt, f, a), b), f);
          KeylessSort(rt, f, a);
        }
      }
    } else if n <= TOP_K_THRESHOLD {
      var rt, f := TwoSortFusionFails(a, b, n, ops, fused);
    }
  }

  /** A sort without keys only joins the batches. */
  lemma KeylessSort(rt: Runtime, f: Frame, a: seq<SortKey>)
    ensures Sorted(rt, Sorted(rt, f, []), a) == Sorted(rt, f, a) && Sorted(rt, Sorted(rt, f, a), []) == Sorted(rt, f, a)
    ensures a == [] ==> Sorted(rt, Sorted(rt, f, []), a) == Combined(f, Flatten(f.batches))
  {
    FlattenOne([], Flatten(f.batches));
    FlattenOne([], Sorted(rt, f, a).batches[0]);
  }

  lemma TiedRowsDiffer(names: seq<string>)
    ensures WellFormed(TiedTable(names)) && TiedRow(names, 1.0) != TiedRow(names, 2.0)
  {
    assert TiedRow(names, 1.0)[|names|] == Num(1.0) && TiedRow(names, 2.0)[|names|] == Num(2.0);
  }

  lemma OneRowTied(f: Frame, keys: seq<SortKey>)
    requires |f.batches| == 1 && |f.batches[0]| == 1
    ensures Tied(f, keys)
  {
  }

  lemma OneRowSorted(rt: Runtime, f: Frame, row: Row, keys: seq<SortKey>)
    requires f.batches == [[row]] && rt.sortPermutation == IdleRuntime().sortPermutation
    ensures Sorted(rt, f, keys) == f
  {
    FlattenOne([], [row]);
    IdleSorts(rt, f.names, [row], keys);
  }

  lemma KeylessFirstSortFails(rt: Runtime, f: Frame, row: Row, a: seq<SortKey>, b: seq<SortKey>, n: nat, ops: seq<ViewOp>, fused: seq<ViewOp>)
    requires ops == [Sort(a), Sort(b), Limit(n)] && fused == [Sort(b), TopK(n, a)] && n > 0 && a == []
    requires f.batches == [[row]] && rt.sortPermutation == IdleRuntime().sortPermutation
    ensures Exec(rt, f, fused) != Exec(rt, f, ops)
  {
    assert Sorted(rt, Sorted(rt, f, a), b) == f by {
      OneRowSorted(rt, f, row, a);
      OneRowSorted(rt, f, row, b);
    }
    TwoSortsRun(rt, f, a, b, n, ops, fused);
    assert f == Combined(f, [row]);
    FirstOfCut(f, [row], n);
  }

  lemma DifferentKeysFail(a: seq<SortKey>, b: seq<SortKey>, n: nat, ops: seq<ViewOp>, fused: seq<ViewOp>) returns (rt: Runtime, f: Frame)
    requires ops == [Sort(a), Sort(b), Limit(n)] && fused == [Sort(b), TopK(n, a)] && n > 0
    requires a != [] && b != [] && a != b
    ensures WellFormed(f) && Tied(f, a) && Tied(f, b) && Exec(rt, f, fused) != Exec(rt, f, ops)
  {
    var columns := KeyColumns(a) + KeyColumns(b);
    var names := SortedNames(columns);
    forall k | k in a || k in b
      ensures k.column in names
    {
      assert k.column in columns;
    }
    TiedKeys(names, a);
    TiedKeys(names, b);
    TiedRowsDiffer(names);
    rt, f := TieRuntime(a, b), TiedTable(names);
    assert Cut(Sorted(rt, Sorted(rt, f, a), b), n) != Cut(Sorted(rt, Sorted(rt, f, b), a), n) by {
      AllPresent(f.names, a);
      AllPresent(f.names, b);
      TiesTellOrdersApart(a, b, n, f, f.batches[0][0], f.batches[0][1], f.batches[0][2]);
    }
    TwoSortsRun(rt, f, a, b, n, ops, fused);
  }

  /** Otherwise it fails, even on a table in which every order of the rows is sorted by either list of keys. */
  lemma TwoSortFusionFails(a: seq<SortKey>, b: seq<SortKey>, n: nat, ops: seq<ViewOp>, fused: seq<ViewOp>) returns (rt: Runtime, f: Frame)
    requires ops == [Sort(a), Sort(b), Limit(n)] && fused == [Sort(b), TopK(n, a)] && n > 0
    requires a == [] || (a != b && b != [])
    ensures WellFormed(f) && Tied(f, a) && Tied(f, b) && Exec(rt, f, fused) != Exec(rt, f, ops)
  {
    if a == [] {
      rt, f := IdleRuntime(), Frame(["a"], [[[Num(1.0)]]]);
      OneRowTied(f, a);
      OneRowTied(f, b);
      KeylessFirstSortFails(rt, f, f.batches[0][0], a, b, n, ops, fused);
    } else {
      rt, f := DifferentKeysFail(a, b, n, ops, fused);
    }
  }
}
