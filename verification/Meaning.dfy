/** What a normalised pipeline means, phase by phase: the filter phase keeps exactly
    the rows every filter accepts, so filters may be rearranged or rewritten freely
    as long as together they accept the same rows. */
module Meaning {
  import opened Seqs
  import opened Exprs
  import opened Executor

  const FILTER_PHASE: nat := 3

  ghost predicate AllFilters(ops: seq<ViewOp>) {
    forall i :: 0 <= i < |ops| ==> ops[i].Filter?
  }

  /** Running a concatenation is running the parts in turn. */
  lemma {:induction false} RunAppend(rt: Runtime, f: Frame, a: seq<ViewOp>, b: seq<ViewOp>)
    ensures Run(rt, f, a + b) == if Run(rt, f, a).Err? then Err else Run(rt, Run(rt, f, a).frame, b)
    decreases |a|
  {
    if a == [] {
      assert a + b == b;
    } else if f.batches != [] {
      assert (a + b)[0] == a[0] && (a + b)[1..] == a[1..] + b;
      var next := ApplyOp(rt, f, a[0]);
      if next.Ok? {
        RunAppend(rt, next.frame, a[1..], b);
      }
    }
  }

  // ---- the filter phase

  /** Every filter of `fs` accepts the row. */
  ghost predicate KeepsAll(rt: Runtime, names: seq<string>, row: Row, fs: seq<ViewOp>) {
    forall op :: op in fs && op.Filter? ==> EvalPred(rt, names, row, op.pred) == Some(true)
  }

  ghost predicate AllOk(rt: Runtime, names: seq<string>, fs: seq<ViewOp>) {
    forall op :: op in fs && op.Filter? ==> PredOk(rt, names, op.pred)
  }

  ghost function KeptRows(rt: Runtime, names: seq<string>, rows: seq<Row>, fs: seq<ViewOp>): seq<Row> {
    if rows == [] then []
    else if KeepsAll(rt, names, rows[0], fs) then [rows[0]] + KeptRows(rt, names, rows[1..], fs)
    else KeptRows(rt, names, rows[1..], fs)
  }

  ghost function KeptFrame(rt: Runtime, f: Frame, fs: seq<ViewOp>): Frame {
    Frame(f.names, seq(|f.batches|, b requires 0 <= b < |f.batches| => KeptRows(rt, f.names, f.batches[b], fs)))
  }

  lemma {:induction false} KeptAfterFilter(rt: Runtime, names: seq<string>, rows: seq<Row>, fs: seq<ViewOp>)
    requires fs != [] && fs[0].Filter?
    ensures KeptRows(rt, names, FilterRows(rt, names, rows, fs[0].pred), fs[1..]) == KeptRows(rt, names, rows, fs)
  {
    if rows != [] {
      KeptAfterFilter(rt, names, rows[1..], fs);
      assert fs == [fs[0]] + fs[1..];
      var accepted := EvalPred(rt, names, rows[0], fs[0].pred) == Some(true);
      assert KeepsAll(rt, names, rows[0], fs) <==> accepted && KeepsAll(rt, names, rows[0], fs[1..]);
      var rest := FilterRows(rt, names, rows[1..], fs[0].pred);
      if accepted {
        assert FilterRows(rt, names, rows, fs[0].pred) == [rows[0]] + rest;
        assert ([rows[0]] + rest)[1..] == rest;
      }
    }
  }

  lemma {:induction false} KeptByNone(rt: Runtime, names: seq<string>, rows: seq<Row>)
    ensures KeptRows(rt, names, rows, []) == rows
  {
    if rows != [] {
      KeptByNone(rt, names, rows[1..]);
    }
  }

  /** A list of filters keeps, batch by batch, the rows they all accept; it fails iff one of them does. */
  lemma {:induction false} RunFilters(rt: Runtime, f: Frame, fs: seq<ViewOp>)
    requires AllFilters(fs) && f.batches != []
    ensures Run(rt, f, fs) == if AllOk(rt, f.names, fs) then Ok(KeptFrame(rt, f, fs)) else Err
    decreases |fs|
  {
    if fs == [] {
      forall b | 0 <= b < |f.batches| {
        KeptByNone(rt, f.names, f.batches[b]);
      }
      assert KeptFrame(rt, f, fs).batches == f.batches;
    } else {
      assert fs == [fs[0]] + fs[1..];
      var next := ApplyOp(rt, f, fs[0]);
      if next.Ok? {
        RunFilters(rt, next.frame, fs[1..]);
        forall b | 0 <= b < |f.batches| {
          KeptAfterFilter(rt, f.names, f.batches[b], fs);
        }
        assert KeptFrame(rt, next.frame, fs[1..]).batches == KeptFrame(rt, f, fs).batches;
      }
    }
  }

  /** Two lists of filters accept the same rows of every table, and fail on the same tables. */
  ghost predicate SameAcceptance(rt: Runtime, a: seq<ViewOp>, b: seq<ViewOp>) {
    && (forall names :: AllOk(rt, names, a) <==> AllOk(rt, names, b))
    && (forall names, row :: KeepsAll(rt, names, row, a) <==> KeepsAll(rt, names, row, b))
  }

  lemma {:induction false} SameKeptRows(rt: Runtime, names: seq<string>, rows: seq<Row>, a: seq<ViewOp>, b: seq<ViewOp>)
    requires SameAcceptance(rt, a, b)
    ensures KeptRows(rt, names, rows, a) == KeptRows(rt, names, rows, b)
  {
    if rows != [] {
      SameKeptRows(rt, names, rows[1..], a, b);
      assert KeepsAll(rt, names, rows[0], a) <==> KeepsAll(rt, names, rows[0], b);
    }
  }

  lemma SameFilterRuns(rt: Runtime, f: Frame, a: seq<ViewOp>, b: seq<ViewOp>)
    requires AllFilters(a) && AllFilters(b) && SameAcceptance(rt, a, b)
    ensures Run(rt, f, a) == Run(rt, f, b)
  {
    if f.batches != [] {
      RunFilters(rt, f, a);
      RunFilters(rt, f, b);
      forall i | 0 <= i < |f.batches| {
        SameKeptRows(rt, f.names, f.batches[i], a, b);
      }
      assert KeptFrame(rt, f, a).batches == KeptFrame(rt, f, b).batches;
    }
  }

  // ---- pipelines that differ in their filters only

  ghost predicate SameButFilters(a: seq<ViewOp>, b: seq<ViewOp>) {
    forall phase: nat :: phase < PHASES && phase != FILTER_PHASE ==> InPhase(a, phase) == InPhase(b, phase)
  }

  function BeforeFilters(ops: seq<ViewOp>): seq<ViewOp> {
    InPhase(ops, 0) + (InPhase(ops, 1) + InPhase(ops, 2))
  }

  lemma NormalizeAroundFilters(ops: seq<ViewOp>)
    ensures Normalize(ops) == BeforeFilters(ops) + (InPhase(ops, FILTER_PHASE) + PhasesFrom(ops, 4))
  {
    var a, b, c, rest := InPhase(ops, 0), InPhase(ops, 1), InPhase(ops, 2), PhasesFrom(ops, 3);
    Reassociate(b, c, rest);
    Reassociate(a, b + c, rest);
    assert PhasesFrom(ops, 1) == b + (c + rest) by {
      assert PhasesFrom(ops, 2) == c + rest;
    }
  }

  lemma FilterBucket(ops: seq<ViewOp>)
    ensures AllFilters(InPhase(ops, FILTER_PHASE))
  {
    BucketPhases(ops, FILTER_PHASE);
  }

  /** Pipelines with the same other operations, and filters accepting the same rows, compute the same. */
  lemma SameFiltersSameMeaning(rt: Runtime, f: Frame, a: seq<ViewOp>, b: seq<ViewOp>)
    requires SameButFilters(a, b)
    requires SameAcceptance(rt, InPhase(a, FILTER_PHASE), InPhase(b, FILTER_PHASE))
    ensures Exec(rt, f, a) == Exec(rt, f, b)
  {
    var fa, fb := InPhase(a, FILTER_PHASE), InPhase(b, FILTER_PHASE);
    NormalizeAroundFilters(a);
    NormalizeAroundFilters(b);
    FilterBucket(a);
    FilterBucket(b);
    SameBucketsSameOrder(a, b, 4);
    RunAppend(rt, f, BeforeFilters(a), fa + PhasesFrom(a, 4));
    RunAppend(rt, f, BeforeFilters(b), fb + PhasesFrom(b, 4));
    var mid := Run(rt, f, BeforeFilters(a));
    if mid.Ok? {
      RunAppend(rt, mid.frame, fa, PhasesFrom(a, 4));
      RunAppend(rt, mid.frame, fb, PhasesFrom(b, 4));
      SameFilterRuns(rt, mid.frame, fa, fb);
    }
  }

  /** Rearranging filters does not change which rows they accept. */
  lemma RearrangedAcceptance(rt: Runtime, a: seq<ViewOp>, b: seq<ViewOp>)
    requires multiset(a) == multiset(b)
    ensures SameAcceptance(rt, a, b)
  {
    forall op
      ensures op in a <==> op in b
    {
      assert op in a <==> op in multiset(a);
      assert op in b <==> op in multiset(b);
    }
  }
}
