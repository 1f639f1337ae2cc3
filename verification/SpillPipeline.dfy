/** The spill pipeline of crates/tv-engine/src/spill_pipeline.rs: stateless operations applied to a
    stream one batch at a time, and the limit collected from it. */
module SpillPipeline {
  import opened Seqs
  import opened Exprs
  import opened Executor
  import opened Meaning
  import TopK

  predicate IsStateless(op: ViewOp) {
    op.Filter? || op.Select? || op.Drop? || op.Derive? || op.Rename?
  }

  ghost predicate AllStateless(ops: seq<ViewOp>) {
    forall i :: 0 <= i < |ops| ==> IsStateless(ops[i])
  }

  // ---- one batch at a time

  /** `execute_pipeline` on a single batch. */
  function OnBatch(rt: Runtime, names: seq<string>, ops: seq<ViewOp>, batch: seq<Row>): Outcome {
    Run(rt, Frame(names, [batch]), ops)
  }

  function OnBatchRows(rt: Runtime, names: seq<string>, ops: seq<ViewOp>): seq<Row> -> seq<seq<Row>> {
    (batch: seq<Row>) => if OnBatch(rt, names, ops, batch).Ok? then OnBatch(rt, names, ops, batch).frame.batches else []
  }

  /** The operations apply to the schema: they succeed on an empty batch. */
  predicate Applies(rt: Runtime, names: seq<string>, ops: seq<ViewOp>) {
    OnBatch(rt, names, ops, []).Ok?
  }

  /** Per-batch results put side by side. */
  ghost predicate SideBySide(rt: Runtime, names: seq<string>, batches: seq<seq<Row>>, ops: seq<ViewOp>, whole: Outcome) {
    && whole.Ok? && |whole.frame.batches| == |batches|
    && forall b :: 0 <= b < |batches| ==> OnBatch(rt, names, ops, batches[b]) == Ok(Frame(whole.frame.names, [whole.frame.batches[b]]))
  }

  /** One stateless operation treats every batch on its own, and fails by the schema alone. */
  lemma StatelessStep(rt: Runtime, names: seq<string>, batches: seq<seq<Row>>, b: nat, op: ViewOp)
    requires IsStateless(op) && b < |batches|
    ensures var whole, one, none := ApplyOp(rt, Frame(names, batches), op), ApplyOp(rt, Frame(names, [batches[b]]), op), ApplyOp(rt, Frame(names, [[]]), op);
            && (whole.Ok? <==> one.Ok?) && (one.Ok? <==> none.Ok?)
            && (whole.Ok? ==>
                  (|whole.frame.batches| == |batches|
                  && one.frame.names == whole.frame.names == none.frame.names
                  && one.frame.batches == [whole.frame.batches[b]] && none.frame.batches == [[]]))
  {
    EmptyStep(rt, names, op);
  }

  lemma EmptyStep(rt: Runtime, names: seq<string>, op: ViewOp)
    requires IsStateless(op)
    ensures var none := ApplyOp(rt, Frame(names, [[]]), op); none.Ok? ==> none.frame.batches == [[]]
  {
    var none := ApplyOp(rt, Frame(names, [[]]), op);
    if none.Ok? {
      assert |none.frame.batches| == 1;
      assert none.frame.batches[0] == [];
    }
  }

  /** A stateless pipeline over many batches is the pipeline over each of them. */
  lemma {:induction false} StatelessPerBatch(rt: Runtime, names: seq<string>, batches: seq<seq<Row>>, ops: seq<ViewOp>)
    requires AllStateless(ops) && Applies(rt, names, ops) && batches != []
    ensures SideBySide(rt, names, batches, ops, Run(rt, Frame(names, batches), ops))
    decreases |ops|
  {
    if ops != [] {
      var op := ops[0];
      StatelessStep(rt, names, batches, 0, op);
      var next := ApplyOp(rt, Frame(names, batches), op);
      assert ApplyOp(rt, Frame(names, [[]]), op) == Ok(Frame(next.frame.names, [[]]));
      StatelessPerBatch(rt, next.frame.names, next.frame.batches, ops[1..]);
      var whole := Run(rt, next.frame, ops[1..]);
      assert Frame(next.frame.names, next.frame.batches) == next.frame;
      forall b | 0 <= b < |batches|
        ensures OnBatch(rt, names, ops, batches[b]) == Ok(Frame(whole.frame.names, [whole.frame.batches[b]]))
      {
        StatelessStep(rt, names, batches, b, op);
        assert ApplyOp(rt, Frame(names, [batches[b]]), op) == Ok(Frame(next.frame.names, [next.frame.batches[b]]));
      }
    }
  }

  /** An empty batch stays empty, so skipping it loses nothing. */
  lemma {:induction false} EmptyBatchStaysEmpty(rt: Runtime, names: seq<string>, ops: seq<ViewOp>)
    requires AllStateless(ops) && Applies(rt, names, ops)
    ensures OnBatch(rt, names, ops, []).frame.batches == [[]]
    decreases |ops|
  {
    if ops != [] {
      StatelessStep(rt, names, [[]], 0, ops[0]);
      EmptyBatchStaysEmpty(rt, ApplyOp(rt, Frame(names, [[]]), ops[0]).frame.names, ops[1..]);
    }
  }

  /** What the stream delivers is what the executor computes on the whole table. */
  lemma StreamIsPipeline(rt: Runtime, names: seq<string>, batches: seq<seq<Row>>, ops: seq<ViewOp>)
    requires AllStateless(ops) && Applies(rt, names, ops) && batches != []
    ensures var whole := Run(rt, Frame(names, batches), ops);
            whole.Ok? && TopK.Processed(OnBatchRows(rt, names, ops), batches) == Flatten(whole.frame.batches)
  {
    var whole := Run(rt, Frame(names, batches), ops);
    StatelessPerBatch(rt, names, batches, ops);
    assert batches[0..] == batches && whole.frame.batches[0..] == whole.frame.batches;
    SideBySideFlattens(rt, names, batches, ops, whole, 0);
  }

  lemma {:induction false} SideBySideFlattens(rt: Runtime, names: seq<string>, batches: seq<seq<Row>>, ops: seq<ViewOp>, whole: Outcome, b: nat)
    requires AllStateless(ops) && Applies(rt, names, ops) && SideBySide(rt, names, batches, ops, whole) && b <= |batches|
    ensures TopK.Processed(OnBatchRows(rt, names, ops), batches[b..]) == Flatten(whole.frame.batches[b..])
    decreases |batches| - b
  {
    if b < |batches| {
      SideBySideFlattens(rt, names, batches, ops, whole, b + 1);
      assert batches[b..][0] == batches[b] && batches[b..][1..] == batches[b + 1..];
      var done := whole.frame.batches;
      assert done[b..][0] == done[b] && done[b..][1..] == done[b + 1..];
      assert OnBatch(rt, names, ops, batches[b]) == Ok(Frame(whole.frame.names, [done[b]]));
      FlattenOne([], done[b]);
      if batches[b] == [] {
        EmptyBatchStaysEmpty(rt, names, ops);
        assert done[b] == [];
      }
    }
  }

  // ---- the limit

  /** `collect_limit_stream`. */
  method CollectLimit(process: seq<Row> -> seq<seq<Row>>, stream: seq<seq<Row>>, n: nat) returns (result: seq<seq<Row>>)
    ensures Flatten(result) == Slice(TopK.Processed(process, stream), 0, n)
  {
    result := [];
    var collected := 0;
    var i := 0;
    assert TopK.Processed(process, stream[..0]) == [];
    while i < |stream| && collected < n
      invariant i <= |stream| && collected == |Flatten(result)| <= n
      invariant Flatten(result) == Slice(TopK.Processed(process, stream[..i]), 0, n)
    {
      TopK.ProcessedNext(process, stream, i);
      if stream[i] != [] {
        result, collected := CollectFrom(process(stream[i]), n, result, collected, TopK.Processed(process, stream[..i]));
      }
      i := i + 1;
    }
    ProcessedSplit(process, stream, i);
    if i < |stream| {
      FirstRows(TopK.Processed(process, stream[..i]), TopK.Processed(process, stream[i..]), n);
    } else {
      assert stream[..i] == stream;
    }
  }

  lemma FirstRows<T>(a: seq<T>, b: seq<T>, n: nat)
    ensures |a| <= n ==> Slice(a, 0, n) == a
    ensures |Slice(a, 0, n)| == n ==> Slice(a + b, 0, n) == Slice(a, 0, n)
    ensures |a| + |b| <= n ==> Slice(a + b, 0, n) == Slice(a, 0, n) + b
    ensures |a| <= n <= |a| + |b| ==> Slice(a + b, 0, n) == Slice(a, 0, n) + b[..n - |a|]
  {
  }

  lemma {:induction false} ProcessedSplit(process: seq<Row> -> seq<seq<Row>>, stream: seq<seq<Row>>, i: nat)
    requires i <= |stream|
    ensures TopK.Processed(process, stream) == TopK.Processed(process, stream[..i]) + TopK.Processed(process, stream[i..])
  {
    if i == 0 {
      assert stream[0..] == stream && stream[..0] == [];
    } else {
      ProcessedSplit(process, stream[1..], i - 1);
      assert stream[..i][1..] == stream[1..][..i - 1] && stream[1..][i - 1..] == stream[i..];
      Reassociate(if stream[0] == [] then [] else Flatten(process(stream[0])),
                  TopK.Processed(process, stream[1..][..i - 1]), TopK.Processed(process, stream[i..]));
    }
  }

  /** The inner loop: the batches one input batch becomes, until the limit is reached. */
  method CollectFrom(processed: seq<seq<Row>>, n: nat, result: seq<seq<Row>>, collected: nat, ghost read: seq<Row>)
    returns (result': seq<seq<Row>>, collected': nat)
    requires collected == |Flatten(result)| <= n && Flatten(result) == Slice(read, 0, n)
    ensures collected' == |Flatten(result')| <= n && Flatten(result') == Slice(read + Flatten(processed), 0, n)
  {
    result', collected' := result, collected;
    assert read + Flatten(processed[..0]) == read;
    for j := 0 to |processed|
      invariant collected' == |Flatten(result')| <= n
      invariant Flatten(result') == Slice(read + Flatten(processed[..j]), 0, n)
    {
      var b := processed[j];
      FlattenNext(processed, j);
      Reassociate(read, Flatten(processed[..j]), b);
      FirstRows(read + Flatten(processed[..j]), b, n);
      if b != [] {
        var remaining := n - collected';
        if |b| <= remaining {
          FlattenOne(result', b);
          result', collected' := result' + [b], collected' + |b|;
        } else {
          FlattenSplit(processed, j + 1);
          Reassociate(read, Flatten(processed[..j + 1]), Flatten(processed[j + 1..]));
          FirstRows(read + Flatten(processed[..j + 1]), Flatten(processed[j + 1..]), n);
          FlattenOne(result', b[..remaining]);
          result', collected' := result' + [b[..remaining]], n;
          return;
        }
      }
    }
    assert processed[..|processed|] == processed;
  }

  /** Collecting the limit from the stream gives the rows the executor gives for the whole pipeline. */
  lemma LimitThroughSpill(rt: Runtime, names: seq<string>, batches: seq<seq<Row>>, ops: seq<ViewOp>, n: nat)
    requires AllStateless(ops) && Applies(rt, names, ops) && batches != []
    ensures var whole := Run(rt, Frame(names, batches), ops + [Limit(n)]);
            whole.Ok? && Flatten(whole.frame.batches) == Slice(TopK.Processed(OnBatchRows(rt, names, ops), batches), 0, n)
  {
    StreamIsPipeline(rt, names, batches, ops);
    RunAppend(rt, Frame(names, batches), ops, [Limit(n)]);
    var mid := Run(rt, Frame(names, batches), ops).frame;
    StatelessPerBatch(rt, names, batches, ops);
    LimitAlone(rt, mid, n);
    FlattenOne([], Slice(Flatten(mid.batches), 0, n));
  }

  lemma LimitAlone(rt: Runtime, f: Frame, n: nat)
    requires f.batches != []
    ensures Run(rt, f, [Limit(n)]) == Ok(Combined(f, Slice(Flatten(f.batches), 0, n)))
  {
    assert [Limit(n)][1..] == [];
  }
}
