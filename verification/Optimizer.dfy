/** The five passes of crates/tv-core/src/optimizer.rs and the proof that
    optimising a list of operations does not change what the executor computes. */
module Optimizer {
  import opened Seqs
  import opened TextOrder
  import opened Exprs
  import opened Executor
  import opened Relevance
  import opened ColumnPruning
  import opened Meaning

  const TOP_K_THRESHOLD: nat := 10_000
  const SORT_PHASE: nat := 8
  const LIMIT_PHASE: nat := 9

  // ---- pass 1: predicate push-down

  predicate ReferencesAny(p: Predicate, columns: set<string>) {
    exists c :: c in PredColumns(p) && c in columns
  }

  /** The filters that may run before an operation writing `columns`, and those held back. */
  function Passing(pending: seq<ViewOp>, columns: set<string>): seq<ViewOp> {
    if pending == [] then []
    else (if pending[0].Filter? && ReferencesAny(pending[0].pred, columns) then [] else [pending[0]]) + Passing(pending[1..], columns)
  }

  function HeldBack(pending: seq<ViewOp>, columns: set<string>): seq<ViewOp> {
    if pending == [] then []
    else (if pending[0].Filter? && ReferencesAny(pending[0].pred, columns) then [pending[0]] else []) + HeldBack(pending[1..], columns)
  }

  /** The names a Rename or Derive introduces. */
  function Written(op: ViewOp): set<string> {
    match op
    case Rename(mappings) => set m | m in mappings :: m.1
    case Derive(name, _) => {name}
    case _ => {}
  }

  /** What one operation sends to the output, and which filters it leaves pending. */
  function Emitted(op: ViewOp, pending: seq<ViewOp>): seq<ViewOp> {
    if op.Filter? then []
    else if op.Rename? || op.Derive? then Passing(pending, Written(op)) + [op]
    else pending + [op]
  }

  function LeftPending(op: ViewOp, pending: seq<ViewOp>): seq<ViewOp> {
    if op.Filter? then pending + [op]
    else if op.Rename? || op.Derive? then HeldBack(pending, Written(op))
    else []
  }

  /** The operations after push-down, with `pending` filters still to be emitted. */
  function Pushdown(ops: seq<ViewOp>, pending: seq<ViewOp>): seq<ViewOp> {
    if ops == [] then pending
    else Emitted(ops[0], pending) + Pushdown(ops[1..], LeftPending(ops[0], pending))
  }

  method Pass1PredicatePushdown(ops: seq<ViewOp>) returns (result: seq<ViewOp>)
    ensures result == Pushdown(ops, [])
  {
    result := [];
    var pending: seq<ViewOp> := [];
    for i := 0 to |ops|
      invariant result + Pushdown(ops[i..], pending) == Pushdown(ops, [])
    {
      var op := ops[i];
      PushdownNext(ops, i, result, pending);
      if op.Filter? {
        pending := pending + [op];
      } else if op.Rename? || op.Derive? {
        var columns := Written(op);
        result := result + (Passing(pending, columns) + [op]);
        pending := HeldBack(pending, columns);
      } else {
        result := result + (pending + [op]);
        pending := [];
      }
    }
    result := result + pending;
  }

  lemma PushdownNext(ops: seq<ViewOp>, i: nat, result: seq<ViewOp>, pending: seq<ViewOp>)
    requires i < |ops|
    ensures result + Pushdown(ops[i..], pending) ==
            result + Emitted(ops[i], pending) + Pushdown(ops[i + 1..], LeftPending(ops[i], pending))
    ensures ops[i].Filter? ==> result + Emitted(ops[i], pending) == result
  {
    assert ops[i..][0] == ops[i] && ops[i..][1..] == ops[i + 1..];
    var a, b := Emitted(ops[i], pending), Pushdown(ops[i + 1..], LeftPending(ops[i], pending));
    assert Pushdown(ops[i..], pending) == a + b;
    Reassociate(result, a, b);
    assert ops[i].Filter? ==> a == [] && result + [] == result;
  }

  /** `out` holds the operations of `ops` and the `pending` filters, all but the filters in written order. */
  ghost predicate Rearranged(out: seq<ViewOp>, pending: seq<ViewOp>, ops: seq<ViewOp>) {
    && SameButFilters(out, ops)
    && multiset(InPhase(out, FILTER_PHASE)) == multiset(pending) + multiset(InPhase(ops, FILTER_PHASE))
  }

  /** Push-down keeps every other operation in its written order and only rearranges the filters. */
  lemma {:induction false} PushdownRearrangesFilters(ops: seq<ViewOp>, pending: seq<ViewOp>)
    requires AllFilters(pending)
    ensures Rearranged(Pushdown(ops, pending), pending, ops)
  {
    if ops == [] {
      AppendFilters([], pending);
      assert [] + pending == pending;
    } else {
      var op, rest := ops[0], ops[1..];
      var left := LeftPending(op, pending);
      assert ops == [op] + rest;
      if op.Filter? {
        PushdownRearrangesFilters(rest, left);
        assert Pushdown(ops, pending) == Pushdown(rest, left);
      } else {
        var pass := if op.Rename? || op.Derive? then Passing(pending, Written(op)) else pending;
        PartitionFilters(pending, Written(op));
        PartitionKeeps(pending, Written(op));
        PushdownRearrangesFilters(rest, left);
        RearrangedOther(Pushdown(rest, left), pass, left, pending, op, rest);
        assert Pushdown(ops, pending) == pass + [op] + Pushdown(rest, left);
      }
    }
  }

  lemma RearrangedOther(tail: seq<ViewOp>, pass: seq<ViewOp>, hold: seq<ViewOp>, pending: seq<ViewOp>, op: ViewOp, rest: seq<ViewOp>)
    requires !op.Filter? && AllFilters(pass) && multiset(pass) + multiset(hold) == multiset(pending)
    requires Rearranged(tail, hold, rest)
    ensures Rearranged(pass + [op] + tail, pending, [op] + rest)
  {
    PrependFiltersAndOther(pass, op, tail);
    assert ([op] + rest)[1..] == rest;
  }

  lemma PrependFiltersAndOther(fs: seq<ViewOp>, op: ViewOp, rest: seq<ViewOp>)
    requires AllFilters(fs) && !op.Filter?
    ensures forall phase: nat :: phase < PHASES && phase != FILTER_PHASE ==>
              InPhase(fs + [op] + rest, phase) == if PhaseOf(op) == phase then [op] + InPhase(rest, phase) else InPhase(rest, phase)
    ensures InPhase(fs + [op] + rest, FILTER_PHASE) == fs + InPhase(rest, FILTER_PHASE)
  {
    assert fs + [op] + rest == fs + ([op] + rest);
    forall phase: nat | phase < PHASES
      ensures InPhase(fs + [op] + rest, phase) ==
              (if phase == FILTER_PHASE then fs else []) + if PhaseOf(op) == phase then [op] + InPhase(rest, phase) else InPhase(rest, phase)
    {
      InPhaseAppend(fs, [op] + rest, phase);
      FiltersInPhase(fs, phase);
      assert ([op] + rest)[1..] == rest;
    }
  }

  lemma {:induction false} PartitionFilters(pending: seq<ViewOp>, columns: set<string>)
    requires AllFilters(pending)
    ensures AllFilters(Passing(pending, columns)) && AllFilters(HeldBack(pending, columns))
  {
    if pending != [] {
      PartitionFilters(pending[1..], columns);
    }
  }

  lemma {:induction false} PartitionKeeps(pending: seq<ViewOp>, columns: set<string>)
    requires AllFilters(pending)
    ensures multiset(Passing(pending, columns)) + multiset(HeldBack(pending, columns)) == multiset(pending)
  {
    if pending != [] {
      PartitionKeeps(pending[1..], columns);
      var passing, held := Passing(pending[1..], columns), HeldBack(pending[1..], columns);
      assert [] + passing == passing && [] + held == held;
      HeadJoins(pending, passing, held, Passing(pending, columns), HeldBack(pending, columns));
    }
  }

  /** The head goes to either side of a split of the tail. */
  lemma HeadJoins(s: seq<ViewOp>, a: seq<ViewOp>, b: seq<ViewOp>, a': seq<ViewOp>, b': seq<ViewOp>)
    requires s != [] && multiset(a) + multiset(b) == multiset(s[1..])
    requires (a' == [s[0]] + a && b' == b) || (a' == a && b' == [s[0]] + b)
    ensures multiset(a') + multiset(b') == multiset(s)
  {
    assert s == [s[0]] + s[1..];
  }

  lemma {:induction false} FiltersInPhase(fs: seq<ViewOp>, phase: nat)
    requires AllFilters(fs)
    ensures InPhase(fs, phase) == if phase == FILTER_PHASE then fs else []
  {
    if fs != [] {
      FiltersInPhase(fs[1..], phase);
    }
  }

  lemma AppendFilters(ops: seq<ViewOp>, fs: seq<ViewOp>)
    requires AllFilters(fs)
    ensures SameButFilters(ops + fs, ops)
    ensures InPhase(ops + fs, FILTER_PHASE) == InPhase(ops, FILTER_PHASE) + fs
  {
    forall phase: nat | phase < PHASES
      ensures InPhase(ops + fs, phase) == InPhase(ops, phase) + if phase == FILTER_PHASE then fs else []
    {
      InPhaseAppend(ops, fs, phase);
      FiltersInPhase(fs, phase);
    }
  }

  // ---- pass 2: column pruning

  function Pass2ColumnPruning(ops: seq<ViewOp>): seq<ViewOp> {
    if (exists op :: op in ops && op.Select?) || !(exists op :: op in ops && op.GroupBy?) || Referenced(ops) == {} then ops
    else [Select(SortedNames(Referenced(ops)))] + ops
  }

  // ---- pass 3: sort and limit fusion

  /** The position of the first Sort, and of the first Limit; the length when there is none. */
  function FirstSort(ops: seq<ViewOp>): (i: nat)
    ensures i <= |ops| && (i < |ops| ==> ops[i].Sort?) && forall j :: 0 <= j < i ==> !ops[j].Sort?
  {
    if ops == [] || ops[0].Sort? then 0 else 1 + FirstSort(ops[1..])
  }

  function FirstLimit(ops: seq<ViewOp>): (i: nat)
    ensures i <= |ops| && (i < |ops| ==> ops[i].Limit?) && forall j :: 0 <= j < i ==> !ops[j].Limit?
  {
    if ops == [] || ops[0].Limit? then 0 else 1 + FirstLimit(ops[1..])
  }

  function RemoveAt(ops: seq<ViewOp>, i: nat): seq<ViewOp>
    requires i < |ops|
  {
    ops[..i] + ops[i + 1..]
  }

  predicate Fuses(ops: seq<ViewOp>) {
    FirstSort(ops) < |ops| && FirstLimit(ops) < |ops| && ops[FirstLimit(ops)].n <= TOP_K_THRESHOLD
  }

  function Pass3SortLimitFusion(ops: seq<ViewOp>): seq<ViewOp> {
    if Fuses(ops) then
      var si, li := FirstSort(ops), FirstLimit(ops);
      var rest := if si < li then RemoveAt(RemoveAt(ops, li), si) else RemoveAt(RemoveAt(ops, si), li);
      rest + [TopK(ops[li].n, ops[si].keys)]
    else ops
  }

  // ---- pass 4: constant folding

  /** `is_always_true` and `is_always_false`: an equality with that bool literal. */
  predicate IsConstant(p: Predicate, b: bool) {
    p.Compare? && p.op == Eq && p.value == BoolLit(b)
  }

  function FoldPredicate(p: Predicate): Predicate
    decreases p
  {
    match p
    case And(exprs) => var folded := FoldList(exprs, true); if |folded| == 1 then folded[0] else And(folded)
    case Or(exprs) => var folded := FoldList(exprs, false); if |folded| == 1 then folded[0] else Or(folded)
    case Not(expr) => Not(FoldPredicate(expr))
    case _ => p
  }

  /** The folded members, without those taken for the constant `unit`. */
  function FoldList(ps: seq<Predicate>, unit: bool): seq<Predicate>
    decreases ps
  {
    if ps == [] then []
    else
      var head := FoldPredicate(ps[0]);
      if IsConstant(head, unit) then FoldList(ps[1..], unit) else [head] + FoldList(ps[1..], unit)
  }

  function FoldOp(op: ViewOp): seq<ViewOp> {
    if op.Filter? then
      var p := FoldPredicate(op.pred);
      if p == And([]) then [] else [Filter(p)]
    else [op]
  }

  // ---- pass 5: selectivity ordering

  function InsertByScore(score: Predicate -> real, p: Predicate, sorted: seq<Predicate>): seq<Predicate> {
    if sorted == [] || score(p) <= score(sorted[0]) then [p] + sorted else [sorted[0]] + InsertByScore(score, p, sorted[1..])
  }

  /** A stable ascending sort by estimated selectivity. */
  function SortByScore(score: Predicate -> real, ps: seq<Predicate>): seq<Predicate> {
    if ps == [] then [] else InsertByScore(score, ps[0], SortByScore(score, ps[1..]))
  }

  function ReorderOp(score: Predicate -> real, op: ViewOp): seq<ViewOp> {
    if op.Filter? && op.pred.And? then [Filter(And(SortByScore(score, op.pred.exprs)))] else [op]
  }

  // ---- the whole optimiser

  function Rewrite(ops: seq<ViewOp>, g: ViewOp -> seq<ViewOp>): seq<ViewOp> {
    if ops == [] then [] else g(ops[0]) + Rewrite(ops[1..], g)
  }

  function Pass4ConstantFolding(ops: seq<ViewOp>): seq<ViewOp> {
    Rewrite(ops, op => FoldOp(op))
  }

  /** `score` is absent when there are no column statistics. */
  function Pass5SelectivityOrdering(ops: seq<ViewOp>, score: Option<Predicate -> real>): seq<ViewOp> {
    match score
    case None => ops
    case Some(s) => Rewrite(ops, op => ReorderOp(s, op))
  }

  function Optimize(ops: seq<ViewOp>, score: Option<Predicate -> real>): seq<ViewOp> {
    Pass5SelectivityOrdering(
      Pass4ConstantFolding(
        Pass3SortLimitFusion(
          Pass2ColumnPruning(
            Pushdown(ops, [])))), score)
  }

  // ---- passes 4 and 5 rewrite filters into filters accepting the same rows

  /** `outs` may stand for `op`: the same operation, or filters accepting the same rows. */
  ghost predicate Stands(rt: Runtime, op: ViewOp, outs: seq<ViewOp>) {
    if op.Filter? then AllFilters(outs) && SameAcceptance(rt, [op], outs) else outs == [op]
  }

  lemma AcceptanceAppend(rt: Runtime, a: seq<ViewOp>, a': seq<ViewOp>, b: seq<ViewOp>, b': seq<ViewOp>)
    requires SameAcceptance(rt, a, a') && SameAcceptance(rt, b, b')
    ensures SameAcceptance(rt, a + b, a' + b')
  {
    forall names: seq<string>
      ensures AllOk(rt, names, a + b) <==> AllOk(rt, names, a' + b')
    {
      AcceptSplit(rt, names, [], a, b);
      AcceptSplit(rt, names, [], a', b');
      assert AllOk(rt, names, a) <==> AllOk(rt, names, a');
    }
    forall names: seq<string>, row: Row
      ensures KeepsAll(rt, names, row, a + b) <==> KeepsAll(rt, names, row, a' + b')
    {
      AcceptSplit(rt, names, row, a, b);
      AcceptSplit(rt, names, row, a', b');
      assert KeepsAll(rt, names, row, a) <==> KeepsAll(rt, names, row, a');
    }
  }

  lemma AcceptSplit(rt: Runtime, names: seq<string>, row: Row, a: seq<ViewOp>, b: seq<ViewOp>)
    ensures AllOk(rt, names, a + b) <==> AllOk(rt, names, a) && AllOk(rt, names, b)
    ensures KeepsAll(rt, names, row, a + b) <==> KeepsAll(rt, names, row, a) && KeepsAll(rt, names, row, b)
  {
  }

  lemma {:induction false} RewriteKeepsMeaning(rt: Runtime, ops: seq<ViewOp>, g: ViewOp -> seq<ViewOp>)
    requires forall op :: op in ops ==> Stands(rt, op, g(op))
    ensures SameButFilters(Rewrite(ops, g), ops)
    ensures SameAcceptance(rt, InPhase(ops, FILTER_PHASE), InPhase(Rewrite(ops, g), FILTER_PHASE))
  {
    if ops != [] {
      var op, rest := ops[0], Rewrite(ops[1..], g);
      RewriteKeepsMeaning(rt, ops[1..], g);
      assert Stands(rt, op, g(op));
      forall phase: nat | phase < PHASES
        ensures InPhase(g(op) + rest, phase) ==
                (if op.Filter? then (if phase == FILTER_PHASE then g(op) else [])
                 else if PhaseOf(op) == phase then [op] else []) + InPhase(rest, phase)
      {
        InPhaseAppend(g(op), rest, phase);
        if op.Filter? {
          FiltersInPhase(g(op), phase);
        } else {
          assert [op][1..] == [];
        }
      }
      if op.Filter? {
        AcceptanceAppend(rt, [op], g(op), InPhase(ops[1..], FILTER_PHASE), InPhase(rest, FILTER_PHASE));
      }
    }
  }

  /** The guard of folding: no member of any And or Or folds to the bool-literal equality it drops. */
  predicate FoldDropsNothing(p: Predicate)
    decreases p
  {
    match p
    case And(exprs) => FoldListDropsNothing(exprs, true)
    case Or(exprs) => FoldListDropsNothing(exprs, false)
    case Not(expr) => FoldDropsNothing(expr)
    case _ => true
  }

  predicate FoldListDropsNothing(ps: seq<Predicate>, unit: bool)
    decreases ps
  {
    ps == [] || (FoldDropsNothing(ps[0]) && !IsConstant(FoldPredicate(ps[0]), unit) && FoldListDropsNothing(ps[1..], unit))
  }

  /** Folding that drops nothing keeps the three-valued truth of a predicate on every row, and its errors. */
  lemma {:induction false} FoldKeepsTruth(rt: Runtime, names: seq<string>, row: Row, p: Predicate)
    requires FoldDropsNothing(p)
    ensures EvalPred(rt, names, row, FoldPredicate(p)) == EvalPred(rt, names, row, p)
    ensures PredOk(rt, names, FoldPredicate(p)) == PredOk(rt, names, p)
    decreases p
  {
    match p
    case And(exprs) =>
      FoldListKeepsTruth(rt, names, row, exprs, true);
    case Or(exprs) =>
      FoldListKeepsTruth(rt, names, row, exprs, false);
    case Not(expr) => FoldKeepsTruth(rt, names, row, expr);
    case _ =>
  }

  lemma {:induction false} FoldListKeepsTruth(rt: Runtime, names: seq<string>, row: Row, ps: seq<Predicate>, unit: bool)
    requires FoldListDropsNothing(ps, unit)
    ensures EvalAll(rt, names, row, FoldList(ps, unit)) == EvalAll(rt, names, row, ps)
    ensures EvalAny(rt, names, row, FoldList(ps, unit)) == EvalAny(rt, names, row, ps)
    ensures PredsOk(rt, names, FoldList(ps, unit)) == PredsOk(rt, names, ps)
    decreases ps
  {
    if ps != [] {
      FoldKeepsTruth(rt, names, row, ps[0]);
      FoldListKeepsTruth(rt, names, row, ps[1..], unit);
      var head, tail := FoldPredicate(ps[0]), FoldList(ps[1..], unit);
      assert ([head] + tail)[0] == head && ([head] + tail)[1..] == tail;
    }
  }

  lemma FoldStands(rt: Runtime, op: ViewOp)
    requires op.Filter? ==> FoldDropsNothing(op.pred)
    ensures Stands(rt, op, FoldOp(op))
  {
    if op.Filter? {
      forall names: seq<string>, row: Row
        ensures EvalPred(rt, names, row, FoldPredicate(op.pred)) == EvalPred(rt, names, row, op.pred)
        ensures PredOk(rt, names, FoldPredicate(op.pred)) == PredOk(rt, names, op.pred)
      {
        FoldKeepsTruth(rt, names, row, op.pred);
      }
      forall names: seq<string>
        ensures PredOk(rt, names, FoldPredicate(op.pred)) == PredOk(rt, names, op.pred)
      {
        FoldKeepsTruth(rt, names, [], op.pred);
      }
    }
  }

  lemma {:induction false} InsertKeepsTruth(rt: Runtime, names: seq<string>, row: Row, score: Predicate -> real, p: Predicate, sorted: seq<Predicate>)
    ensures EvalAll(rt, names, row, InsertByScore(score, p, sorted)) == NullAnd(EvalPred(rt, names, row, p), EvalAll(rt, names, row, sorted))
    ensures PredsOk(rt, names, InsertByScore(score, p, sorted)) == (PredOk(rt, names, p) && PredsOk(rt, names, sorted))
  {
    if sorted == [] || score(p) <= score(sorted[0]) {
      assert ([p] + sorted)[1..] == sorted;
    } else {
      InsertKeepsTruth(rt, names, row, score, p, sorted[1..]);
      var tail := InsertByScore(score, p, sorted[1..]);
      assert ([sorted[0]] + tail)[1..] == tail;
    }
  }

  /** Null-strict conjunction does not depend on the order of the conjuncts. */
  lemma {:induction false} ReorderingKeepsTruth(rt: Runtime, names: seq<string>, row: Row, score: Predicate -> real, ps: seq<Predicate>)
    ensures EvalAll(rt, names, row, SortByScore(score, ps)) == EvalAll(rt, names, row, ps)
    ensures PredsOk(rt, names, SortByScore(score, ps)) == PredsOk(rt, names, ps)
  {
    if ps != [] {
      ReorderingKeepsTruth(rt, names, row, score, ps[1..]);
      InsertKeepsTruth(rt, names, row, score, ps[0], SortByScore(score, ps[1..]));
    }
  }

  lemma ReorderStands(rt: Runtime, score: Predicate -> real, op: ViewOp)
    ensures Stands(rt, op, ReorderOp(score, op))
  {
    if op.Filter? && op.pred.And? {
      forall names: seq<string>, row: Row
        ensures EvalPred(rt, names, row, And(SortByScore(score, op.pred.exprs))) == EvalPred(rt, names, row, op.pred)
      {
        ReorderingKeepsTruth(rt, names, row, score, op.pred.exprs);
      }
      forall names: seq<string>
        ensures PredOk(rt, names, And(SortByScore(score, op.pred.exprs))) == PredOk(rt, names, op.pred)
      {
        ReorderingKeepsTruth(rt, names, [], score, op.pred.exprs);
      }
    }
  }
}
