/** Passes 2 and 3 keep the meaning of a pipeline under the conditions their own
    branches leave unchecked, and so does the optimiser as a whole. */
module OptimizerSoundness {
  import opened Seqs
  import opened TextOrder
  import opened Exprs
  import opened Executor
  import opened Relevance
  import opened ColumnPruning
  import opened Meaning
  import opened Optimizer

  // ---- pass 2

  const GROUP_PHASE: nat := 6

  lemma {:induction false} ApproximateIsIdentity(rt: Runtime, f: Frame, ops: seq<ViewOp>)
    requires forall i :: 0 <= i < |ops| ==> ops[i].Approximate?
    ensures Run(rt, f, ops) == Ok(f)
    decreases |ops|
  {
    if ops != [] && f.batches != [] {
      ApproximateIsIdentity(rt, f, ops[1..]);
    }
  }

  lemma {:induction false} RunKeepsAgreement(rt: Runtime, cols: set<string>, f: Frame, g: Frame, ops: seq<ViewOp>)
    requires Agree(cols, f, g)
    requires forall i :: 0 <= i < |ops| ==> AheadOfGroupBy(ops[i]) && OpColumns(ops[i]) <= cols
    ensures AgreeOutcomes(cols, Run(rt, f, ops), Run(rt, g, ops))
    decreases |ops|
  {
    if ops != [] && f.batches != [] {
      OpKeepsAgreement(rt, cols, f, g, ops[0]);
      var a, b := ApplyOp(rt, f, ops[0]), ApplyOp(rt, g, ops[0]);
      if a.Ok? {
        RunKeepsAgreement(rt, cols, a.frame, b.frame, ops[1..]);
      }
    }
  }

  /** From agreeing tables, a run that reaches a group-by ends in the same table or fails on both. */
  lemma RunThroughGroupBy(rt: Runtime, cols: set<string>, f: Frame, g: Frame, ahead: seq<ViewOp>, group: ViewOp, rest: seq<ViewOp>)
    requires Agree(cols, f, g) && f.batches != []
    requires forall i :: 0 <= i < |ahead| ==> AheadOfGroupBy(ahead[i]) && OpColumns(ahead[i]) <= cols
    requires group.GroupBy? && OpColumns(group) <= cols
    ensures Run(rt, f, ahead + ([group] + rest)) == Run(rt, g, ahead + ([group] + rest))
  {
    RunAppend(rt, f, ahead, [group] + rest);
    RunAppend(rt, g, ahead, [group] + rest);
    RunKeepsAgreement(rt, cols, f, g, ahead);
    RunKeepsBatches(rt, f, ahead);
    var a, b := Run(rt, f, ahead), Run(rt, g, ahead);
    if a.Ok? {
      GroupByErasesTheRest(rt, cols, a.frame, b.frame, group.groupKeys, group.aggs);
      assert ([group] + rest)[0] == group && ([group] + rest)[1..] == rest;
    }
  }

  lemma {:induction false} RunKeepsBatches(rt: Runtime, f: Frame, ops: seq<ViewOp>)
    requires f.batches != []
    ensures Run(rt, f, ops).Ok? ==> Run(rt, f, ops).frame.batches != []
    decreases |ops|
  {
    if ops != [] {
      var next := ApplyOp(rt, f, ops[0]);
      if next.Ok? {
        RunKeepsBatches(rt, next.frame, ops[1..]);
      }
    }
  }

  lemma {:induction false} PhaseMembers(ops: seq<ViewOp>, phase: nat, op: ViewOp)
    ensures op in InPhase(ops, phase) <==> op in ops && PhaseOf(op) == phase
  {
    if ops != [] {
      PhaseMembers(ops[1..], phase, op);
    }
  }

  /** The condition pass 2 does not check: every deduplication names its columns. */
  ghost predicate DeduplicatesByColumn(ops: seq<ViewOp>) {
    forall op :: op in ops && op.Deduplicate? ==> op.keyColumns.Some?
  }

  /** The phases `from`, ..., `upto - 1` of a normalised pipeline. */
  function Between(ops: seq<ViewOp>, from: nat, upto: nat): seq<ViewOp>
    requires from <= upto <= PHASES
    decreases PHASES - from
  {
    if from == upto then [] else InPhase(ops, from) + Between(ops, from + 1, upto)
  }

  lemma {:induction false} BetweenThenRest(ops: seq<ViewOp>, from: nat, upto: nat)
    requires from <= upto <= PHASES
    ensures PhasesFrom(ops, from) == Between(ops, from, upto) + PhasesFrom(ops, upto)
    decreases PHASES - from
  {
    if from < upto {
      BetweenThenRest(ops, from + 1, upto);
      Reassociate(InPhase(ops, from), Between(ops, from + 1, upto), PhasesFrom(ops, upto));
    }
  }

  lemma {:induction false} BetweenMembers(ops: seq<ViewOp>, from: nat, upto: nat, op: ViewOp)
    requires from <= upto <= PHASES && op in Between(ops, from, upto)
    ensures op in ops && from <= PhaseOf(op) < upto
    decreases PHASES - from
  {
    if op in InPhase(ops, from) {
      PhaseMembers(ops, from, op);
    } else {
      BetweenMembers(ops, from + 1, upto, op);
    }
  }

  lemma {:induction false} SameBetween(a: seq<ViewOp>, b: seq<ViewOp>, from: nat, upto: nat)
    requires from <= upto <= PHASES && forall phase: nat :: from <= phase < upto ==> InPhase(a, phase) == InPhase(b, phase)
    ensures Between(a, from, upto) == Between(b, from, upto)
    decreases PHASES - from
  {
    if from < upto {
      SameBetween(a, b, from + 1, upto);
    }
  }

  lemma AheadOfFirstGroupBy(ops: seq<ViewOp>)
    requires DeduplicatesByColumn(ops)
    ensures var ahead := Between(ops, 2, GROUP_PHASE);
            forall i :: 0 <= i < |ahead| ==> AheadOfGroupBy(ahead[i]) && OpColumns(ahead[i]) <= Referenced(ops)
  {
    var ahead := Between(ops, 2, GROUP_PHASE);
    forall i | 0 <= i < |ahead|
      ensures AheadOfGroupBy(ahead[i]) && OpColumns(ahead[i]) <= Referenced(ops)
    {
      BetweenMembers(ops, 2, GROUP_PHASE, ahead[i]);
      ReferencedCovers(ops, ahead[i]);
    }
  }

  lemma FirstGroupBy(ops: seq<ViewOp>)
    requires InPhase(ops, GROUP_PHASE) != []
    ensures var groups := InPhase(ops, GROUP_PHASE);
            && PhasesFrom(ops, 2) == Between(ops, 2, GROUP_PHASE) + ([groups[0]] + (groups[1..] + PhasesFrom(ops, 7)))
            && groups[0].GroupBy? && OpColumns(groups[0]) <= Referenced(ops)
  {
    var groups := InPhase(ops, GROUP_PHASE);
    assert groups[0] in groups;
    PhaseMembers(ops, GROUP_PHASE, groups[0]);
    ReferencedCovers(ops, groups[0]);
    BetweenThenRest(ops, 2, GROUP_PHASE);
    assert PhasesFrom(ops, GROUP_PHASE) == groups + PhasesFrom(ops, 7);
    HeadFirst(groups, PhasesFrom(ops, 7));
  }

  lemma HeadFirst<T>(a: seq<T>, b: seq<T>)
    requires a != []
    ensures a + b == [a[0]] + (a[1..] + b)
  {
  }

  lemma SelectFirst(ops: seq<ViewOp>, select: ViewOp)
    requires select.Select? && InPhase(ops, 1) == []
    ensures Normalize([select] + ops) == InPhase(ops, 0) + ([select] + PhasesFrom(ops, 2))
    ensures Normalize(ops) == InPhase(ops, 0) + PhasesFrom(ops, 2)
    ensures forall i :: 0 <= i < |InPhase(ops, 0)| ==> InPhase(ops, 0)[i].Approximate?
  {
    assert ([select] + ops)[1..] == ops;
    forall phase: nat | 2 <= phase < PHASES
      ensures InPhase([select] + ops, phase) == InPhase(ops, phase)
    {
    }
    SameBucketsSameOrder([select] + ops, ops, 2);
    assert PhasesFrom([select] + ops, 1) == [select] + PhasesFrom(ops, 2);
    assert PhasesFrom(ops, 1) == PhasesFrom(ops, 2);
    var zero := InPhase(ops, 0);
    forall i | 0 <= i < |zero|
      ensures zero[i].Approximate?
    {
      assert zero[i] in zero;
      PhaseMembers(ops, 0, zero[i]);
    }
  }

  lemma NoSuchPhase(ops: seq<ViewOp>, phase: nat)
    requires forall op :: op in ops ==> PhaseOf(op) != phase
    ensures InPhase(ops, phase) == []
  {
    if InPhase(ops, phase) != [] {
      PhaseMembers(ops, phase, InPhase(ops, phase)[0]);
    }
  }

  /** Selecting the referenced columns first changes nothing once a group-by follows and no
      deduplication looks at whole rows. */
  lemma PruningKeepsMeaning(rt: Runtime, f: Frame, ops: seq<ViewOp>)
    requires WellFormed(f) && DeduplicatesByColumn(ops)
    ensures Exec(rt, f, Pass2ColumnPruning(ops)) == Exec(rt, f, ops)
  {
    if Pass2ColumnPruning(ops) != ops && f.batches != [] {
      var group :| group in ops && group.GroupBy?;
      PhaseMembers(ops, GROUP_PHASE, group);
      SelectedRunsAlike(rt, f, ops, Select(SortedNames(Referenced(ops))));
    }
  }

  lemma SelectedRunsAlike(rt: Runtime, f: Frame, ops: seq<ViewOp>, select: ViewOp)
    requires WellFormed(f) && DeduplicatesByColumn(ops) && f.batches != []
    requires InPhase(ops, GROUP_PHASE) != [] && forall op :: op in ops ==> !op.Select?
    requires select.Select? && Elements(select.columns) == Referenced(ops)
    ensures Exec(rt, f, [select] + ops) == Exec(rt, f, ops)
  {
    var tail := PhasesFrom(ops, 2);
    NoSuchPhase(ops, 1);
    SelectFirst(ops, select);
    ApproximateIsIdentity(rt, f, InPhase(ops, 0));
    RunAppend(rt, f, InPhase(ops, 0), [select] + tail);
    RunAppend(rt, f, InPhase(ops, 0), tail);
    SelectedTail(rt, f, ops, select);
  }

  lemma SelectedTail(rt: Runtime, f: Frame, ops: seq<ViewOp>, select: ViewOp)
    requires WellFormed(f) && DeduplicatesByColumn(ops) && f.batches != [] && InPhase(ops, GROUP_PHASE) != []
    requires select.Select? && Elements(select.columns) == Referenced(ops)
    ensures Run(rt, f, [select] + PhasesFrom(ops, 2)) == Run(rt, f, PhasesFrom(ops, 2))
  {
    var tail, groups := PhasesFrom(ops, 2), InPhase(ops, GROUP_PHASE);
    assert ([select] + tail)[1..] == tail;
    SelectAgrees(rt, Referenced(ops), f, select.columns);
    AheadOfFirstGroupBy(ops);
    FirstGroupBy(ops);
    RunThroughGroupBy(rt, Referenced(ops), f, ApplyOp(rt, f, select).frame, Between(ops, 2, GROUP_PHASE),
                      groups[0], groups[1..] + PhasesFrom(ops, 7));
  }

  // ---- pass 3

  /** The conditions pass 3 does not check: in the sort phase a Sort comes last only, and it has
      a key (a top-k without keys is empty) unless no row is wanted. */
  ghost predicate FusionSafe(ops: seq<ViewOp>) {
    var sorts, limits := InPhase(ops, SORT_PHASE), InPhase(ops, LIMIT_PHASE);
    forall i :: 0 <= i < |sorts| && sorts[i].Sort? && limits != [] && limits[0].Limit? && limits[0].n <= TOP_K_THRESHOLD ==>
      i == |sorts| - 1 && (sorts[i].keys != [] || limits[0].n == 0)
  }

  lemma {:induction false} InPhaseNone(ops: seq<ViewOp>, phase: nat)
    requires forall j :: 0 <= j < |ops| ==> PhaseOf(ops[j]) != phase
    ensures InPhase(ops, phase) == []
  {
    if ops != [] {
      InPhaseNone(ops[1..], phase);
    }
  }

  lemma InPhaseRemoved(ops: seq<ViewOp>, i: nat, phase: nat)
    requires i < |ops|
    ensures InPhase(RemoveAt(ops, i), phase) == InPhase(ops[..i], phase) + InPhase(ops[i + 1..], phase)
    ensures InPhase(ops, phase) ==
            InPhase(ops[..i], phase) + (if PhaseOf(ops[i]) == phase then [ops[i]] else []) + InPhase(ops[i + 1..], phase)
  {
    InPhaseAppend(ops[..i], ops[i + 1..], phase);
    assert ops == ops[..i] + ([ops[i]] + ops[i + 1..]);
    InPhaseAppend(ops[..i], [ops[i]] + ops[i + 1..], phase);
    InPhaseAppend([ops[i]], ops[i + 1..], phase);
    assert [ops[i]][1..] == [];
  }

  lemma RemoveOther(ops: seq<ViewOp>, i: nat, phase: nat)
    requires i < |ops| && PhaseOf(ops[i]) != phase
    ensures InPhase(RemoveAt(ops, i), phase) == InPhase(ops, phase)
  {
    InPhaseRemoved(ops, i, phase);
    assert InPhase(ops[..i], phase) + [] == InPhase(ops[..i], phase);
  }

  /** Removing the first Limit drops the head of the limit phase. */
  lemma RemoveFirstLimit(ops: seq<ViewOp>, i: nat)
    requires i < |ops| && ops[i].Limit? && forall j :: 0 <= j < i ==> !ops[j].Limit?
    ensures InPhase(ops, LIMIT_PHASE) == [ops[i]] + InPhase(RemoveAt(ops, i), LIMIT_PHASE)
  {
    InPhaseRemoved(ops, i, LIMIT_PHASE);
    InPhaseNone(ops[..i], LIMIT_PHASE);
  }

  /** Removing the last operation of the sort phase drops its last element. */
  lemma RemoveLastSort(ops: seq<ViewOp>, i: nat)
    requires i < |ops| && ops[i].Sort? && forall j :: i < j < |ops| ==> PhaseOf(ops[j]) != SORT_PHASE
    ensures InPhase(ops, SORT_PHASE) == InPhase(RemoveAt(ops, i), SORT_PHASE) + [ops[i]]
  {
    InPhaseRemoved(ops, i, SORT_PHASE);
    InPhaseNone(ops[i + 1..], SORT_PHASE);
  }

  /** The operations left after removing the fused pair, bucket by bucket. */
  ghost predicate PairRemoved(ops: seq<ViewOp>, rest: seq<ViewOp>, sort: ViewOp, limit: ViewOp) {
    && (forall phase: nat :: phase < SORT_PHASE ==> InPhase(rest, phase) == InPhase(ops, phase))
    && InPhase(ops, SORT_PHASE) == InPhase(rest, SORT_PHASE) + [sort]
    && InPhase(ops, LIMIT_PHASE) == [limit] + InPhase(rest, LIMIT_PHASE)
  }

  lemma RemoveLimitThenSort(ops: seq<ViewOp>, si: nat, li: nat)
    requires si < li < |ops| && ops[si].Sort? && ops[li].Limit?
    requires forall j :: 0 <= j < li ==> !ops[j].Limit?
    requires forall j :: si < j < |ops| ==> PhaseOf(ops[j]) != SORT_PHASE
    ensures PairRemoved(ops, RemoveAt(RemoveAt(ops, li), si), ops[si], ops[li])
  {
    var cut := RemoveAt(ops, li);
    RemoveFirstLimit(ops, li);
    RemoveOther(ops, li, SORT_PHASE);
    RemoveLastSort(cut, si);
    RemoveOther(cut, si, LIMIT_PHASE);
    forall phase: nat | phase < SORT_PHASE
      ensures InPhase(RemoveAt(cut, si), phase) == InPhase(ops, phase)
    {
      RemoveOther(ops, li, phase);
      RemoveOther(cut, si, phase);
    }
  }

  lemma RemoveSortThenLimit(ops: seq<ViewOp>, si: nat, li: nat)
    requires li < si < |ops| && ops[si].Sort? && ops[li].Limit?
    requires forall j :: 0 <= j < li ==> !ops[j].Limit?
    requires forall j :: si < j < |ops| ==> PhaseOf(ops[j]) != SORT_PHASE
    ensures PairRemoved(ops, RemoveAt(RemoveAt(ops, si), li), ops[si], ops[li])
  {
    var cut := RemoveAt(ops, si);
    RemoveLastSort(ops, si);
    RemoveOther(ops, si, LIMIT_PHASE);
    RemoveFirstLimit(cut, li);
    RemoveOther(cut, li, SORT_PHASE);
    forall phase: nat | phase < SORT_PHASE
      ensures InPhase(RemoveAt(cut, li), phase) == InPhase(ops, phase)
    {
      RemoveOther(ops, si, phase);
      RemoveOther(cut, li, phase);
    }
  }

  /** A sort followed by a limit is the top-k that replaces them, except for a positive limit without keys. */
  lemma SortThenLimitIsTopK(rt: Runtime, f: Frame, keys: seq<SortKey>, n: nat, rest: seq<ViewOp>)
    requires keys != [] || n == 0
    ensures Run(rt, f, [Sort(keys)] + ([Limit(n)] + rest)) == Run(rt, f, [TopK(n, keys)] + rest)
  {
    if f.batches != [] {
      var sorted := SortRows(rt, f.names, Flatten(f.batches), keys);
      assert ([Sort(keys)] + ([Limit(n)] + rest))[1..] == [Limit(n)] + rest;
      assert ([Limit(n)] + rest)[1..] == rest && ([TopK(n, keys)] + rest)[1..] == rest;
      FlattenOne([], sorted);
      assert Flatten([sorted]) == sorted;
    }
  }

  lemma EndsInLimits(ops: seq<ViewOp>)
    ensures Normalize(ops) == Between(ops, 0, SORT_PHASE) + (InPhase(ops, SORT_PHASE) + InPhase(ops, LIMIT_PHASE))
  {
    BetweenThenRest(ops, 0, SORT_PHASE);
    assert PhasesFrom(ops, LIMIT_PHASE) == InPhase(ops, LIMIT_PHASE) + PhasesFrom(ops, PHASES);
  }

  lemma BucketsWithTopK(rest: seq<ViewOp>, top: ViewOp, phase: nat)
    requires top.TopK?
    ensures InPhase(rest + [top], phase) == if phase == SORT_PHASE then InPhase(rest, phase) + [top] else InPhase(rest, phase)
  {
    InPhaseAppend(rest, [top], phase);
    assert [top][1..] == [];
  }

  /** The buckets after the top-k is appended. */
  lemma TopKAppended(rest: seq<ViewOp>, top: ViewOp)
    requires top.TopK?
    ensures Normalize(rest + [top]) == Between(rest, 0, SORT_PHASE) + (InPhase(rest, SORT_PHASE) + ([top] + InPhase(rest, LIMIT_PHASE)))
  {
    forall phase: nat {
      BucketsWithTopK(rest, top, phase);
    }
    EndsInLimits(rest + [top]);
    SameBetween(rest, rest + [top], 0, SORT_PHASE);
    Reassociate(InPhase(rest, SORT_PHASE), [top], InPhase(rest, LIMIT_PHASE));
  }

  /** The buckets before the pair is fused. */
  lemma PairInPlace(ops: seq<ViewOp>, rest: seq<ViewOp>, sort: ViewOp, limit: ViewOp)
    requires PairRemoved(ops, rest, sort, limit)
    ensures Normalize(ops) == Between(rest, 0, SORT_PHASE) + (InPhase(rest, SORT_PHASE) + ([sort] + ([limit] + InPhase(rest, LIMIT_PHASE))))
  {
    EndsInLimits(ops);
    SameBetween(ops, rest, 0, SORT_PHASE);
    Reassociate(InPhase(rest, SORT_PHASE), [sort], [limit] + InPhase(rest, LIMIT_PHASE));
  }

  /** Replacing the fused pair by the top-k at the end keeps the meaning. */
  lemma PairBecomesTopK(rt: Runtime, f: Frame, ops: seq<ViewOp>, rest: seq<ViewOp>, keys: seq<SortKey>, n: nat)
    requires PairRemoved(ops, rest, Sort(keys), Limit(n)) && (keys != [] || n == 0)
    ensures Exec(rt, f, rest + [TopK(n, keys)]) == Exec(rt, f, ops)
  {
    TopKAppended(rest, TopK(n, keys));
    PairInPlace(ops, rest, Sort(keys), Limit(n));
    SameTailSameRun(rt, f, Between(rest, 0, SORT_PHASE), InPhase(rest, SORT_PHASE), keys, n, InPhase(rest, LIMIT_PHASE));
  }

  lemma SameTailSameRun(rt: Runtime, f: Frame, head: seq<ViewOp>, sorts: seq<ViewOp>, keys: seq<SortKey>, n: nat, limits: seq<ViewOp>)
    requires keys != [] || n == 0
    ensures Run(rt, f, head + (sorts + ([TopK(n, keys)] + limits))) == Run(rt, f, head + (sorts + ([Sort(keys)] + ([Limit(n)] + limits))))
  {
    var a, b := [TopK(n, keys)] + limits, [Sort(keys)] + ([Limit(n)] + limits);
    RunAppend(rt, f, head, sorts + a);
    RunAppend(rt, f, head, sorts + b);
    var g := Run(rt, f, head);
    if g.Ok? {
      RunAppend(rt, g.frame, sorts, a);
      RunAppend(rt, g.frame, sorts, b);
      var mid := Run(rt, g.frame, sorts);
      if mid.Ok? {
        SortThenLimitIsTopK(rt, mid.frame, keys, n, limits);
      }
    }
  }

  lemma {:induction false} NoneInPhase(ops: seq<ViewOp>, phase: nat)
    requires InPhase(ops, phase) == []
    ensures forall j :: 0 <= j < |ops| ==> PhaseOf(ops[j]) != phase
  {
    if ops != [] {
      NoneInPhase(ops[1..], phase);
      forall j | 0 <= j < |ops|
        ensures PhaseOf(ops[j]) != phase
      {
        assert j > 0 ==> ops[j] == ops[1..][j - 1];
      }
    }
  }

  /** What the bucket condition says about the positions pass 3 picks. */
  lemma FusedPairPositions(ops: seq<ViewOp>)
    requires FusionSafe(ops) && Fuses(ops)
    ensures forall j :: FirstSort(ops) < j < |ops| ==> PhaseOf(ops[j]) != SORT_PHASE
    ensures ops[FirstSort(ops)].keys != [] || ops[FirstLimit(ops)].n == 0
  {
    var si, li := FirstSort(ops), FirstLimit(ops);
    RemoveFirstLimit(ops, li);
    InPhaseRemoved(ops, si, SORT_PHASE);
    var sorts, i := InPhase(ops, SORT_PHASE), |InPhase(ops[..si], SORT_PHASE)|;
    assert sorts[i] == ops[si];
    var after := ops[si + 1..];
    NoneInPhase(after, SORT_PHASE);
    forall j | si < j < |ops|
      ensures PhaseOf(ops[j]) != SORT_PHASE
    {
      assert ops[j] == after[j - si - 1];
    }
  }

  lemma FusedPairRemoved(ops: seq<ViewOp>) returns (rest: seq<ViewOp>)
    requires FusionSafe(ops) && Fuses(ops)
    ensures Pass3SortLimitFusion(ops) == rest + [TopK(ops[FirstLimit(ops)].n, ops[FirstSort(ops)].keys)]
    ensures PairRemoved(ops, rest, ops[FirstSort(ops)], ops[FirstLimit(ops)])
  {
    var si, li := FirstSort(ops), FirstLimit(ops);
    FusedPairPositions(ops);
    if si < li {
      rest := RemoveAt(RemoveAt(ops, li), si);
      RemoveLimitThenSort(ops, si, li);
    } else {
      rest := RemoveAt(RemoveAt(ops, si), li);
      RemoveSortThenLimit(ops, si, li);
    }
  }

  lemma FusionKeepsMeaning(rt: Runtime, f: Frame, ops: seq<ViewOp>)
    requires FusionSafe(ops)
    ensures Exec(rt, f, Pass3SortLimitFusion(ops)) == Exec(rt, f, ops)
  {
    if Fuses(ops) {
      var si, li := FirstSort(ops), FirstLimit(ops);
      var rest := FusedPairRemoved(ops);
      FusedPairPositions(ops);
      PairBecomesTopK(rt, f, ops, rest, ops[si].keys, ops[li].n);
    }
  }

  lemma FusionKeepsFilters(ops: seq<ViewOp>)
    requires FusionSafe(ops)
    ensures InPhase(Pass3SortLimitFusion(ops), FILTER_PHASE) == InPhase(ops, FILTER_PHASE)
  {
    if Fuses(ops) {
      var rest := FusedPairRemoved(ops);
      var top := TopK(ops[FirstLimit(ops)].n, ops[FirstSort(ops)].keys);
      InPhaseAppend(rest, [top], FILTER_PHASE);
      assert [top][1..] == [];
    }
  }

  // ---- the whole optimiser

  ghost predicate FiltersFoldSafely(ops: seq<ViewOp>) {
    forall op :: op in ops && op.Filter? ==> FoldDropsNothing(op.pred)
  }

  /** What a caller may check before optimising: the guards the passes leave out. */
  ghost predicate Optimizable(ops: seq<ViewOp>) {
    DeduplicatesByColumn(ops) && FusionSafe(ops) && FiltersFoldSafely(ops)
  }

  lemma PushdownKeepsMeaning(rt: Runtime, f: Frame, ops: seq<ViewOp>)
    ensures Exec(rt, f, Pushdown(ops, [])) == Exec(rt, f, ops)
  {
    PushdownRearrangesFilters(ops, []);
    RearrangedAcceptance(rt, InPhase(Pushdown(ops, []), FILTER_PHASE), InPhase(ops, FILTER_PHASE));
    SameFiltersSameMeaning(rt, f, Pushdown(ops, []), ops);
  }

  lemma FoldingKeepsMeaning(rt: Runtime, f: Frame, ops: seq<ViewOp>)
    requires FiltersFoldSafely(ops)
    ensures Exec(rt, f, Pass4ConstantFolding(ops)) == Exec(rt, f, ops)
  {
    var g := op => FoldOp(op);
    forall op | op in ops
      ensures Stands(rt, op, g(op))
    {
      FoldStands(rt, op);
    }
    RewriteKeepsMeaning(rt, ops, g);
    SameFiltersSameMeaning(rt, f, ops, Rewrite(ops, g));
  }

  lemma ReorderingKeepsMeaning(rt: Runtime, f: Frame, ops: seq<ViewOp>, score: Option<Predicate -> real>)
    ensures Exec(rt, f, Pass5SelectivityOrdering(ops, score)) == Exec(rt, f, ops)
  {
    if score.Some? {
      var g := op => ReorderOp(score.value, op);
      forall op | op in ops
        ensures Stands(rt, op, g(op))
      {
        ReorderStands(rt, score.value, op);
      }
      RewriteKeepsMeaning(rt, ops, g);
      SameFiltersSameMeaning(rt, f, ops, Rewrite(ops, g));
    }
  }

  lemma SameFiltersFoldSafely(a: seq<ViewOp>, b: seq<ViewOp>)
    requires FiltersFoldSafely(b) && multiset(InPhase(a, FILTER_PHASE)) == multiset(InPhase(b, FILTER_PHASE))
    ensures FiltersFoldSafely(a)
  {
    forall op | op in a && op.Filter?
      ensures FoldDropsNothing(op.pred)
    {
      PhaseMembers(a, FILTER_PHASE, op);
      assert op in multiset(InPhase(a, FILTER_PHASE));
      PhaseMembers(b, FILTER_PHASE, op);
    }
  }

  lemma SameDeduplications(a: seq<ViewOp>, b: seq<ViewOp>)
    requires DeduplicatesByColumn(b) && InPhase(a, 5) == InPhase(b, 5)
    ensures DeduplicatesByColumn(a)
  {
    forall op | op in a && op.Deduplicate?
      ensures op.keyColumns.Some?
    {
      PhaseMembers(a, 5, op);
      PhaseMembers(b, 5, op);
    }
  }

  /** Push-down and pruning keep what the later passes ask for. */
  lemma StaysOptimizable(ops: seq<ViewOp>)
    requires Optimizable(ops)
    ensures Optimizable(Pushdown(ops, [])) && Optimizable(Pass2ColumnPruning(Pushdown(ops, [])))
  {
    var down := Pushdown(ops, []);
    PushdownRearrangesFilters(ops, []);
    SameFiltersFoldSafely(down, ops);
    SameDeduplications(down, ops);
    assert InPhase(down, SORT_PHASE) == InPhase(ops, SORT_PHASE) && InPhase(down, LIMIT_PHASE) == InPhase(ops, LIMIT_PHASE);
    var select := Select(SortedNames(Referenced(down)));
    forall phase: nat | phase != 1
      ensures InPhase([select] + down, phase) == InPhase(down, phase)
    {
      assert ([select] + down)[1..] == down;
    }
    SameFiltersFoldSafely([select] + down, down);
    SameDeduplications([select] + down, down);
  }

  /** The optimiser as a whole: on every table, with every kernel, the optimised list computes
      exactly what the written list computes, errors included. */
  lemma OptimizeKeepsMeaning(rt: Runtime, f: Frame, ops: seq<ViewOp>, score: Option<Predicate -> real>)
    requires WellFormed(f) && Optimizable(ops)
    ensures Exec(rt, f, Optimize(ops, score)) == Exec(rt, f, ops)
    ensures Exec(rt, f, Normalize(Optimize(ops, score))) == Exec(rt, f, Normalize(ops))
  {
    var down := Pushdown(ops, []);
    var pruned := Pass2ColumnPruning(down);
    var fused := Pass3SortLimitFusion(pruned);
    StaysOptimizable(ops);
    PushdownKeepsMeaning(rt, f, ops);
    PruningKeepsMeaning(rt, f, down);
    FusionKeepsMeaning(rt, f, pruned);
    FusionKeepsFilters(pruned);
    SameFiltersFoldSafely(fused, pruned);
    FoldingKeepsMeaning(rt, f, fused);
    ReorderingKeepsMeaning(rt, f, Pass4ConstantFolding(fused), score);
    NormalizeIsStablePhaseSort(ops);
    NormalizeIsStablePhaseSort(Optimize(ops, score));
  }

  method OptimizeWithQuantiles(ops: seq<ViewOp>, score: Option<Predicate -> real>) returns (result: seq<ViewOp>)
    ensures result == Optimize(ops, score)
    ensures Optimizable(ops) ==> forall rt: Runtime, f: Frame :: WellFormed(f) ==> Exec(rt, f, result) == Exec(rt, f, ops)
  {
    result := Pass1PredicatePushdown(ops);
    result := Pass2ColumnPruning(result);
    result := Pass3SortLimitFusion(result);
    result := Pass4ConstantFolding(result);
    result := Pass5SelectivityOrdering(result, score);
    if Optimizable(ops) {
      forall rt: Runtime, f: Frame | WellFormed(f) {
        OptimizeKeepsMeaning(rt, f, ops, score);
      }
    }
  }
}
