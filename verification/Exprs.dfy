/** The view language of crates/tv-core/src/expr.rs: literals, predicates, scalar
    expressions, view operations, and the phase order every executor imposes. */
module Exprs {
  import opened Seqs

  datatype Literal = NullLit | BoolLit(b: bool) | IntLit(i: int) | FloatLit(f: real) | TextLit(s: string)

  datatype CmpOp = Eq | Ne | Gt | Gte | Lt | Lte

  datatype MatchKind = Contains | StartsWith | EndsWith | Regex

  datatype Predicate =
    | Compare(op: CmpOp, column: string, value: Literal)
    | Between(column: string, lo: Literal, hi: Literal)
    | In(column: string, values: seq<Literal>)
    | NotIn(column: string, values: seq<Literal>)
    | Match(kind: MatchKind, column: string, pattern: string)
    | IsNull(column: string)
    | IsNotNull(column: string)
    | And(exprs: seq<Predicate>)
    | Or(exprs: seq<Predicate>)
    | Not(expr: Predicate)

  datatype SortKey = SortKey(column: string, descending: bool, nullsLast: bool)

  datatype DataType = Int32 | Int64 | Float32 | Float64 | TextType | Boolean | Date | Timestamp

  /** The scalar functions of one argument; `Round`, `Substr` and `CastTo` carry their constants. */
  datatype UnaryFn =
    | Abs | Floor | Ceil | Upper | Lower | Trim | Length | Year | Month | Day
    | Round(decimals: int)
    | Substr(start: int, len: Option<int>)
    | CastTo(toType: DataType)

  datatype ArithOp = Add | Sub | Mul | Div | Mod

  datatype ScalarExpr =
    | Column(name: string)
    | Lit(value: Literal)
    | BinOp(op: ArithOp, left: ScalarExpr, right: ScalarExpr)
    | Unary(fn: UnaryFn, arg: ScalarExpr)
    | Concat(parts: seq<ScalarExpr>)
    | Case(whens: seq<When>, elseExpr: Option<ScalarExpr>)
    | Coalesce(exprs: seq<ScalarExpr>)
    | Rank(order: seq<SortKey>)
    | NTile(n: nat)

  datatype When = When(guard: Predicate, value: ScalarExpr)

  datatype AggFn = CountDistinctFn | SumFn | MinFn | MaxFn | MeanFn | MedianFn | StdDevFn | PercentileFn(p: real)

  datatype AggExpr = Count(alias: string) | Agg(fn: AggFn, column: string, alias: string)

  datatype ViewOp =
    | Filter(pred: Predicate)
    | Select(columns: seq<string>)
    | Drop(columns: seq<string>)
    | Sort(keys: seq<SortKey>)
    | Derive(name: string, expr: ScalarExpr)
    | Deduplicate(keyColumns: Option<seq<string>>)
    | Sample(rows: nat, seed: Option<nat>)
    | GroupBy(groupKeys: seq<string>, aggs: seq<AggExpr>)
    | Rename(mappings: seq<(string, string)>)
    | Limit(n: nat)
    | TopK(k: nat, keys: seq<SortKey>)
    | Approximate(sampleRows: nat, seed: Option<nat>)

  const PHASES: nat := 10

  /** The bucket of `normalize_ops` an operation goes to; buckets are emitted in this order. */
  function PhaseOf(op: ViewOp): (phase: nat)
    ensures phase < PHASES
  {
    match op
    case Approximate(_, _) => 0
    case Select(_) => 1
    case Drop(_) => 2
    case Filter(_) => 3
    case Derive(_, _) => 4
    case Deduplicate(_) => 5
    case Sample(_, _) => 5
    case GroupBy(_, _) => 6
    case Rename(_) => 7
    case Sort(_) => 8
    case TopK(_, _) => 8
    case Limit(_) => 9
  }

  /** The operations of one phase, in the order they were written. */
  function InPhase(ops: seq<ViewOp>, phase: nat): seq<ViewOp> {
    if ops == [] then []
    else if PhaseOf(ops[0]) == phase then [ops[0]] + InPhase(ops[1..], phase)
    else InPhase(ops[1..], phase)
  }

  function PhasesFrom(ops: seq<ViewOp>, phase: nat): seq<ViewOp>
    requires phase <= PHASES
    decreases PHASES - phase, |ops|
  {
    if phase == PHASES then [] else InPhase(ops, phase) + PhasesFrom(ops, phase + 1)
  }

  function Normalize(ops: seq<ViewOp>): seq<ViewOp> {
    PhasesFrom(ops, 0)
  }

  lemma {:induction false} InPhaseAppend(a: seq<ViewOp>, b: seq<ViewOp>, phase: nat)
    ensures InPhase(a + b, phase) == InPhase(a, phase) + InPhase(b, phase)
  {
    if a == [] {
      assert a + b == b;
    } else {
      InPhaseAppend(a[1..], b, phase);
      var rest := InPhase(a[1..], phase);
      assert (a + b)[0] == a[0] && (a + b)[1..] == a[1..] + b;
      assert [a[0]] + (rest + InPhase(b, phase)) == [a[0]] + rest + InPhase(b, phase);
    }
  }

  lemma InPhaseNext(ops: seq<ViewOp>, i: nat, phase: nat)
    requires i < |ops|
    ensures InPhase(ops[..i + 1], phase) ==
            if PhaseOf(ops[i]) == phase then InPhase(ops[..i], phase) + [ops[i]] else InPhase(ops[..i], phase)
  {
    assert ops[..i + 1] == ops[..i] + [ops[i]];
    InPhaseAppend(ops[..i], [ops[i]], phase);
    assert [ops[i]][1..] == [];
  }

  /** A bucket holds operations of its own phase only, so re-sorting it changes nothing. */
  lemma {:induction false} InPhasePure(ops: seq<ViewOp>, phase: nat, other: nat)
    ensures forall op :: op in InPhase(ops, phase) ==> PhaseOf(op) == phase && op in ops
    ensures InPhase(InPhase(ops, phase), other) == if other == phase then InPhase(ops, phase) else []
  {
    if ops != [] {
      InPhasePure(ops[1..], phase, other);
      var head := if PhaseOf(ops[0]) == phase then [ops[0]] else [];
      InPhaseAppend(head, InPhase(ops[1..], phase), other);
      assert head != [] ==> head[1..] == [];
    }
  }

  lemma {:induction false} PhasesFromKeepsBucket(ops: seq<ViewOp>, from: nat, phase: nat)
    requires from <= PHASES
    ensures InPhase(PhasesFrom(ops, from), phase) == if from <= phase < PHASES then InPhase(ops, phase) else []
    ensures forall op :: op in PhasesFrom(ops, from) ==> from <= PhaseOf(op)
    decreases PHASES - from
  {
    if from < PHASES {
      PhasesFromKeepsBucket(ops, from + 1, phase);
      InPhasePure(ops, from, phase);
      InPhaseAppend(InPhase(ops, from), PhasesFrom(ops, from + 1), phase);
    }
  }

  lemma {:induction false} SameBucketsSameOrder(a: seq<ViewOp>, b: seq<ViewOp>, from: nat)
    requires from <= PHASES
    requires forall phase :: from <= phase < PHASES ==> InPhase(a, phase) == InPhase(b, phase)
    ensures PhasesFrom(a, from) == PhasesFrom(b, from)
    decreases PHASES - from
  {
    if from < PHASES {
      SameBucketsSameOrder(a, b, from + 1);
    }
  }

  predicate PhasesAscend(ops: seq<ViewOp>) {
    forall i, j :: 0 <= i < j < |ops| ==> PhaseOf(ops[i]) <= PhaseOf(ops[j])
  }

  predicate PhasesAtLeast(ops: seq<ViewOp>, phase: nat) {
    forall i :: 0 <= i < |ops| ==> phase <= PhaseOf(ops[i])
  }

  lemma BucketPhases(ops: seq<ViewOp>, phase: nat)
    ensures forall i :: 0 <= i < |InPhase(ops, phase)| ==> PhaseOf(InPhase(ops, phase)[i]) == phase
  {
    var bucket := InPhase(ops, phase);
    InPhasePure(ops, phase, phase);
    forall i | 0 <= i < |bucket|
      ensures PhaseOf(bucket[i]) == phase
    {
      assert bucket[i] in bucket;
    }
  }

  lemma TailPhases(ops: seq<ViewOp>, from: nat)
    requires from < PHASES
    ensures PhasesAtLeast(PhasesFrom(ops, from + 1), from)
  {
    var tail := PhasesFrom(ops, from + 1);
    PhasesFromKeepsBucket(ops, from + 1, from);
    forall i | 0 <= i < |tail|
      ensures from <= PhaseOf(tail[i])
    {
      assert tail[i] in tail;
    }
  }

  lemma {:induction false} PhasesFromSorted(ops: seq<ViewOp>, from: nat)
    requires from <= PHASES
    ensures PhasesAscend(PhasesFrom(ops, from))
    decreases PHASES - from
  {
    if from < PHASES {
      PhasesFromSorted(ops, from + 1);
      BucketPhases(ops, from);
      TailPhases(ops, from);
    }
  }

  /** `normalize_ops` is a stable phase sort: every bucket keeps its operations in
      their written order, phases ascend, and normalising again changes nothing. */
  lemma NormalizeIsStablePhaseSort(ops: seq<ViewOp>)
    ensures forall phase :: 0 <= phase < PHASES ==> InPhase(Normalize(ops), phase) == InPhase(ops, phase)
    ensures PhasesAscend(Normalize(ops))
    ensures Normalize(Normalize(ops)) == Normalize(ops)
  {
    forall phase | 0 <= phase < PHASES
      ensures InPhase(Normalize(ops), phase) == InPhase(ops, phase)
    {
      PhasesFromKeepsBucket(ops, 0, phase);
    }
    PhasesFromSorted(ops, 0);
    SameBucketsSameOrder(Normalize(ops), ops, 0);
  }

  /** The ten buckets of the source, filled by one pass over the operations. */
  method NormalizeOps(ops: seq<ViewOp>) returns (result: seq<ViewOp>)
    ensures result == Normalize(ops)
  {
    var approximates, selects, drops, filters, derives: seq<ViewOp> := [], [], [], [], [];
    var deduplicates, groupBys, renames, sorts, limits: seq<ViewOp> := [], [], [], [], [];
    for i := 0 to |ops|
      invariant approximates == InPhase(ops[..i], 0) && selects == InPhase(ops[..i], 1)
      invariant drops == InPhase(ops[..i], 2) && filters == InPhase(ops[..i], 3)
      invariant derives == InPhase(ops[..i], 4) && deduplicates == InPhase(ops[..i], 5)
      invariant groupBys == InPhase(ops[..i], 6) && renames == InPhase(ops[..i], 7)
      invariant sorts == InPhase(ops[..i], 8) && limits == InPhase(ops[..i], 9)
    {
      forall phase: nat | phase < PHASES {
        InPhaseNext(ops, i, phase);
      }
      var op := ops[i];
      match op {
        case Select(_) => selects := selects + [op];
        case Drop(_) => drops := drops + [op];
        case Filter(_) => filters := filters + [op];
        case Derive(_, _) => derives := derives + [op];
        case Deduplicate(_) => deduplicates := deduplicates + [op];
        case GroupBy(_, _) => groupBys := groupBys + [op];
        case Rename(_) => renames := renames + [op];
        case Sort(_) => sorts := sorts + [op];
        case Limit(_) => limits := limits + [op];
        case Sample(_, _) => deduplicates := deduplicates + [op];
        case TopK(_, _) => sorts := sorts + [op];
        case Approximate(_, _) => approximates := approximates + [op];
      }
    }
    assert ops[..|ops|] == ops;
    assert PhasesFrom(ops, 9) == limits + PhasesFrom(ops, 10) == limits;
    assert PhasesFrom(ops, 8) == sorts + limits;
    assert PhasesFrom(ops, 7) == renames + (sorts + limits);
    assert PhasesFrom(ops, 6) == groupBys + (renames + (sorts + limits));
    assert PhasesFrom(ops, 5) == deduplicates + (groupBys + (renames + (sorts + limits)));
    var tail := deduplicates + (groupBys + (renames + (sorts + limits)));
    assert PhasesFrom(ops, 4) == derives + tail;
    assert PhasesFrom(ops, 3) == filters + (derives + tail);
    assert PhasesFrom(ops, 2) == drops + (filters + (derives + tail));
    assert PhasesFrom(ops, 1) == selects + (drops + (filters + (derives + tail)));
    result := approximates + (selects + (drops + (filters + (derives + tail))));
  }
}
