/** A finite check for constant folding (pass 4 of crates/tv-core/src/optimizer.rs): the truth tables of a predicate
    and of its folded form over the atoms of the predicate. */
module FoldingTables {
  import opened Seqs
  import opened TextOrder
  import opened Exprs
  import opened Executor
  import opened Relevance
  import opened Optimizer
  import opened OptimizerLimits
  import opened FoldingLimits

  /** The comparisons, matches and null tests a predicate is built of. */
  function Atoms(p: Predicate): set<Predicate>
    decreases p
  {
    match p
    case And(exprs) => AtomsOf(exprs)
    case Or(exprs) => AtomsOf(exprs)
    case Not(expr) => Atoms(expr)
    case _ => {p}
  }

  function AtomsOf(ps: seq<Predicate>): set<Predicate>
    decreases ps
  {
    if ps == [] then {} else Atoms(ps[0]) + AtomsOf(ps[1..])
  }

  /** The truth of a predicate when exactly the atoms `trues` are true. */
  predicate Truth(trues: set<Predicate>, p: Predicate)
    decreases p
  {
    match p
    case And(exprs) => AllTrue(trues, exprs)
    case Or(exprs) => AnyTrue(trues, exprs)
    case Not(expr) => !Truth(trues, expr)
    case _ => p in trues
  }

  predicate AllTrue(trues: set<Predicate>, ps: seq<Predicate>)
    decreases ps
  {
    ps == [] || (Truth(trues, ps[0]) && AllTrue(trues, ps[1..]))
  }

  predicate AnyTrue(trues: set<Predicate>, ps: seq<Predicate>)
    decreases ps
  {
    ps != [] && (Truth(trues, ps[0]) || AnyTrue(trues, ps[1..]))
  }

  /** Folding keeps the truth table. */
  ghost predicate SameTable(p: Predicate) {
    forall trues: set<Predicate> :: trues <= Atoms(p) ==> Truth(trues, FoldPredicate(p)) == Truth(trues, p)
  }

  /** On this row every atom has the truth the table gives it. */
  ghost predicate Realizes(rt: Runtime, names: seq<string>, row: Row, trues: set<Predicate>, atoms: set<Predicate>) {
    forall q :: q in atoms ==> EvalPred(rt, names, row, q) == Some(q in trues)
  }

  lemma {:induction false} TruthOfRealized(rt: Runtime, names: seq<string>, row: Row, trues: set<Predicate>, p: Predicate)
    requires Realizes(rt, names, row, trues, Atoms(p))
    ensures EvalPred(rt, names, row, p) == Some(Truth(trues, p))
    decreases p
  {
    match p
    case And(exprs) => TruthsOfRealized(rt, names, row, trues, exprs);
    case Or(exprs) => TruthsOfRealized(rt, names, row, trues, exprs);
    case Not(expr) => TruthOfRealized(rt, names, row, trues, expr);
    case _ =>
  }

  lemma {:induction false} TruthsOfRealized(rt: Runtime, names: seq<string>, row: Row, trues: set<Predicate>, ps: seq<Predicate>)
    requires Realizes(rt, names, row, trues, AtomsOf(ps))
    ensures EvalAll(rt, names, row, ps) == Some(AllTrue(trues, ps)) && EvalAny(rt, names, row, ps) == Some(AnyTrue(trues, ps))
    decreases ps
  {
    if ps != [] {
      TruthOfRealized(rt, names, row, trues, ps[0]);
      TruthsOfRealized(rt, names, row, trues, ps[1..]);
    }
  }

  /** A predicate that is not null has no null atom. */
  lemma {:induction false} AtomsDecided(rt: Runtime, names: seq<string>, row: Row, p: Predicate)
    requires EvalPred(rt, names, row, p).Some?
    ensures forall q :: q in Atoms(p) ==> EvalPred(rt, names, row, q).Some?
    decreases p
  {
    match p
    case And(exprs) => AllAtomsDecided(rt, names, row, exprs);
    case Or(exprs) =>
      NullAlike(rt, names, row, exprs);
      AllAtomsDecided(rt, names, row, exprs);
    case Not(expr) => AtomsDecided(rt, names, row, expr);
    case _ =>
  }

  lemma {:induction false} AllAtomsDecided(rt: Runtime, names: seq<string>, row: Row, ps: seq<Predicate>)
    requires EvalAll(rt, names, row, ps).Some?
    ensures forall q :: q in AtomsOf(ps) ==> EvalPred(rt, names, row, q).Some?
    decreases ps
  {
    if ps != [] {
      AtomsDecided(rt, names, row, ps[0]);
      AllAtomsDecided(rt, names, row, ps[1..]);
    }
  }

  lemma {:induction false} FoldKeepsAtoms(p: Predicate)
    ensures Atoms(FoldPredicate(p)) <= Atoms(p)
    decreases p
  {
    match p
    case And(exprs) =>
      FoldListKeepsAtoms(exprs, true);
      OneAtom(FoldList(exprs, true));
    case Or(exprs) =>
      FoldListKeepsAtoms(exprs, false);
      OneAtom(FoldList(exprs, false));
    case Not(expr) => FoldKeepsAtoms(expr);
    case _ =>
  }

  lemma {:induction false} FoldListKeepsAtoms(ps: seq<Predicate>, unit: bool)
    ensures AtomsOf(FoldList(ps, unit)) <= AtomsOf(ps)
    decreases ps
  {
    if ps != [] {
      FoldKeepsAtoms(ps[0]);
      FoldListKeepsAtoms(ps[1..], unit);
      var head, tail := FoldPredicate(ps[0]), FoldList(ps[1..], unit);
      assert ([head] + tail)[1..] == tail;
    }
  }

  lemma OneAtom(ps: seq<Predicate>)
    ensures |ps| == 1 ==> AtomsOf(ps) == Atoms(ps[0])
  {
    if |ps| == 1 {
      assert ps[1..] == [];
    }
  }

  lemma SameTruthWhereDecided(p: Predicate, rt: Runtime, names: seq<string>, row: Row)
    requires SameTable(p) && EvalPred(rt, names, row, p).Some?
    ensures EvalPred(rt, names, row, FoldPredicate(p)) == EvalPred(rt, names, row, p)
  {
    var trues := set q | q in Atoms(p) && EvalPred(rt, names, row, q) == Some(true);
    assert Realizes(rt, names, row, trues, Atoms(p)) by {
      AtomsDecided(rt, names, row, p);
    }
    assert Realizes(rt, names, row, trues, Atoms(FoldPredicate(p))) by {
      FoldKeepsAtoms(p);
    }
    TruthOfRealized(rt, names, row, trues, p);
    TruthOfRealized(rt, names, row, trues, FoldPredicate(p));
  }

  /** Folding is sound if it keeps the truth table and every dropped column is still read as a bool. */
  lemma SameTableIsSound(p: Predicate)
    requires SameTable(p) && ReadsDroppedAsBool(p)
    ensures FoldSound(p)
  {
    forall rt, names, row | Evaluable(rt, names, row, p) && EvalPred(rt, names, row, p).Some?
      ensures EvalPred(rt, names, row, FoldPredicate(p)) == EvalPred(rt, names, row, p)
    {
      SameTruthWhereDecided(p, rt, names, row);
    }
    FoldingIsExact(p);
  }

  // ---- predicates over flags

  /** Every atom is an equality of some column with `true`. */
  ghost predicate OverFlags(p: Predicate) {
    forall q :: q in Atoms(p) ==> IsConstant(q, true)
  }

  /** The row whose flags are those of the table. */
  function FlagRow(names: seq<string>, trues: set<Predicate>): Row {
    seq(|names|, i requires 0 <= i < |names| => Flag(Compare(Eq, names[i], BoolLit(true)) in trues))
  }

  lemma {:induction false} AtomColumns(p: Predicate, q: Predicate)
    requires q in Atoms(p)
    ensures PredColumns(q) <= PredColumns(p)
    decreases p
  {
    match p
    case And(exprs) => AtomColumnsOf(exprs, q);
    case Or(exprs) => AtomColumnsOf(exprs, q);
    case Not(expr) => AtomColumns(expr, q);
    case _ =>
  }

  lemma {:induction false} AtomColumnsOf(ps: seq<Predicate>, q: Predicate)
    requires q in AtomsOf(ps)
    ensures PredColumns(q) <= PredsColumns(ps)
    decreases ps
  {
    if q in Atoms(ps[0]) {
      AtomColumns(ps[0], q);
    } else {
      AtomColumnsOf(ps[1..], q);
    }
  }

  /** Every table over flags is realized by a row. */
  lemma TableRealized(p: Predicate, trues: set<Predicate>) returns (rt: Runtime, names: seq<string>, row: Row)
    requires OverFlags(p)
    ensures Evaluable(rt, names, row, p) && Realizes(rt, names, row, trues, Atoms(p))
  {
    rt, names := IdleRuntime(), SortedNames(PredColumns(p));
    row := FlagRow(names, trues);
    OkOnItsColumns(rt, names, p);
    forall q | q in Atoms(p)
      ensures EvalPred(rt, names, row, q) == Some(q in trues)
    {
      AtomColumns(p, q);
      assert q.column in PredColumns(q) && q == Compare(Eq, q.column, BoolLit(true));
      assert CellOf(names, row, q.column) == Flag(q in trues);
    }
  }

  /** For a predicate over flags, folding is sound if and only if it keeps the truth table and every dropped column is
      still read. */
  lemma FlagFoldingIsExact(p: Predicate)
    requires OverFlags(p)
    ensures FoldSound(p) <==> SameTable(p) && ReadsDroppedAsBool(p)
  {
    if FoldSound(p) {
      FoldingIsExact(p);
      FoldKeepsAtoms(p);
      forall trues: set<Predicate> | trues <= Atoms(p)
        ensures Truth(trues, FoldPredicate(p)) == Truth(trues, p)
      {
        var rt, names, row := TableRealized(p, trues);
        TruthOfRealized(rt, names, row, trues, p);
        TruthOfRealized(rt, names, row, trues, FoldPredicate(p));
      }
    }
    if SameTable(p) && ReadsDroppedAsBool(p) {
      SameTableIsSound(p);
    }
  }
}
