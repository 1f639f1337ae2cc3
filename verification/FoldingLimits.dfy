/** When constant folding changes what a filter computes. `is_always_true` and `is_always_false`
    take a comparison of a column with a bool literal for a constant, so folding may drop it. */
module FoldingLimits {
  import opened Seqs
  import opened TextOrder
  import opened Exprs
  import opened Executor
  import opened Relevance
  import opened Meaning
  import opened Optimizer
  import opened OptimizerLimits

  // ---- what folding drops

  /** The columns of the equalities folding drops. */
  function DroppedColumns(p: Predicate): set<string>
    decreases p
  {
    match p
    case And(exprs) => DroppedIn(exprs, true)
    case Or(exprs) => DroppedIn(exprs, false)
    case Not(expr) => DroppedColumns(expr)
    case _ => {}
  }

  function DroppedIn(ps: seq<Predicate>, unit: bool): set<string>
    decreases ps
  {
    if ps == [] then {}
    else
      var head := FoldPredicate(ps[0]);
      DroppedColumns(ps[0]) + (if IsConstant(head, unit) then {head.column} else {}) + DroppedIn(ps[1..], unit)
  }

  lemma {:induction false} DropsNothing(p: Predicate)
    ensures FoldDropsNothing(p) <==> DroppedColumns(p) == {}
    decreases p
  {
    match p
    case And(exprs) => ListDropsNothing(exprs, true);
    case Or(exprs) => ListDropsNothing(exprs, false);
    case Not(expr) => DropsNothing(expr);
    case _ =>
  }

  lemma {:induction false} ListDropsNothing(ps: seq<Predicate>, unit: bool)
    ensures FoldListDropsNothing(ps, unit) <==> DroppedIn(ps, unit) == {}
    decreases ps
  {
    if ps != [] {
      DropsNothing(ps[0]);
      ListDropsNothing(ps[1..], unit);
    }
  }

  predicate BoolEquality(p: Predicate, c: string) {
    p.Compare? && p.op == Eq && p.value.BoolLit? && p.column == c
  }

  /** What is left of a predicate reads no new column. */
  lemma {:induction false} FoldReadsLess(p: Predicate)
    ensures PredColumns(FoldPredicate(p)) <= PredColumns(p) && DroppedColumns(p) <= PredColumns(p)
    decreases p
  {
    match p
    case And(exprs) =>
      FoldListReadsLess(exprs, true);
      OneMember(FoldList(exprs, true));
    case Or(exprs) =>
      FoldListReadsLess(exprs, false);
      OneMember(FoldList(exprs, false));
    case Not(expr) => FoldReadsLess(expr);
    case _ =>
  }

  lemma {:induction false} FoldListReadsLess(ps: seq<Predicate>, unit: bool)
    ensures PredsColumns(FoldList(ps, unit)) <= PredsColumns(ps) && DroppedIn(ps, unit) <= PredsColumns(ps)
    decreases ps
  {
    if ps != [] {
      FoldReadsLess(ps[0]);
      FoldListReadsLess(ps[1..], unit);
      var head, tail := FoldPredicate(ps[0]), FoldList(ps[1..], unit);
      assert ([head] + tail)[1..] == tail;
    }
  }

  lemma OneMember(ps: seq<Predicate>)
    ensures |ps| == 1 ==> PredsColumns(ps) == PredColumns(ps[0])
  {
    if |ps| == 1 {
      assert ps[1..] == [];
    }
  }

  /** A predicate raises no error exactly when its folded form raises none and the dropped columns are there. */
  lemma {:induction false} OkBesidesDropped(rt: Runtime, names: seq<string>, p: Predicate)
    ensures PredOk(rt, names, p) <==> PredOk(rt, names, FoldPredicate(p)) && DroppedColumns(p) <= Elements(names)
    decreases p
  {
    match p
    case And(exprs) =>
      OkBesidesDroppedIn(rt, names, exprs, true);
      OneMemberOk(rt, names, FoldList(exprs, true));
    case Or(exprs) =>
      OkBesidesDroppedIn(rt, names, exprs, false);
      OneMemberOk(rt, names, FoldList(exprs, false));
    case Not(expr) => OkBesidesDropped(rt, names, expr);
    case _ =>
  }

  lemma {:induction false} OkBesidesDroppedIn(rt: Runtime, names: seq<string>, ps: seq<Predicate>, unit: bool)
    ensures PredsOk(rt, names, ps) <==> PredsOk(rt, names, FoldList(ps, unit)) && DroppedIn(ps, unit) <= Elements(names)
    decreases ps
  {
    if ps != [] {
      OkBesidesDropped(rt, names, ps[0]);
      OkBesidesDroppedIn(rt, names, ps[1..], unit);
      var head, tail := FoldPredicate(ps[0]), FoldList(ps[1..], unit);
      assert ([head] + tail)[1..] == tail;
      if IsConstant(head, unit) {
        assert DroppedIn(ps, unit) <= Elements(names) <==>
               DroppedColumns(ps[0]) <= Elements(names) && head.column in names && DroppedIn(ps[1..], unit) <= Elements(names);
      }
    }
  }

  lemma OneMemberOk(rt: Runtime, names: seq<string>, ps: seq<Predicate>)
    ensures |ps| == 1 ==> PredsOk(rt, names, ps) == PredOk(rt, names, ps[0])
  {
    if |ps| == 1 {
      assert ps[1..] == [];
    }
  }

  // ---- null

  predicate NoBool(rt: Runtime, names: seq<string>, row: Row, c: string) {
    ToBool(rt, CellOf(names, row, c)) == None
  }

  lemma OneMemberValue(rt: Runtime, names: seq<string>, row: Row, ps: seq<Predicate>)
    requires |ps| == 1
    ensures EvalAll(rt, names, row, ps) == EvalPred(rt, names, row, ps[0]) == EvalAny(rt, names, row, ps)
  {
    assert ps[1..] == [];
  }

  /** And and Or are strict in null: one is null exactly when the other is. */
  lemma {:induction false} NullAlike(rt: Runtime, names: seq<string>, row: Row, ps: seq<Predicate>)
    ensures EvalAll(rt, names, row, ps).None? <==> EvalAny(rt, names, row, ps).None?
  {
    if ps != [] {
      NullAlike(rt, names, row, ps[1..]);
    }
  }

  /** A predicate that folds to a bool equality is null where its column is no bool. */
  lemma {:induction false} NullBeforeFolding(rt: Runtime, names: seq<string>, row: Row, c: string, p: Predicate)
    requires NoBool(rt, names, row, c) && BoolEquality(FoldPredicate(p), c)
    ensures EvalPred(rt, names, row, p) == None
    decreases p
  {
    match p
    case And(exprs) => NullMember(rt, names, row, c, exprs, true);
    case Or(exprs) => NullMember(rt, names, row, c, exprs, false);
    case _ =>
  }

  lemma {:induction false} NullMember(rt: Runtime, names: seq<string>, row: Row, c: string, ps: seq<Predicate>, unit: bool)
    requires NoBool(rt, names, row, c) && exists q :: q in FoldList(ps, unit) && BoolEquality(q, c)
    ensures EvalAll(rt, names, row, ps) == None && EvalAny(rt, names, row, ps) == None
    decreases ps
  {
    if BoolEquality(FoldPredicate(ps[0]), c) {
      NullBeforeFolding(rt, names, row, c, ps[0]);
    } else {
      NullMember(rt, names, row, c, ps[1..], unit);
    }
  }

  /** A dropped equality was null where its column is no bool, and so was the whole predicate. */
  lemma {:induction false} NullWhereDropped(rt: Runtime, names: seq<string>, row: Row, c: string, p: Predicate)
    requires NoBool(rt, names, row, c) && c in DroppedColumns(p)
    ensures EvalPred(rt, names, row, p) == None
    decreases p
  {
    match p
    case And(exprs) => NullWhereDroppedIn(rt, names, row, c, exprs, true);
    case Or(exprs) => NullWhereDroppedIn(rt, names, row, c, exprs, false);
    case Not(expr) => NullWhereDropped(rt, names, row, c, expr);
  }

  lemma {:induction false} NullWhereDroppedIn(rt: Runtime, names: seq<string>, row: Row, c: string, ps: seq<Predicate>, unit: bool)
    requires NoBool(rt, names, row, c) && c in DroppedIn(ps, unit)
    ensures EvalAll(rt, names, row, ps) == None && EvalAny(rt, names, row, ps) == None
    decreases ps
  {
    if c in DroppedColumns(ps[0]) {
      NullWhereDropped(rt, names, row, c, ps[0]);
    } else if BoolEquality(FoldPredicate(ps[0]), c) {
      NullBeforeFolding(rt, names, row, c, ps[0]);
    } else {
      NullWhereDroppedIn(rt, names, row, c, ps[1..], unit);
    }
  }

  /** Folding makes nothing null; and it makes a null predicate decided only where a dropped column is no bool. */
  lemma {:induction false} NullAfterFolding(rt: Runtime, names: seq<string>, row: Row, p: Predicate)
    ensures EvalPred(rt, names, row, FoldPredicate(p)) == None ==> EvalPred(rt, names, row, p) == None
    ensures EvalPred(rt, names, row, p) == None ==>
              EvalPred(rt, names, row, FoldPredicate(p)) == None || exists c :: c in DroppedColumns(p) && NoBool(rt, names, row, c)
    decreases p
  {
    match p
    case And(exprs) =>
      var folded := FoldList(exprs, true);
      NullAfterFoldingIn(rt, names, row, exprs, true);
      if |folded| == 1 { OneMemberValue(rt, names, row, folded); }
    case Or(exprs) =>
      var folded := FoldList(exprs, false);
      NullAfterFoldingIn(rt, names, row, exprs, false);
      NullAlike(rt, names, row, exprs);
      NullAlike(rt, names, row, folded);
      if |folded| == 1 { OneMemberValue(rt, names, row, folded); }
    case Not(expr) => NullAfterFolding(rt, names, row, expr);
    case _ =>
  }

  lemma {:induction false} NullAfterFoldingIn(rt: Runtime, names: seq<string>, row: Row, ps: seq<Predicate>, unit: bool)
    ensures EvalAll(rt, names, row, FoldList(ps, unit)) == None ==> EvalAll(rt, names, row, ps) == None
    ensures EvalAll(rt, names, row, ps) == None ==>
              EvalAll(rt, names, row, FoldList(ps, unit)) == None || exists c :: c in DroppedIn(ps, unit) && NoBool(rt, names, row, c)
    decreases ps
  {
    if ps != [] {
      var head, tail := FoldPredicate(ps[0]), FoldList(ps[1..], unit);
      NullAfterFolding(rt, names, row, ps[0]);
      NullAfterFoldingIn(rt, names, row, ps[1..], unit);
      assert ([head] + tail)[0] == head && ([head] + tail)[1..] == tail;
      if IsConstant(head, unit) {
        assert head.column in DroppedIn(ps, unit);
        assert EvalPred(rt, names, row, head) == None <==> NoBool(rt, names, row, head.column);
      }
    }
  }

  // ---- reading a column as a bool

  /** The predicate compares the column with a bool literal. */
  predicate ReadsAsBool(p: Predicate, c: string)
    decreases p
  {
    match p
    case Compare(_, column, value) => column == c && value.BoolLit?
    case Between(column, lo, hi) => column == c && (lo.BoolLit? || hi.BoolLit?)
    case In(column, values) => column == c && exists i :: 0 <= i < |values| && values[i].BoolLit?
    case NotIn(column, values) => column == c && exists i :: 0 <= i < |values| && values[i].BoolLit?
    case And(exprs) => SomeReadsAsBool(exprs, c)
    case Or(exprs) => SomeReadsAsBool(exprs, c)
    case Not(expr) => ReadsAsBool(expr, c)
    case _ => false
  }

  predicate SomeReadsAsBool(ps: seq<Predicate>, c: string)
    decreases ps
  {
    ps != [] && (ReadsAsBool(ps[0], c) || SomeReadsAsBool(ps[1..], c))
  }

  /** Read as a bool, a column that is none makes the predicate null. */
  lemma {:induction false} BoolReadIsNull(rt: Runtime, names: seq<string>, row: Row, p: Predicate, c: string)
    requires ReadsAsBool(p, c) && NoBool(rt, names, row, c)
    ensures EvalPred(rt, names, row, p) == None && c in PredColumns(p)
    decreases p
  {
    match p
    case In(_, values) => NullAmong(rt, CellOf(names, row, c), values);
    case NotIn(_, values) => NullAmong(rt, CellOf(names, row, c), values);
    case And(exprs) => BoolReadsAreNull(rt, names, row, exprs, c);
    case Or(exprs) => BoolReadsAreNull(rt, names, row, exprs, c);
    case Not(expr) => BoolReadIsNull(rt, names, row, expr, c);
    case _ =>
  }

  lemma {:induction false} BoolReadsAreNull(rt: Runtime, names: seq<string>, row: Row, ps: seq<Predicate>, c: string)
    requires SomeReadsAsBool(ps, c) && NoBool(rt, names, row, c)
    ensures EvalAll(rt, names, row, ps) == None && EvalAny(rt, names, row, ps) == None && c in PredsColumns(ps)
    decreases ps
  {
    if ReadsAsBool(ps[0], c) {
      BoolReadIsNull(rt, names, row, ps[0], c);
    } else {
      BoolReadsAreNull(rt, names, row, ps[1..], c);
    }
  }

  lemma {:induction false} NullAmong(rt: Runtime, cell: Cell, values: seq<Literal>)
    requires ToBool(rt, cell) == None && exists i :: 0 <= i < |values| && values[i].BoolLit?
    ensures EvalIn(rt, cell, values) == None
  {
    if !values[0].BoolLit? {
      var i :| 0 <= i < |values| && values[i].BoolLit?;
      assert values[1..][i - 1] == values[i];
      NullAmong(rt, cell, values[1..]);
    }
  }

  /** A kernel to which every text is a number and none is a flag. */
  function NoFlagRuntime(): Runtime {
    IdleRuntime().(parseNumber := (s: string) => Some(0.0))
  }

  /** A row whose cells are flags, but for one column that holds a text. */
  function TextAmongFlags(names: seq<string>, c: string): Row {
    seq(|names|, i requires 0 <= i < |names| => if names[i] == c then Str("x") else Flag(true))
  }

  lemma TextAmongFlagsCells(names: seq<string>, c: string, d: string)
    requires d in names
    ensures CellOf(names, TextAmongFlags(names, c), d) == if d == c then Str("x") else Flag(true)
  {
  }

  /** Not read as a bool, the text leaves the predicate decided. */
  lemma {:induction false} DecidedWithoutBool(names: seq<string>, p: Predicate, c: string)
    requires !ReadsAsBool(p, c) && forall d :: d in PredColumns(p) ==> d in names
    ensures EvalPred(NoFlagRuntime(), names, TextAmongFlags(names, c), p).Some?
    decreases p
  {
    match p
    case Compare(_, column, _) => TextAmongFlagsCells(names, c, column);
    case Between(column, _, _) => TextAmongFlagsCells(names, c, column);
    case In(column, values) =>
      TextAmongFlagsCells(names, c, column);
      DecidedAmong(CellOf(names, TextAmongFlags(names, c), column), values);
    case NotIn(column, values) =>
      TextAmongFlagsCells(names, c, column);
      DecidedAmong(CellOf(names, TextAmongFlags(names, c), column), values);
    case And(exprs) => AllDecidedWithoutBool(names, exprs, c);
    case Or(exprs) => AllDecidedWithoutBool(names, exprs, c);
    case Not(expr) => DecidedWithoutBool(names, expr, c);
    case _ =>
  }

  lemma {:induction false} AllDecidedWithoutBool(names: seq<string>, ps: seq<Predicate>, c: string)
    requires !SomeReadsAsBool(ps, c) && forall d :: d in PredsColumns(ps) ==> d in names
    ensures var rt, row := NoFlagRuntime(), TextAmongFlags(names, c);
            EvalAll(rt, names, row, ps).Some? && EvalAny(rt, names, row, ps).Some?
    decreases ps
  {
    if ps != [] {
      DecidedWithoutBool(names, ps[0], c);
      AllDecidedWithoutBool(names, ps[1..], c);
    }
  }

  lemma {:induction false} DecidedAmong(cell: Cell, values: seq<Literal>)
    requires cell.Flag? || (cell.Str? && forall i :: 0 <= i < |values| ==> !values[i].BoolLit?)
    ensures EvalIn(NoFlagRuntime(), cell, values).Some?
  {
    if values != [] {
      DecidedAmong(cell, values[1..]);
    }
  }

  // ---- the exact conditions

  /** The tables a predicate can be evaluated on. */
  ghost predicate Evaluable(rt: Runtime, names: seq<string>, row: Row, p: Predicate) {
    PredOk(rt, names, p) && |row| == |names|
  }

  /** Folding keeps the three-valued truth wherever the predicate can be evaluated. */
  ghost predicate FoldSound(p: Predicate) {
    forall rt, names, row :: Evaluable(rt, names, row, p) ==> EvalPred(rt, names, row, FoldPredicate(p)) == EvalPred(rt, names, row, p)
  }

  /** Folding keeps the truth of rows on which the predicate is not null. */
  ghost predicate FoldSoundWhereDecided(p: Predicate) {
    forall rt, names, row :: Evaluable(rt, names, row, p) && EvalPred(rt, names, row, p).Some? ==>
      EvalPred(rt, names, row, FoldPredicate(p)) == EvalPred(rt, names, row, p)
  }

  lemma EvaluableSomewhere(rt: Runtime, p: Predicate, c: string)
    requires rt.validPattern == IdleRuntime().validPattern
    ensures var names := SortedNames(PredColumns(p)); Evaluable(rt, names, TextAmongFlags(names, c), p)
  {
    OkOnItsColumns(rt, SortedNames(PredColumns(p)), p);
  }

  lemma {:induction false} OkOnItsColumns(rt: Runtime, names: seq<string>, p: Predicate)
    requires rt.validPattern == IdleRuntime().validPattern && forall d :: d in PredColumns(p) ==> d in names
    ensures PredOk(rt, names, p)
    decreases p
  {
    match p
    case And(exprs) => AllOkOnTheirColumns(rt, names, exprs);
    case Or(exprs) => AllOkOnTheirColumns(rt, names, exprs);
    case Not(expr) => OkOnItsColumns(rt, names, expr);
    case _ =>
  }

  lemma {:induction false} AllOkOnTheirColumns(rt: Runtime, names: seq<string>, ps: seq<Predicate>)
    requires rt.validPattern == IdleRuntime().validPattern && forall d :: d in PredsColumns(ps) ==> d in names
    ensures PredsOk(rt, names, ps)
    decreases ps
  {
    if ps != [] {
      OkOnItsColumns(rt, names, ps[0]);
      AllOkOnTheirColumns(rt, names, ps[1..]);
    }
  }

  /** Sound folding still reads every column it drops an equality on as a bool. */
  lemma SoundFoldingReadsDropped(p: Predicate, c: string)
    requires FoldSound(p) && c in DroppedColumns(p)
    ensures ReadsAsBool(FoldPredicate(p), c)
  {
    var rt, names := NoFlagRuntime(), SortedNames(PredColumns(p));
    var row := TextAmongFlags(names, c);
    FoldReadsLess(p);
    EvaluableSomewhere(rt, p, c);
    TextAmongFlagsCells(names, c, c);
    NullWhereDropped(rt, names, row, c, p);
    assert EvalPred(rt, names, row, FoldPredicate(p)) == None;
    if !ReadsAsBool(FoldPredicate(p), c) {
      DecidedWithoutBool(names, FoldPredicate(p), c);
    }
  }

  /** Every column an equality was dropped on is still compared with a bool literal. */
  ghost predicate ReadsDroppedAsBool(p: Predicate) {
    forall c :: c in DroppedColumns(p) ==> ReadsAsBool(FoldPredicate(p), c)
  }

  lemma SoundIfReadAsBool(p: Predicate, rt: Runtime, names: seq<string>, row: Row)
    requires ReadsDroppedAsBool(p) && FoldSoundWhereDecided(p)
    requires Evaluable(rt, names, row, p)
    ensures EvalPred(rt, names, row, FoldPredicate(p)) == EvalPred(rt, names, row, p)
  {
    if EvalPred(rt, names, row, p) == None && EvalPred(rt, names, row, FoldPredicate(p)) != None {
      NullAfterFolding(rt, names, row, p);
      var c :| c in DroppedColumns(p) && NoBool(rt, names, row, c);
      BoolReadIsNull(rt, names, row, FoldPredicate(p), c);
    }
  }

  /** Folding is sound exactly when every column it drops an equality on is still read as a bool, and it keeps
      the truth of the rows that are not null. */
  lemma FoldingIsExact(p: Predicate)
    ensures FoldSound(p) <==> ReadsDroppedAsBool(p) && FoldSoundWhereDecided(p)
  {
    if FoldSound(p) {
      forall c | c in DroppedColumns(p)
        ensures ReadsAsBool(FoldPredicate(p), c)
      {
        SoundFoldingReadsDropped(p, c);
      }
    }
    if ReadsDroppedAsBool(p) && FoldSoundWhereDecided(p) {
      forall rt, names, row | Evaluable(rt, names, row, p)
        ensures EvalPred(rt, names, row, FoldPredicate(p)) == EvalPred(rt, names, row, p)
      {
        SoundIfReadAsBool(p, rt, names, row);
      }
    }
  }

  predicate DropsUnread(p: Predicate) {
    DroppedColumns(p) !! PredColumns(FoldPredicate(p))
  }

  lemma DropsNothingIsSound(p: Predicate)
    requires FoldDropsNothing(p)
    ensures FoldSound(p) && KeepsAcceptance(p)
  {
    forall rt, names, row
      ensures EvalPred(rt, names, row, FoldPredicate(p)) == EvalPred(rt, names, row, p)
    {
      FoldKeepsTruth(rt, names, row, p);
    }
  }

  /** When no dropped column is read elsewhere, folding is sound exactly when it drops nothing. */
  lemma FoldingOfUnreadIsExact(p: Predicate)
    requires DropsUnread(p)
    ensures FoldSound(p) <==> FoldDropsNothing(p)
  {
    DropsNothing(p);
    if FoldDropsNothing(p) {
      DropsNothingIsSound(p);
    } else {
      var c :| c in DroppedColumns(p);
      if FoldSound(p) {
        SoundFoldingReadsDropped(p, c);
        ReadAsBoolIsRead(FoldPredicate(p), c);
      }
    }
  }

  lemma ReadAsBoolIsRead(p: Predicate, c: string)
    requires ReadsAsBool(p, c)
    ensures c in PredColumns(p)
  {
    BoolReadIsNull(IdleRuntime(), [], [], p, c);
  }

  // ---- the rows a filter keeps

  /** Folding keeps the set of accepted rows wherever the predicate can be evaluated. */
  ghost predicate KeepsAcceptance(p: Predicate) {
    forall rt, names, row :: Evaluable(rt, names, row, p) ==>
      (EvalPred(rt, names, row, FoldPredicate(p)) == Some(true) <==> EvalPred(rt, names, row, p) == Some(true))
  }

  ghost predicate NullNeverFalse(p: Predicate) {
    forall rt, names, row :: Evaluable(rt, names, row, p) && EvalPred(rt, names, row, p) == None ==>
      EvalPred(rt, names, row, FoldPredicate(p)) != Some(false)
  }

  /** Keeping the truth is keeping the accepted rows, and turning no null into false. */
  lemma TruthIsAcceptanceAndNull(p: Predicate)
    ensures FoldSound(p) <==> KeepsAcceptance(p) && NullNeverFalse(p)
  {
    if KeepsAcceptance(p) && NullNeverFalse(p) {
      forall rt, names, row | Evaluable(rt, names, row, p)
        ensures EvalPred(rt, names, row, FoldPredicate(p)) == EvalPred(rt, names, row, p)
      {
        NullAfterFolding(rt, names, row, p);
      }
    }
  }

  /** No row of a table on which `p` can be evaluated makes `q` true. */
  ghost predicate NeverTrue(p: Predicate, q: Predicate) {
    forall rt, names, row :: Evaluable(rt, names, row, p) ==> EvalPred(rt, names, row, q) != Some(true)
  }

  /** When no dropped column is read elsewhere, the accepted rows stay the same exactly when folding drops
      nothing, or neither form accepts any row. */
  lemma AcceptanceOfUnreadIsExact(p: Predicate)
    requires DropsUnread(p)
    ensures KeepsAcceptance(p) <==> FoldDropsNothing(p) || (NeverTrue(p, p) && NeverTrue(p, FoldPredicate(p)))
  {
    DropsNothing(p);
    if FoldDropsNothing(p) {
      DropsNothingIsSound(p);
    } else if KeepsAcceptance(p) {
      var c :| c in DroppedColumns(p);
      forall rt, names, row | Evaluable(rt, names, row, p)
        ensures EvalPred(rt, names, row, FoldPredicate(p)) != Some(true)
      {
        SameWithoutDropped(rt, names, row, p, c);
      }
    }
  }

  /** Emptying a dropped column that nothing else reads makes the predicate null and its folded form no different. */
  lemma SameWithoutDropped(rt: Runtime, names: seq<string>, row: Row, p: Predicate, c: string)
    requires DropsUnread(p) && Evaluable(rt, names, row, p) && c in DroppedColumns(p)
    ensures exists row' :: Evaluable(rt, names, row', p) && EvalPred(rt, names, row', p) == None &&
              EvalPred(rt, names, row', FoldPredicate(p)) == EvalPred(rt, names, row, FoldPredicate(p))
  {
    OkBesidesDropped(rt, names, p);
    var at := IndexOf(names, c).value;
    var row' := row[at := Null];
    NullWhereDropped(rt, names, row', c, p);
    var cols := PredColumns(FoldPredicate(p));
    PredReadsItsColumns(rt, cols, names, row', names, row, FoldPredicate(p));
    assert Evaluable(rt, names, row', p);
  }

  // ---- the pass on one filter

  /** The folded filter computes what the written one computes, on every table and with every kernel. */
  ghost predicate FilterFoldingSound(p: Predicate) {
    forall rt, f :: WellFormed(f) ==> Exec(rt, f, Pass4ConstantFolding([Filter(p)])) == Exec(rt, f, [Filter(p)])
  }

  function Filtered(rt: Runtime, f: Frame, p: Predicate): Outcome {
    if f.batches == [] then Ok(f)
    else if PredOk(rt, f.names, p) then Ok(MapBatches(f, f.names, rows => FilterRows(rt, f.names, rows, p))) else Err
  }

  lemma FilterAlone(rt: Runtime, f: Frame, p: Predicate)
    ensures Exec(rt, f, [Filter(p)]) == Filtered(rt, f, p)
  {
    var ops := [Filter(p)];
    ExecInOrder(rt, f, ops);
    assert ops[1..] == [];
  }

  lemma {:induction false} TruePredKeepsAll(rt: Runtime, names: seq<string>, rows: seq<Row>)
    ensures FilterRows(rt, names, rows, And([])) == rows
  {
    if rows != [] {
      TruePredKeepsAll(rt, names, rows[1..]);
    }
  }

  lemma RewriteOne(op: ViewOp, g: ViewOp -> seq<ViewOp>)
    ensures Rewrite([op], g) == g(op)
  {
    assert [op][1..] == [];
    assert Rewrite([op], g) == g(op) + [];
  }

  lemma FoldedAlone(rt: Runtime, f: Frame, p: Predicate)
    ensures Exec(rt, f, Pass4ConstantFolding([Filter(p)])) == Filtered(rt, f, FoldPredicate(p))
  {
    var q := FoldPredicate(p);
    RewriteOne(Filter(p), op => FoldOp(op));
    if q == And([]) {
      ExecInOrder(rt, f, []);
      forall b | 0 <= b < |f.batches| {
        TruePredKeepsAll(rt, f.names, f.batches[b]);
      }
      assert f.batches != [] ==> Filtered(rt, f, q).frame.batches == f.batches;
    } else {
      FilterAlone(rt, f, q);
    }
  }

  lemma {:induction false} SameAcceptedRows(rt: Runtime, names: seq<string>, rows: seq<Row>, p: Predicate)
    requires KeepsAcceptance(p) && PredOk(rt, names, p) && forall i :: 0 <= i < |rows| ==> |rows[i]| == |names|
    ensures FilterRows(rt, names, rows, FoldPredicate(p)) == FilterRows(rt, names, rows, p)
  {
    if rows != [] {
      assert Evaluable(rt, names, rows[0], p);
      SameAcceptedRows(rt, names, rows[1..], p);
    }
  }

  lemma SoundFilterReadsDropped(p: Predicate)
    requires FilterFoldingSound(p)
    ensures DroppedColumns(p) <= PredColumns(FoldPredicate(p))
  {
    var rt, names := IdleRuntime(), SortedNames(PredColumns(FoldPredicate(p)));
    var f := Frame(names, [[]]);
    OkOnItsColumns(rt, names, FoldPredicate(p));
    OkBesidesDropped(rt, names, p);
    FilterAlone(rt, f, p);
    FoldedAlone(rt, f, p);
    assert WellFormed(f) && Filtered(rt, f, p).Ok?;
  }

  lemma SoundFilterKeepsAcceptance(p: Predicate)
    requires FilterFoldingSound(p)
    ensures KeepsAcceptance(p)
  {
    forall rt, names, row | Evaluable(rt, names, row, p)
      ensures EvalPred(rt, names, row, FoldPredicate(p)) == Some(true) <==> EvalPred(rt, names, row, p) == Some(true)
    {
      var f := Frame(names, [[row]]);
      OkBesidesDropped(rt, names, p);
      FilterAlone(rt, f, p);
      FoldedAlone(rt, f, p);
      assert WellFormed(f) && Filtered(rt, f, FoldPredicate(p)) == Filtered(rt, f, p);
      OneRowFiltered(rt, f, row, p);
      OneRowFiltered(rt, f, row, FoldPredicate(p));
    }
  }

  lemma OneRowFiltered(rt: Runtime, f: Frame, row: Row, p: Predicate)
    requires f.batches == [[row]] && PredOk(rt, f.names, p)
    ensures Filtered(rt, f, p).Ok? && |Filtered(rt, f, p).frame.batches| == 1
    ensures Filtered(rt, f, p).frame.batches[0] != [] <==> EvalPred(rt, f.names, row, p) == Some(true)
  {
    assert [row][1..] == [];
    assert FilterRows(rt, f.names, [row], p) == if EvalPred(rt, f.names, row, p) == Some(true) then [row] else [];
    assert Filtered(rt, f, p).frame.batches[0] == FilterRows(rt, f.names, [row], p);
  }

  /** Pass 4 keeps what a filter computes exactly when the folded predicate still reads every dropped column
      (or it would not fail where the written one does), and accepts the same rows. */
  lemma FilterFoldingIsExact(p: Predicate)
    ensures FilterFoldingSound(p) <==> DroppedColumns(p) <= PredColumns(FoldPredicate(p)) && KeepsAcceptance(p)
  {
    if FilterFoldingSound(p) {
      SoundFilterReadsDropped(p);
      SoundFilterKeepsAcceptance(p);
    }
    if DroppedColumns(p) <= PredColumns(FoldPredicate(p)) && KeepsAcceptance(p) {
      forall rt, f | WellFormed(f)
        ensures Exec(rt, f, Pass4ConstantFolding([Filter(p)])) == Exec(rt, f, [Filter(p)])
      {
        FilterAlone(rt, f, p);
        FoldedAlone(rt, f, p);
        SameFiltered(rt, f, p);
      }
    }
  }

  lemma SameFiltered(rt: Runtime, f: Frame, p: Predicate)
    requires WellFormed(f) && DroppedColumns(p) <= PredColumns(FoldPredicate(p)) && KeepsAcceptance(p)
    ensures Filtered(rt, f, FoldPredicate(p)) == Filtered(rt, f, p)
  {
    OkBesidesDropped(rt, f.names, p);
    if PredOk(rt, f.names, FoldPredicate(p)) && f.batches != [] {
      OkReadsColumns(rt, f.names, FoldPredicate(p));
      forall b | 0 <= b < |f.batches| {
        SameAcceptedRows(rt, f.names, f.batches[b], p);
      }
      assert Filtered(rt, f, FoldPredicate(p)).frame.batches == Filtered(rt, f, p).frame.batches;
    }
  }

  /** When no dropped column is read elsewhere, pass 4 keeps what a filter computes exactly when it drops nothing. */
  lemma FilterFoldingOfUnreadIsExact(p: Predicate)
    requires DropsUnread(p)
    ensures FilterFoldingSound(p) <==> FoldDropsNothing(p)
  {
    FilterFoldingIsExact(p);
    DropsNothing(p);
    if FoldDropsNothing(p) {
      DropsNothingIsSound(p);
    }
  }

  // ---- examples

  const AB: seq<string> := ["a", "b"]

  /** Folding `a = true AND b > 0` to `b > 0` keeps a row whose `a` is false. */
  lemma FoldingKeepsAFalseRow(rt: Runtime)
    ensures var b := Compare(Gt, "b", IntLit(0));
            var p := And([Compare(Eq, "a", BoolLit(true)), b]);
            && FoldPredicate(p) == b
            && EvalPred(rt, AB, [Flag(false), Num(1.0)], p) == Some(false)
            && EvalPred(rt, AB, [Flag(false), Num(1.0)], FoldPredicate(p)) == Some(true)
  {
    var b := Compare(Gt, "b", IntLit(0));
    var ps := [Compare(Eq, "a", BoolLit(true)), b];
    assert ps[1..] == [b] && [b][1..] == [];
    assert FoldList([b], true) == [b] && FoldList(ps, true) == [b];
    assert AB[1..] == ["b"] && CellOf(AB, [Flag(false), Num(1.0)], "b") == Num(1.0);
    assert EvalAll(rt, AB, [Flag(false), Num(1.0)], [b]) == Some(true);
    assert EvalPred(rt, AB, [Flag(false), Num(1.0)], ps[0]) == Some(false);
  }

  function FlagEquals(b: bool): Predicate {
    Compare(Eq, "a", BoolLit(b))
  }

  lemma FoldsToSecond(first: Predicate, second: Predicate)
    requires IsConstant(first, true) && !IsConstant(FoldPredicate(second), true)
    ensures FoldPredicate(And([first, second])) == FoldPredicate(second)
  {
    var ps := [first, second];
    assert ps[1..] == [second] && [second][1..] == [];
    assert FoldList([second], true) == [FoldPredicate(second)];
    assert FoldPredicate(first) == first;
    assert FoldList(ps, true) == [FoldPredicate(second)];
  }

  lemma BothMembers(rt: Runtime, names: seq<string>, row: Row, ps: seq<Predicate>)
    requires |ps| == 2
    ensures EvalPred(rt, names, row, And(ps)) == NullAnd(EvalPred(rt, names, row, ps[0]), EvalPred(rt, names, row, ps[1]))
  {
    OneMemberValue(rt, names, row, ps[1..]);
  }

  lemma NegatedFlag(p: Predicate)
    requires p == And([FlagEquals(true), Not(FlagEquals(false))])
    ensures FoldSound(p)
  {
    FoldsToSecond(FlagEquals(true), Not(FlagEquals(false)));
    forall rt, names, row {
      BothMembers(rt, names, row, p.exprs);
    }
  }

  lemma ContradictedFlag(p: Predicate)
    requires p == And([FlagEquals(true), FlagEquals(false)])
    ensures !FoldSound(p)
  {
    FoldsToSecond(FlagEquals(true), FlagEquals(false));
    var rt, names, row := IdleRuntime(), ["a"], [Flag(false)];
    BothMembers(rt, names, row, p.exprs);
    assert CellOf(names, row, "a") == Flag(false);
    OkOnItsColumns(rt, names, p);
    assert Evaluable(rt, names, row, p);
  }

  /** Reading the dropped column elsewhere does not decide by itself: `a = true AND NOT a = false` folds
      soundly, `a = true AND a = false` does not. */
  lemma ReadElsewhereDecidesNothing()
    ensures FoldSound(And([FlagEquals(true), Not(FlagEquals(false))]))
    ensures !FoldSound(And([FlagEquals(true), FlagEquals(false)]))
  {
    NegatedFlag(And([FlagEquals(true), Not(FlagEquals(false))]));
    ContradictedFlag(And([FlagEquals(true), FlagEquals(false)]));
  }
}
