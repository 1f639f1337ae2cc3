/** What the optimiser's passes achieve, besides keeping the meaning: filters stay behind the
    operations that write their columns, folding reaches a normal form, and conjuncts end in
    order of estimated selectivity, ties as written. */
module OptimizerEffects {
  import opened Seqs
  import opened Exprs
  import opened Meaning
  import opened Optimizer

  // ---- pass 1

  /** A filter directly ahead of a Rename or Derive reads no column that operation writes. */
  ghost predicate WellPlaced(out: seq<ViewOp>) {
    forall i, j :: 0 <= i < j < |out| && Ahead(out, i, j) && (out[j].Rename? || out[j].Derive?) ==>
      !ReferencesAny(out[i].pred, Written(out[j]))
  }

  /** Only filters stand from `i` up to `j`, and `out[j]` is not one. */
  ghost predicate Ahead(out: seq<ViewOp>, i: nat, j: nat) {
    i < j < |out| && !out[j].Filter? && forall k :: i <= k < j ==> out[k].Filter?
  }

  lemma {:induction false} PassingFilters(pending: seq<ViewOp>, columns: set<string>)
    requires AllFilters(pending)
    ensures AllFilters(Passing(pending, columns)) && AllFilters(HeldBack(pending, columns))
    ensures forall i :: 0 <= i < |Passing(pending, columns)| ==> !ReferencesAny(Passing(pending, columns)[i].pred, columns)
  {
    if pending != [] {
      PassingFilters(pending[1..], columns);
    }
  }

  lemma GroupThenRest(fs: seq<ViewOp>, op: ViewOp, rest: seq<ViewOp>)
    requires AllFilters(fs) && !op.Filter? && WellPlaced(rest)
    requires op.Rename? || op.Derive? ==> forall i :: 0 <= i < |fs| ==> !ReferencesAny(fs[i].pred, Written(op))
    ensures WellPlaced(fs + [op] + rest)
  {
    var out, n := fs + [op] + rest, |fs|;
    assert out[n] == op;
    forall i, j | 0 <= i < j < |out| && Ahead(out, i, j) && (out[j].Rename? || out[j].Derive?)
      ensures !ReferencesAny(out[i].pred, Written(out[j]))
    {
      if i <= n {
        assert j <= n;
        assert out[i] == fs[i] && out[j] == op;
      } else {
        AheadBehind(fs + [op], rest, i, j);
      }
    }
  }

  lemma AheadBehind(front: seq<ViewOp>, rest: seq<ViewOp>, i: nat, j: nat)
    requires |front| <= i && Ahead(front + rest, i, j)
    ensures Ahead(rest, i - |front|, j - |front|) && (front + rest)[i] == rest[i - |front|] && (front + rest)[j] == rest[j - |front|]
  {
    forall k | i - |front| <= k < j - |front|
      ensures rest[k].Filter?
    {
      assert (front + rest)[k + |front|] == rest[k];
    }
  }

  /** Push-down moves no filter ahead of an operation that writes one of its columns. */
  lemma {:induction false} PushdownPlacesFilters(ops: seq<ViewOp>, pending: seq<ViewOp>)
    requires AllFilters(pending)
    ensures WellPlaced(Pushdown(ops, pending))
    decreases |ops|
  {
    if ops != [] {
      var op := ops[0];
      PassingFilters(pending, Written(op));
      PushdownPlacesFilters(ops[1..], LeftPending(op, pending));
      var rest := Pushdown(ops[1..], LeftPending(op, pending));
      if op.Filter? {
        assert Emitted(op, pending) + rest == rest;
      } else if op.Rename? || op.Derive? {
        GroupThenRest(Passing(pending, Written(op)), op, rest);
      } else {
        GroupThenRest(pending, op, rest);
      }
    }
  }

  // ---- pass 4

  /** No member that folding takes for a constant, and no And or Or of one member. */
  predicate Folded(p: Predicate)
    decreases p
  {
    match p
    case And(exprs) => |exprs| != 1 && AllFolded(exprs, true)
    case Or(exprs) => |exprs| != 1 && AllFolded(exprs, false)
    case Not(expr) => Folded(expr)
    case _ => true
  }

  predicate AllFolded(ps: seq<Predicate>, unit: bool)
    decreases ps
  {
    ps == [] || (Folded(ps[0]) && !IsConstant(ps[0], unit) && AllFolded(ps[1..], unit))
  }

  /** Folding ends in the normal form, which folding again leaves alone. */
  lemma {:induction false} FoldingNormalises(p: Predicate)
    ensures Folded(FoldPredicate(p))
    ensures Folded(p) ==> FoldPredicate(p) == p
    decreases p
  {
    match p
    case And(exprs) => FoldingNormalisesAll(exprs, true);
    case Or(exprs) => FoldingNormalisesAll(exprs, false);
    case Not(expr) => FoldingNormalises(expr);
    case _ =>
  }

  lemma {:induction false} FoldingNormalisesAll(ps: seq<Predicate>, unit: bool)
    ensures AllFolded(FoldList(ps, unit), unit)
    ensures AllFolded(ps, unit) ==> FoldList(ps, unit) == ps
    decreases ps
  {
    if ps != [] {
      FoldingNormalises(ps[0]);
      FoldingNormalisesAll(ps[1..], unit);
      var head := FoldPredicate(ps[0]);
      if !IsConstant(head, unit) {
        assert ([head] + FoldList(ps[1..], unit))[1..] == FoldList(ps[1..], unit);
      }
    }
  }

  /** Folding twice is folding once. */
  lemma FoldingIsIdempotent(p: Predicate)
    ensures FoldPredicate(FoldPredicate(p)) == FoldPredicate(p)
  {
    FoldingNormalises(p);
    FoldingNormalises(FoldPredicate(p));
  }

  // ---- pass 5

  ghost predicate ByScore(score: Predicate -> real, ps: seq<Predicate>) {
    forall i, j :: 0 <= i < j < |ps| ==> score(ps[i]) <= score(ps[j])
  }

  /** The conjuncts of one score, in order. */
  function OfScore(score: Predicate -> real, ps: seq<Predicate>, s: real): seq<Predicate> {
    if ps == [] then []
    else if score(ps[0]) == s then [ps[0]] + OfScore(score, ps[1..], s)
    else OfScore(score, ps[1..], s)
  }

  lemma {:induction false} InsertedInOrder(score: Predicate -> real, p: Predicate, sorted: seq<Predicate>)
    requires ByScore(score, sorted)
    ensures ByScore(score, InsertByScore(score, p, sorted))
    ensures forall x :: x in InsertByScore(score, p, sorted) ==> x == p || x in sorted
  {
    if sorted != [] && score(p) > score(sorted[0]) {
      var rest := InsertByScore(score, p, sorted[1..]);
      InsertedInOrder(score, p, sorted[1..]);
      forall j | 0 <= j < |rest|
        ensures score(sorted[0]) <= score(rest[j])
      {
        assert rest[j] in rest;
      }
    }
  }

  lemma {:induction false} InsertedStably(score: Predicate -> real, p: Predicate, sorted: seq<Predicate>, s: real)
    requires ByScore(score, sorted)
    ensures OfScore(score, InsertByScore(score, p, sorted), s) == if score(p) == s then [p] + OfScore(score, sorted, s) else OfScore(score, sorted, s)
  {
    if sorted == [] || score(p) <= score(sorted[0]) {
      OfScoreCons(score, p, sorted, s);
    } else {
      var head, tail := sorted[0], sorted[1..];
      InsertedStably(score, p, tail, s);
      OfScoreCons(score, head, InsertByScore(score, p, tail), s);
      OfScoreCons(score, head, tail, s);
      assert sorted == [head] + tail;
    }
  }

  lemma OfScoreCons(score: Predicate -> real, p: Predicate, rest: seq<Predicate>, s: real)
    ensures OfScore(score, [p] + rest, s) == if score(p) == s then [p] + OfScore(score, rest, s) else OfScore(score, rest, s)
  {
    assert ([p] + rest)[1..] == rest;
  }

  /** Conjuncts end in ascending order of estimated selectivity, and those of equal score in written order. */
  lemma {:induction false} ReorderingSorts(score: Predicate -> real, ps: seq<Predicate>, s: real)
    ensures ByScore(score, SortByScore(score, ps))
    ensures OfScore(score, SortByScore(score, ps), s) == OfScore(score, ps, s)
  {
    if ps != [] {
      ReorderingSorts(score, ps[1..], s);
      InsertedInOrder(score, ps[0], SortByScore(score, ps[1..]));
      InsertedStably(score, ps[0], SortByScore(score, ps[1..]), s);
    }
  }
}
