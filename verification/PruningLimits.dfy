/** When the bitmap and bloom lookups rule out no row group they should keep: exact conditions,
    over every kernel, hash function, file and valid index. */
module PruningLimits {
  import opened Seqs
  import opened TextOrder
  import opened Exprs
  import opened Executor
  import opened Pruning
  import opened FilteredTiles
  import OptimizerLimits
  import BloomFilter
  import Bits
  import R = RoaringIndex

  // ---- one text that reads as a number and a flag

  /** A kernel to which one text, and no other, reads as the number `x` and the flag `b`. */
  function ReadsOne(s: string, x: real, b: bool): Runtime {
    OptimizerLimits.IdleRuntime().(
      parseNumber := (t: string) => if t == s then Some(x) else None,
      parseBool := (t: string) => if t == s then Some(b) else None)
  }

  /** The kernel that takes the text `s` for the value of a literal that is no text. */
  function ReadsAs(s: string, value: Literal): Runtime {
    ReadsOne(s, if value.IntLit? then value.i as real else if value.FloatLit? then value.f else 0.0, value.BoolLit? && value.b)
  }

  /** To that kernel the text equals the literal, and compares with every other one. */
  lemma ReadsAsCompares(s: string, value: Literal, other: Literal)
    requires !Textual(value)
    ensures EvalCompare(ReadsAs(s, value), Str(s), value, Eq) == Some(true)
    ensures EvalCompare(ReadsAs(s, value), Str(s), other, Eq).Some?
  {
  }

  lemma {:induction false} InHasOne(rt: Runtime, cell: Cell, values: seq<Literal>, k: nat)
    requires k < |values| && EvalCompare(rt, cell, values[k], Eq) == Some(true)
    requires forall i :: 0 <= i < |values| ==> EvalCompare(rt, cell, values[i], Eq).Some?
    ensures EvalIn(rt, cell, values) == Some(true)
  {
    if k > 0 {
      InHasOne(rt, cell, values[1..], k - 1);
    } else {
      InIsDecided(rt, cell, values[1..]);
    }
  }

  lemma {:induction false} InIsDecided(rt: Runtime, cell: Cell, values: seq<Literal>)
    requires forall i :: 0 <= i < |values| ==> EvalCompare(rt, cell, values[i], Eq).Some?
    ensures EvalIn(rt, cell, values).Some?
  {
    if values != [] {
      InIsDecided(rt, cell, values[1..]);
    }
  }

  /** A text that is none of the values, and the kernel that takes it for one of them. */
  lemma AnotherTextMatches(values: seq<Literal>, k: nat, s: string)
    requires k < |values| && !Textual(values[k]) && s == Longer(Texts(values))
    ensures EvalIn(ReadsAs(s, values[k]), Str(s), values) == Some(true)
    ensures TextLit(s) !in values && s !in Texts(values)
  {
    forall i | 0 <= i < |values| {
      ReadsAsCompares(s, values[k], values[i]);
    }
    InHasOne(ReadsAs(s, values[k]), Str(s), values, k);
    TextMembers(values, s);
    if s in Texts(values) {
      LongerIsFresh(Texts(values), s);
    }
  }

  ghost predicate AllTextual(values: seq<Literal>) {
    forall i :: 0 <= i < |values| ==> Textual(values[i])
  }

  // ---- the bitmap index and In

  /** Row `i` of row group `g` makes the predicate true. */
  ghost predicate HasMatch(rt: Runtime, names: seq<string>, file: seq<RowGroup>, pred: Predicate, g: nat, i: nat) {
    g < |file| && i < |file[g].rows| && EvalPred(rt, names, file[g].rows[i], pred) == Some(true)
  }

  ghost predicate UsableBitmap(f: R.Filters, names: seq<string>, file: seq<RowGroup>, pred: Predicate) {
    R.WellSized(f) && ValidBitmap(f, file, names, pred)
  }

  /** With a valid bitmap index every row group that holds a matching row is read, whatever the kernel and the file. */
  ghost predicate BitmapSound(pred: Predicate) {
    forall rt, names, file, f, g: nat, i: nat :: UsableBitmap(f, names, file, pred) && HasMatch(rt, names, file, pred, g, i) ==>
      g in Qualifying(names, file, pred, Indexes(None, Some(f)))
  }

  lemma QualifyingMember(names: seq<string>, file: seq<RowGroup>, pred: Predicate, ix: Indexes, g: nat)
    requires SizedBloom(ix.bloom)
    ensures g in Qualifying(names, file, pred, ix) <==> Qualifies(names, file, pred, ix, g)
  {
    ListedMember(|file|, Qualifier(names, file, pred, ix), g);
  }

  /** The bitmap lookup for an In is sound exactly when no value is a text, for then nothing is looked up, or all are
      texts or null. */
  lemma BitmapInIsExact(column: string, values: seq<Literal>)
    ensures BitmapSound(In(column, values)) <==> Texts(values) == [] || AllTextual(values)
  {
    var pred := In(column, values);
    if Texts(values) == [] || AllTextual(values) {
      forall rt, names, file, f, g: nat, i: nat | UsableBitmap(f, names, file, pred) && HasMatch(rt, names, file, pred, g, i)
        ensures g in Qualifying(names, file, pred, Indexes(None, Some(f)))
      {
        QualifyingMember(names, file, pred, Indexes(None, Some(f)), g);
        if UsesBitmap(names, pred, Indexes(None, Some(f))) {
          BitmapKeepsMatches(rt, names, file, pred, f, g, i);
        }
      }
    } else {
      var k :| 0 <= k < |values| && !Textual(values[k]);
      BitmapMissesText(pred, k, Longer(Texts(values)));
    }
  }

  /** A file whose first row group holds only `s`, and whose second only `t`. */
  function TwoTexts(s: string, t: string): seq<RowGroup> {
    [RowGroup([[Str(s)]], []), RowGroup([[Str(t)]], [])]
  }

  /** One word with one set bit. */
  function OneBit(width: nat, k: nat): Bits.Word {
    seq(width, j => j == k)
  }

  /** The index of that file. */
  function TwoTextIndex(s: string, t: string): R.Filters {
    map[s := [OneBit(Bits.WORD, 0)], t := [OneBit(Bits.WORD, 1)]]
  }

  lemma OneWordBit(width: nat, k: nat, g: nat)
    requires k < width
    ensures Bits.HasBit([OneBit(width, k)], width, g) <==> g == k
  {
    assert [OneBit(width, k)][1..] == [];
  }

  lemma TwoTextIndexed(s: string, t: string)
    requires s != t
    ensures R.WellSized(TwoTextIndex(s, t)) && R.Indexes(TwoTextIndex(s, t), FileTexts(TwoTexts(s, t), 0))
    ensures TextColumn(TwoTexts(s, t), 0)
  {
    var f, texts := TwoTextIndex(s, t), FileTexts(TwoTexts(s, t), 0);
    assert texts[0] == [Some(s)] && texts[1] == [Some(t)];
    forall v, g: nat
      ensures R.Recorded(f, v, g) <==> g < |texts| && Some(v) in texts[g]
    {
      OneWordBit(Bits.WORD, 0, g);
      OneWordBit(Bits.WORD, 1, g);
    }
    forall v
      ensures v in f <==> R.Occurs(texts, v)
    {
      assert Some(s) in texts[0] && Some(t) in texts[1];
    }
  }

  lemma TwoTextsUsable(f: R.Filters, names: seq<string>, file: seq<RowGroup>, pred: Predicate, s: string, t: string)
    requires s != t && file == TwoTexts(s, t) && f == TwoTextIndex(s, t)
    requires Applicable(pred).Some? && names == [Applicable(pred).value.0]
    ensures UsableBitmap(f, names, file, pred)
  {
    TwoTextIndexed(s, t);
    assert IndexOf(names, Applicable(pred).value.0) == Some(0);
  }

  lemma TwoTextsMatch(rt: Runtime, names: seq<string>, file: seq<RowGroup>, pred: Predicate, s: string, t: string)
    requires file == TwoTexts(s, t) && pred.In? && names == [pred.column] && EvalIn(rt, Str(s), pred.values) == Some(true)
    ensures HasMatch(rt, names, file, pred, 0, 0)
  {
    assert IndexOf(names, pred.column) == Some(0);
    assert CellOf(names, file[0].rows[0], pred.column) == Str(s);
  }

  lemma TwoTextsMissed(f: R.Filters, names: seq<string>, file: seq<RowGroup>, pred: Predicate, s: string, t: string)
    requires f == TwoTextIndex(s, t) && Applicable(pred).Some? && names == [Applicable(pred).value.0]
    requires s !in Applicable(pred).value.1 && t in Applicable(pred).value.1
    ensures 0 !in Qualifying(names, file, pred, Indexes(None, Some(f)))
  {
    NotRecorded(s, t, Applicable(pred).value.1);
    QualifyingMember(names, file, pred, Indexes(None, Some(f)), 0);
  }

  lemma MissedMatch(rt: Runtime, names: seq<string>, file: seq<RowGroup>, f: R.Filters, pred: Predicate)
    requires UsableBitmap(f, names, file, pred) && HasMatch(rt, names, file, pred, 0, 0)
    requires 0 !in Qualifying(names, file, pred, Indexes(None, Some(f)))
    ensures !BitmapSound(pred)
  {
  }

  /** The first row group matches by the kernel's reading, and none of the texts looked up is recorded in it. */
  lemma BitmapMissesText(pred: Predicate, k: nat, s: string)
    requires pred.In? && k < |pred.values| && !Textual(pred.values[k]) && Texts(pred.values) != [] && s == Longer(Texts(pred.values))
    ensures !BitmapSound(pred)
  {
    var names, t := [pred.column], Texts(pred.values)[0];
    var rt, file, f := ReadsAs(s, pred.values[k]), TwoTexts(s, t), TwoTextIndex(s, t);
    AnotherTextMatches(pred.values, k, s);
    assert t in Texts(pred.values);
    TwoTextsUsable(f, names, file, pred, s, t);
    TwoTextsMatch(rt, names, file, pred, s, t);
    TwoTextsMissed(f, names, file, pred, s, t);
    MissedMatch(rt, names, file, f, pred);
  }

  lemma NotRecorded(s: string, t: string, texts: seq<string>)
    requires s !in texts && t in texts
    ensures !R.AnyRecorded(TwoTextIndex(s, t), texts, 0) && !R.Recorded(TwoTextIndex(s, t), t, 0)
    ensures !BitmapKeeps(TwoTextIndex(s, t), texts, 0)
  {
    OneWordBit(Bits.WORD, 1, 0);
    assert |texts| == 1 ==> texts[0] == t;
  }

  // ---- the bloom filters

  /** No row group pruned by its statistics and a valid bloom index holds a matching row, whatever the kernel and the hash function. */
  ghost predicate PruneSound(pred: Predicate) {
    forall rt, names, rg, g: nat, i: nat, bloom: Option<BloomIndex> ::
      ValidRowGroup(rt, bloom, g, rg) && i < |rg.rows| && CanPrune(pred, rg, g, names, bloom) ==>
        EvalPred(rt, names, rg.rows[i], pred) != Some(true)
  }

  /** A hash function that tells one text from every other literal. */
  function OneTextHash(s: string): Literal -> nat {
    (value: Literal) => if value == TextLit(s) then 0 else 1
  }

  /** The bits of a filter over one value whose hash is zero. */
  function ZeroHashBits(): BloomFilter.FilterBits {
    BloomFilter.FilterBits([OneBit(8, 0)] + seq(7, i => Bits.Zero(8)), 64)
  }

  function OneTextBloom(s: string): BloomIndex {
    BloomIndex(map[(0, 0) := ZeroHashBits()], OneTextHash(s))
  }

  lemma ZeroHashBit(g: nat)
    ensures Bits.HasBit(ZeroHashBits().bits, 8, g) <==> g == 0
  {
    var bits := ZeroHashBits().bits;
    assert bits[1..] == seq(7, i => Bits.Zero(8));
    if g >= 8 {
      BloomFilter.ClearBytes(bits[1..], g - 8);
    }
  }

  lemma ZeroHashHeld(hashes: seq<nat>)
    requires hashes == [0]
    ensures BloomFilter.Holds(ZeroHashBits(), hashes)
    ensures !BloomFilter.MightContain(ZeroHashBits(), 1)
  {
    var f := ZeroHashBits();
    assert BloomFilter.Probe(0, 0, 64) == 0 && BloomFilter.Probe(0, 1, 64) == 0 && BloomFilter.Probe(1, 0, 64) == 1;
    forall g: nat | g < f.nBits
      ensures Bits.HasBit(f.bits, 8, g) <==> BloomFilter.Probed(hashes, f.nBits, g)
    {
      ZeroHashBit(g);
      assert hashes[0] == 0;
    }
    ZeroHashBit(1);
  }

  /** A row group of one text, and the bloom index over it. */
  lemma OneTextBloomIsValid(rt: Runtime, s: string, rg: RowGroup)
    requires rg == RowGroup([[Str(s)]], [])
    ensures ValidRowGroup(rt, Some(OneTextBloom(s)), 0, rg)
    ensures forall value :: value != TextLit(s) ==> MightSkip(OneTextBloom(s), 0, 0, value)
  {
    var bloom := OneTextBloom(s);
    var texts := TextsOf(rt, rg.rows, 0);
    assert texts == [Some(s)];
    var hashes := BloomFilter.HashesOf(t => bloom.literalHash(TextLit(t)), bloom.literalHash(NullLit), texts);
    assert hashes == [0];
    ZeroHashHeld(hashes);
  }

  /** The bloom clause for an In is sound exactly when every value is a text or null. */
  lemma BloomInIsExact(column: string, values: seq<Literal>)
    ensures PruneSound(In(column, values)) <==> AllTextual(values)
  {
    var pred := In(column, values);
    if AllTextual(values) {
      SafeIsSound(pred);
    } else {
      var k :| 0 <= k < |values| && !Textual(values[k]);
      BloomDeniesText(column, values, k, Longer(Texts(values)));
    }
  }

  /** The filter holds the text's hash and denies every value of the In; the kernel takes the text for one of them. */
  lemma BloomDeniesText(column: string, values: seq<Literal>, k: nat, s: string)
    requires k < |values| && !Textual(values[k]) && s == Longer(Texts(values))
    ensures !PruneSound(In(column, values))
  {
    var rt, rg, pred, bloom := ReadsAs(s, values[k]), RowGroup([[Str(s)]], []), In(column, values), OneTextBloom(s);
    AnotherTextMatches(values, k, s);
    OneTextMatches(rt, column, s, rg);
    forall i | 0 <= i < |values|
      ensures MightSkip(bloom, 0, 0, values[i])
    {
      assert values[i] in values;
    }
    assert BloomPrunes(Some(bloom), 0, [column], pred);
    PrunedMatch(rt, [column], rg, 0, 0, Some(bloom), pred);
  }

  lemma PrunedMatch(rt: Runtime, names: seq<string>, rg: RowGroup, g: nat, i: nat, bloom: Option<BloomIndex>, pred: Predicate)
    requires ValidRowGroup(rt, bloom, g, rg) && i < |rg.rows| && CanPrune(pred, rg, g, names, bloom)
    requires EvalPred(rt, names, rg.rows[i], pred) == Some(true)
    ensures !PruneSound(pred)
  {
  }

  lemma OneTextMatches(rt: Runtime, column: string, s: string, rg: RowGroup)
    requires rg == RowGroup([[Str(s)]], [])
    ensures ValidRowGroup(rt, Some(OneTextBloom(s)), 0, rg)
    ensures forall value :: value != TextLit(s) ==> MightSkip(OneTextBloom(s), 0, 0, value)
    ensures IndexOf([column], column) == Some(0) && CellOf([column], rg.rows[0], column) == Str(s)
  {
    OneTextBloomIsValid(rt, s, rg);
  }

  /** The bloom clause for an equality is sound exactly when the value is a text or null. */
  lemma BloomEqIsExact(column: string, value: Literal)
    ensures PruneSound(Compare(Eq, column, value)) <==> Textual(value)
  {
    var pred := Compare(Eq, column, value);
    if Textual(value) {
      SafeIsSound(pred);
    } else {
      var s := "x";
      var rt, rg := ReadsAs(s, value), RowGroup([[Str(s)]], []);
      ReadsAsCompares(s, value, value);
      OneTextMatches(rt, column, s, rg);
      PrunedMatch(rt, [column], rg, 0, 0, Some(OneTextBloom(s)), pred);
    }
  }

  lemma SafeIsSound(pred: Predicate)
    requires BloomSafe(pred)
    ensures PruneSound(pred)
  {
    forall rt, names, rg, g: nat, i: nat, bloom: Option<BloomIndex> |
        ValidRowGroup(rt, bloom, g, rg) && i < |rg.rows| && CanPrune(pred, rg, g, names, bloom)
      ensures EvalPred(rt, names, rg.rows[i], pred) != Some(true)
    {
      PruneIsSound(rt, names, rg, g, i, pred, bloom);
    }
  }

  /** Every answer `can_prune_row_group` gives on the way through And and Or is sound. */
  ghost predicate SoundThroughout(pred: Predicate)
    decreases pred
  {
    PruneSound(pred) &&
    match pred
    case And(exprs) => AllSoundThroughout(exprs)
    case Or(exprs) => AllSoundThroughout(exprs)
    case _ => true
  }

  ghost predicate AllSoundThroughout(ps: seq<Predicate>)
    decreases ps
  {
    ps == [] || (SoundThroughout(ps[0]) && AllSoundThroughout(ps[1..]))
  }

  /** That is so exactly when every equality and every In the recursion reaches is with texts and null. */
  lemma {:induction false} BloomIsExact(pred: Predicate)
    ensures SoundThroughout(pred) <==> BloomSafe(pred)
    decreases pred
  {
    match pred
    case Compare(op, column, value) =>
      if op == Eq {
        BloomEqIsExact(column, value);
      } else {
        SafeIsSound(pred);
      }
    case In(column, values) => BloomInIsExact(column, values);
    case And(exprs) =>
      AllBloomIsExact(exprs);
      if AllBloomSafe(exprs) { SafeIsSound(pred); }
    case Or(exprs) =>
      AllBloomIsExact(exprs);
      if AllBloomSafe(exprs) { SafeIsSound(pred); }
    case _ => SafeIsSound(pred);
  }

  lemma {:induction false} AllBloomIsExact(ps: seq<Predicate>)
    ensures AllSoundThroughout(ps) <==> AllBloomSafe(ps)
    decreases ps
  {
    if ps != [] {
      BloomIsExact(ps[0]);
      AllBloomIsExact(ps[1..]);
    }
  }
}
