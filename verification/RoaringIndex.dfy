/** The row-group bitmap index of crates/tv-engine/src/roaring_index.rs: for each text value, one
    bit per row group that contains it, enumerated by clearing the lowest set bit of each word. */
module RoaringIndex {
  import opened Seqs
  import opened Bits

  const MAX_CARDINALITY: nat := 10_000

  /** The elements below `n`, in order. */
  function Keep(s: seq<nat>, n: nat): seq<nat> {
    if s == [] then [] else if s[0] < n then [s[0]] + Keep(s[1..], n) else Keep(s[1..], n)
  }

  lemma {:induction false} KeepAppend(a: seq<nat>, b: seq<nat>, n: nat)
    ensures Keep(a + b, n) == Keep(a, n) + Keep(b, n)
  {
    if a == [] {
      assert a + b == b;
    } else {
      assert (a + b)[1..] == a[1..] + b;
      KeepAppend(a[1..], b, n);
    }
  }

  lemma {:induction false} KeepMember(s: seq<nat>, n: nat, g: nat)
    ensures g in Keep(s, n) <==> g in s && g < n
  {
    if s != [] {
      KeepMember(s[1..], n, g);
      assert s == [s[0]] + s[1..];
    }
  }

  lemma {:induction false} KeepAscends(s: seq<nat>, n: nat)
    requires StrictlyAscending(s)
    ensures StrictlyAscending(Keep(s, n))
  {
    if s != [] {
      KeepAscends(s[1..], n);
      var tail := Keep(s[1..], n);
      forall i | 0 <= i < |tail|
        ensures s[0] < tail[i]
      {
        KeepMember(s[1..], n, tail[i]);
      }
    }
  }

  /** The row groups below `nRg` whose bit is set, ascending and without repeats. */
  ghost predicate ListsBits(words: seq<Word>, nRg: nat, result: seq<nat>) {
    StrictlyAscending(result) && forall g: nat :: g in result <==> g < nRg && HasBit(words, WORD, g)
  }

  /** The bits of `w` are still to be listed after `result`. */
  ghost predicate Listing(result: seq<nat>, w: Word, base: nat, nRg: nat, all: seq<nat>) {
    result + Keep(Positions(w, base), nRg) == all
  }

  lemma ListLowest(result: seq<nat>, w: Word, base: nat, nRg: nat, all: seq<nat>)
    requires !IsZero(w) && Listing(result, w, base, nRg, all)
    ensures var rg := base + TrailingZeros(w);
            Listing(if rg < nRg then result + [rg] else result, WithoutLowest(w), base, nRg, all)
    ensures |Positions(WithoutLowest(w), base)| < |Positions(w, base)|
  {
    var rg, rest := base + TrailingZeros(w), Positions(WithoutLowest(w), base);
    ClearLowest(w, base);
    KeepOne(rg, rest, nRg);
    Reassociate(result, [rg], Keep(rest, nRg));
  }

  lemma ListingEnds(result: seq<nat>, w: Word, base: nat, nRg: nat, all: seq<nat>)
    ensures Listing([], w, base, nRg, Keep(Positions(w, base), nRg))
    ensures IsZero(w) && Listing(result, w, base, nRg, all) ==> result == all
  {
    if IsZero(w) {
      PositionsOfZero(w, base);
      assert result + [] == result;
    }
  }

  method BitsOfWord(word: Word, base: nat, nRg: nat) returns (result: seq<nat>)
    ensures result == Keep(Positions(word, base), nRg)
  {
    result := [];
    var w := word;
    ghost var all := Keep(Positions(word, base), nRg);
    ListingEnds(result, word, base, nRg, all);
    while !IsZero(w)
      invariant Listing(result, w, base, nRg, all)
      decreases |Positions(w, base)|
    {
      ListLowest(result, w, base, nRg, all);
      var rg := base + TrailingZeros(w);
      if rg < nRg {
        result := result + [rg];
      }
      w := WithoutLowest(w);
    }
    ListingEnds(result, w, base, nRg, all);
  }

  lemma KeepOne(g: nat, s: seq<nat>, n: nat)
    ensures Keep([g] + s, n) == if g < n then [g] + Keep(s, n) else Keep(s, n)
  {
    assert ([g] + s)[1..] == s;
  }

  method ListBits(words: seq<Word>, nRg: nat) returns (result: seq<nat>)
    requires AllWords(words, WORD)
    ensures ListsBits(words, nRg, result)
  {
    result := [];
    for i := 0 to |words|
      invariant |Flatten(words[..i])| == i * WORD
      invariant result == Keep(Positions(Flatten(words[..i]), 0), nRg)
    {
      var base := i * WORD;
      var part := BitsOfWord(words[i], base, nRg);
      FlattenNext(words, i);
      PositionsAppend(Flatten(words[..i]), words[i], 0);
      KeepAppend(Positions(Flatten(words[..i]), 0), Positions(words[i], base), nRg);
      result := result + part;
    }
    assert words[..|words|] == words;
    WordsPositions(words, WORD);
    KeepAscends(Positions(Flatten(words), 0), nRg);
    forall g: nat {
      KeepMember(Positions(Flatten(words), 0), nRg, g);
    }
  }

  /** A bitmask with at least `word + 1` words, the added ones clear. */
  method Padded(mask: seq<Word>, word: nat) returns (padded: seq<Word>)
    requires AllWords(mask, WORD)
    ensures AllWords(padded, WORD) && |padded| > word
    ensures forall g: nat :: HasBit(padded, WORD, g) <==> HasBit(mask, WORD, g)
  {
    padded := mask;
    while |padded| <= word
      invariant AllWords(padded, WORD)
      invariant forall g: nat :: HasBit(padded, WORD, g) <==> HasBit(mask, WORD, g)
      decreases word + 1 - |padded|
    {
      forall g: nat {
        PushedZero(padded, g);
      }
      padded := padded + [Zero(WORD)];
    }
  }

  lemma {:induction false} PushedZero(words: seq<Word>, g: nat)
    requires AllWords(words, WORD)
    ensures HasBit(words + [Zero(WORD)], WORD, g) <==> HasBit(words, WORD, g)
  {
    if words == [] {
      ZeroBits(WORD, g);
    } else if g >= WORD {
      PushedZero(words[1..], g - WORD);
      assert (words + [Zero(WORD)])[1..] == words[1..] + [Zero(WORD)];
    }
  }

  lemma {:induction false} ZeroBits(width: nat, g: nat)
    ensures g < width ==> !Zero(width)[g]
  {
    if 0 < g < width {
      ZeroBits(width - 1, g - 1);
    }
  }

  lemma {:induction false} SetOneBit(words: seq<Word>, q: nat, r: nat, g: nat)
    requires AllWords(words, WORD) && q < |words| && r < WORD
    ensures HasBit(words[q := words[q][r := true]], WORD, g) <==> g == q * WORD + r || HasBit(words, WORD, g)
  {
    var marked := words[q := words[q][r := true]];
    if q == 0 {
      assert marked[1..] == words[1..];
    } else {
      assert marked[1..] == words[1..][q - 1 := words[1..][q - 1][r := true]];
      if g >= WORD {
        SetOneBit(words[1..], q - 1, r, g - WORD);
      }
    }
  }

  type Filters = map<string, seq<Word>>

  ghost predicate WellSized(f: Filters) {
    forall v :: v in f ==> AllWords(f[v], WORD)
  }

  /** Whether `value` has been recorded in row group `rg`. */
  predicate Recorded(f: Filters, value: string, rg: nat) {
    value in f && HasBit(f[value], WORD, rg)
  }

  /** `after` records what `before` does and, besides, `values` in row group `rg`. */
  ghost predicate Adds(before: Filters, after: Filters, values: set<string>, rg: nat) {
    && after.Keys == before.Keys + values
    && forall v, g: nat {:trigger Recorded(after, v, g)} :: Recorded(after, v, g) <==> Recorded(before, v, g) || (v in values && g == rg)
  }

  lemma AddsOne(f: Filters, value: string, padded: seq<Word>, q: nat, r: nat)
    requires AllWords(padded, WORD) && q < |padded| && r < WORD
    requires forall g: nat :: HasBit(padded, WORD, g) <==> Recorded(f, value, g)
    ensures Adds(f, f[value := padded[q := padded[q][r := true]]], {value}, q * WORD + r)
  {
    var after := f[value := padded[q := padded[q][r := true]]];
    forall v, g: nat
      ensures Recorded(after, v, g) <==> Recorded(f, v, g) || (v in {value} && g == q * WORD + r)
    {
      SetOneBit(padded, q, r, g);
    }
  }

  lemma AddsThen(a: Filters, b: Filters, c: Filters, vs: set<string>, ws: set<string>, rg: nat)
    requires Adds(a, b, vs, rg) && Adds(b, c, ws, rg)
    ensures Adds(a, c, vs + ws, rg)
  {
    forall v, g: nat
      ensures Recorded(c, v, g) <==> Recorded(a, v, g) || (v in vs + ws && g == rg)
    {
      assert Recorded(b, v, g) <==> Recorded(a, v, g) || (v in vs && g == rg);
    }
  }

  ghost predicate AnyRecorded(f: Filters, values: seq<string>, rg: nat) {
    exists v :: v in values && Recorded(f, v, rg)
  }

  lemma OneMoreValue(f: Filters, values: seq<string>, v: string, rg: nat)
    ensures AnyRecorded(f, values + [v], rg) <==> AnyRecorded(f, values, rg) || Recorded(f, v, rg)
  {
    if Recorded(f, v, rg) {
      assert v in values + [v];
    }
    if AnyRecorded(f, values, rg) {
      var x :| x in values && Recorded(f, x, rg);
      assert x in values + [v];
    }
  }

  class RoaringIndex {
    var filters: Filters
    const nRowGroups: nat

    ghost predicate Valid()
      reads this
    {
      WellSized(filters)
    }

    constructor (n: nat)
      ensures Valid() && filters == map[] && nRowGroups == n
    {
      filters, nRowGroups := map[], n;
    }

    method Insert(value: string, rgIdx: nat)
      requires Valid()
      modifies this
      ensures Valid() && Adds(old(filters), filters, {value}, rgIdx)
    {
      var word, bit := rgIdx / WORD, rgIdx % WORD;
      assert rgIdx == word * WORD + bit;
      var entry := if value in filters then filters[value] else [];
      var padded := Padded(entry, word);
      AddsOne(filters, value, padded, word, bit);
      filters := filters[value := padded[word := padded[word][bit := true]]];
    }

    /** `None` for a value the index has never seen; otherwise exactly its row groups below `nRg`, ascending. */
    method RowGroupsForEq(value: string, nRg: nat) returns (result: Option<seq<nat>>)
      requires Valid()
      ensures result.None? <==> value !in filters
      ensures result.Some? ==> StrictlyAscending(result.value)
      ensures result.Some? ==> forall g: nat :: g in result.value <==> g < nRg && Recorded(filters, value, g)
    {
      if value !in filters {
        return None;
      }
      var list := ListBits(filters[value], nRg);
      result := Some(list);
    }

    /** Exactly the row groups below `nRg` recorded for any of the values, ascending. */
    method RowGroupsForIn(values: seq<string>, nRg: nat) returns (result: seq<nat>)
      requires Valid()
      ensures StrictlyAscending(result)
      ensures forall g: nat :: g in result <==> g < nRg && AnyRecorded(filters, values, g)
    {
      var nWords := (nRg + WORD - 1) / WORD;
      var union := seq(nWords, i => Zero(WORD));
      ZeroWords(union);
      for j := 0 to |values|
        invariant |union| == nWords && AllWords(union, WORD)
        invariant forall g: nat :: HasBit(union, WORD, g) <==> g < nWords * WORD && AnyRecorded(filters, values[..j], g)
      {
        assert values[..j + 1] == values[..j] + [values[j]];
        forall g: nat {
          OneMoreValue(filters, values[..j], values[j], g);
        }
        if values[j] in filters {
          union := OrInto(union, filters[values[j]]);
        }
      }
      assert values[..|values|] == values;
      result := ListBits(union, nRg);
    }
  }

  lemma ZeroWords(words: seq<Word>)
    requires forall i :: 0 <= i < |words| ==> words[i] == Zero(WORD)
    ensures forall g: nat :: !HasBit(words, WORD, g)
  {
    forall g: nat
      ensures !HasBit(words, WORD, g)
    {
      ZeroWord(words, g);
    }
  }

  lemma {:induction false} ZeroWord(words: seq<Word>, g: nat)
    requires forall i :: 0 <= i < |words| ==> words[i] == Zero(WORD)
    ensures !HasBit(words, WORD, g)
  {
    if words != [] {
      if g >= WORD {
        ZeroWord(words[1..], g - WORD);
      } else {
        ZeroBits(WORD, g);
      }
    }
  }

  /** Ors the words of `mask` into those of `union`, ignoring words past its end. */
  method OrInto(union: seq<Word>, mask: seq<Word>) returns (result: seq<Word>)
    requires AllWords(union, WORD) && AllWords(mask, WORD)
    ensures |result| == |union| && AllWords(result, WORD)
    ensures forall g: nat :: HasBit(result, WORD, g) <==> HasBit(union, WORD, g) || (g < |union| * WORD && HasBit(mask, WORD, g))
  {
    result := union;
    for i := 0 to |mask|
      invariant |result| == |union| && AllWords(result, WORD)
      invariant forall k :: 0 <= k < |union| ==> result[k] == if k < i then Or(union[k], mask[k]) else union[k]
    {
      if i < |result| {
        result := result[i := Or(result[i], mask[i])];
      }
    }
    forall g: nat {
      OredBit(union, mask, result, g);
    }
  }

  lemma {:induction false} OredBit(union: seq<Word>, mask: seq<Word>, result: seq<Word>, g: nat)
    requires AllWords(union, WORD) && AllWords(mask, WORD) && |result| == |union|
    requires forall k :: 0 <= k < |union| ==> result[k] == if k < |mask| then Or(union[k], mask[k]) else union[k]
    ensures HasBit(result, WORD, g) <==> HasBit(union, WORD, g) || (g < |union| * WORD && HasBit(mask, WORD, g))
  {
    if union != [] && g >= WORD {
      if mask != [] {
        OredBit(union[1..], mask[1..], result[1..], g - WORD);
      } else {
        assert result == union;
      }
    }
  }

  /** The values of one row group. */
  function ValuesOf(rg: seq<Option<string>>): set<string> {
    if rg == [] then {} else ValuesOf(rg[..|rg| - 1]) + if rg[|rg| - 1].Some? then {rg[|rg| - 1].value} else {}
  }

  lemma {:induction false} ValueMember(rg: seq<Option<string>>, v: string)
    ensures v in ValuesOf(rg) <==> Some(v) in rg
  {
    if rg != [] {
      ValueMember(rg[..|rg| - 1], v);
      assert rg == rg[..|rg| - 1] + [rg[|rg| - 1]];
    }
  }

  /** The values of all row groups. */
  function AllValues(rowGroups: seq<seq<Option<string>>>): set<string> {
    if rowGroups == [] then {} else AllValues(rowGroups[..|rowGroups| - 1]) + ValuesOf(rowGroups[|rowGroups| - 1])
  }

  lemma {:induction false} OccurringValue(rowGroups: seq<seq<Option<string>>>, v: string)
    ensures v in AllValues(rowGroups) <==> Occurs(rowGroups, v)
  {
    if rowGroups != [] {
      var n := |rowGroups| - 1;
      OccurringValue(rowGroups[..n], v);
      ValueMember(rowGroups[n], v);
      assert rowGroups == rowGroups[..n] + [rowGroups[n]];
      OccursOneMore(rowGroups[..n], rowGroups[n], v);
    }
  }

  lemma OccursOneMore(rowGroups: seq<seq<Option<string>>>, rg: seq<Option<string>>, v: string)
    ensures Occurs(rowGroups + [rg], v) <==> Occurs(rowGroups, v) || Some(v) in rg
  {
    var all := rowGroups + [rg];
    if Occurs(rowGroups, v) {
      var g :| 0 <= g < |rowGroups| && Some(v) in rowGroups[g];
      assert Some(v) in all[g];
    }
    if Some(v) in rg {
      assert Some(v) in all[|rowGroups|];
    }
    if Occurs(all, v) {
      var g :| 0 <= g < |all| && Some(v) in all[g];
      assert g < |rowGroups| ==> Some(v) in rowGroups[g];
    }
  }

  /** At row group `g` the values of the row groups ahead and its own, each counted, pass the cap. */
  ghost predicate PassesCap(rowGroups: seq<seq<Option<string>>>, g: nat)
    requires g < |rowGroups|
  {
    |AllValues(rowGroups[..g])| + |ValuesOf(rowGroups[g])| > MAX_CARDINALITY
  }

  /** Some row group passes the cap. */
  ghost predicate TooMany(rowGroups: seq<seq<Option<string>>>) {
    exists g :: 0 <= g < |rowGroups| && PassesCap(rowGroups, g)
  }

  lemma FewerElements<T>(a: set<T>, b: set<T>)
    requires a <= b
    ensures |a| <= |b|
  {
    assert b == a + (b - a);
  }

  lemma NextValue(values: seq<Option<string>>, i: nat)
    requires i < |values|
    ensures ValuesOf(values[..i + 1]) == ValuesOf(values[..i]) + if values[i].Some? then {values[i].value} else {}
  {
    assert values[..i + 1][..i] == values[..i];
  }

  lemma FewerValues(values: seq<Option<string>>, i: nat)
    requires i <= |values|
    ensures |ValuesOf(values[..i])| <= |ValuesOf(values)|
  {
    forall v | v in ValuesOf(values[..i])
      ensures v in ValuesOf(values)
    {
      ValueMember(values[..i], v);
      ValueMember(values, v);
    }
    FewerElements(ValuesOf(values[..i]), ValuesOf(values));
  }

  /** One row group's distinct non-null values, capped; `None` when the cap is passed. */
  method Distinct(values: seq<Option<string>>, known: nat) returns (distinct: Option<set<string>>)
    requires known <= MAX_CARDINALITY
    ensures distinct == if known + |ValuesOf(values)| > MAX_CARDINALITY then None else Some(ValuesOf(values))
  {
    var seen: set<string> := {};
    for i := 0 to |values|
      invariant seen == ValuesOf(values[..i]) && known + |seen| <= MAX_CARDINALITY
    {
      NextValue(values, i);
      if values[i].Some? {
        seen := seen + {values[i].value};
        if known + |seen| > MAX_CARDINALITY {
          FewerValues(values, i + 1);
          return None;
        }
      }
    }
    assert values[..|values|] == values;
    distinct := Some(seen);
  }

  method InsertAll(ri: RoaringIndex, values: set<string>, rg: nat)
    requires ri.Valid()
    modifies ri
    ensures ri.Valid() && Adds(old(ri.filters), ri.filters, values, rg)
  {
    var rest := values;
    while rest != {}
      invariant rest <= values && ri.Valid() && Adds(old(ri.filters), ri.filters, values - rest, rg)
      decreases |rest|
    {
      var v :| v in rest;
      ghost var before := ri.filters;
      ri.Insert(v, rg);
      AddsThen(old(ri.filters), before, ri.filters, values - rest, {v}, rg);
      assert values - rest + {v} == values - (rest - {v});
      rest := rest - {v};
    }
    assert values - rest == values;
  }

  /** The index of these row groups: it records a value where it occurs, and knows the values that occur. */
  ghost predicate Indexes(f: Filters, rowGroups: seq<seq<Option<string>>>) {
    && (forall v, g: nat {:trigger Recorded(f, v, g)} :: Recorded(f, v, g) <==> g < |rowGroups| && Some(v) in rowGroups[g])
    && (forall v :: v in f <==> Occurs(rowGroups, v))
  }

  ghost predicate Occurs(rowGroups: seq<seq<Option<string>>>, v: string) {
    exists g :: 0 <= g < |rowGroups| && Some(v) in rowGroups[g]
  }

  lemma IndexesOneMore(f: Filters, f': Filters, rowGroups: seq<seq<Option<string>>>, rg: seq<Option<string>>, values: set<string>)
    requires Indexes(f, rowGroups) && Adds(f, f', values, |rowGroups|) && forall v :: v in values <==> Some(v) in rg
    ensures Indexes(f', rowGroups + [rg])
  {
    var all := rowGroups + [rg];
    forall v
      ensures v in f' <==> Occurs(all, v)
    {
      if v in f' {
        if v in values {
          assert Some(v) in all[|rowGroups|];
        } else {
          var g :| 0 <= g < |rowGroups| && Some(v) in rowGroups[g];
          assert Some(v) in all[g];
        }
      }
      if Occurs(all, v) {
        var g :| 0 <= g < |all| && Some(v) in all[g];
        assert g < |rowGroups| ==> Some(v) in rowGroups[g];
      }
    }
  }

  lemma IndexesKeys(f: Filters, rowGroups: seq<seq<Option<string>>>)
    requires Indexes(f, rowGroups)
    ensures |f| == |AllValues(rowGroups)|
  {
    forall v
      ensures v in f <==> v in AllValues(rowGroups)
    {
      OccurringValue(rowGroups, v);
    }
    assert f.Keys == AllValues(rowGroups);
  }

  lemma SizeOfUnion<T>(a: set<T>, b: set<T>)
    ensures |a + b| <= |a| + |b|
  {
    assert a + b == a + (b - a);
    FewerElements(b - a, b);
  }

  /** A row group that does not pass the cap leaves the index within it. */
  lemma WithinCapNext(rowGroups: seq<seq<Option<string>>>, rg: nat)
    requires rg < |rowGroups| && !PassesCap(rowGroups, rg)
    ensures |AllValues(rowGroups[..rg + 1])| <= MAX_CARDINALITY
  {
    assert rowGroups[..rg + 1][..rg] == rowGroups[..rg];
    SizeOfUnion(AllValues(rowGroups[..rg]), ValuesOf(rowGroups[rg]));
  }

  /** No row group ahead of `n` passes the cap. */
  ghost predicate WithinCap(rowGroups: seq<seq<Option<string>>>, n: nat)
    requires n <= |rowGroups|
  {
    forall g :: 0 <= g < n ==> !PassesCap(rowGroups, g)
  }

  lemma CapNext(rowGroups: seq<seq<Option<string>>>, rg: nat)
    requires rg < |rowGroups| && WithinCap(rowGroups, rg)
    ensures PassesCap(rowGroups, rg) ==> TooMany(rowGroups)
    ensures !PassesCap(rowGroups, rg) ==> WithinCap(rowGroups, rg + 1)
    ensures WithinCap(rowGroups, |rowGroups|) ==> !TooMany(rowGroups)
  {
  }

  lemma IndexesNext(f: Filters, f': Filters, rowGroups: seq<seq<Option<string>>>, rg: nat)
    requires rg < |rowGroups| && Indexes(f, rowGroups[..rg]) && Adds(f, f', ValuesOf(rowGroups[rg]), rg)
    ensures Indexes(f', rowGroups[..rg + 1])
  {
    forall v
      ensures v in ValuesOf(rowGroups[rg]) <==> Some(v) in rowGroups[rg]
    {
      ValueMember(rowGroups[rg], v);
    }
    IndexesOneMore(f, f', rowGroups[..rg], rowGroups[rg], ValuesOf(rowGroups[rg]));
    assert rowGroups[..rg + 1] == rowGroups[..rg] + [rowGroups[rg]];
  }

  /** One row group: it is added unless it passes the cap. */
  method AddRowGroup(ri: RoaringIndex, rowGroups: seq<seq<Option<string>>>, rg: nat) returns (added: bool)
    requires ri.Valid() && rg < |rowGroups| && Indexes(ri.filters, rowGroups[..rg]) && |ri.filters| <= MAX_CARDINALITY
    modifies ri
    ensures added <==> !PassesCap(rowGroups, rg)
    ensures added ==> ri.Valid() && Indexes(ri.filters, rowGroups[..rg + 1]) && |ri.filters| <= MAX_CARDINALITY
  {
    IndexesKeys(ri.filters, rowGroups[..rg]);
    var distinct := Distinct(rowGroups[rg], |ri.filters|);
    if distinct.None? {
      return false;
    }
    InsertAll(ri, distinct.value, rg);
    IndexesNext(old(ri.filters), ri.filters, rowGroups, rg);
    IndexesKeys(ri.filters, rowGroups[..rg + 1]);
    WithinCapNext(rowGroups, rg);
    added := |ri.filters| <= MAX_CARDINALITY;
  }

  /** Builds the index over the text column of every row group; there is none exactly when a row group passes the cap. */
  method Build(rowGroups: seq<seq<Option<string>>>) returns (index: RoaringIndex?)
    ensures index == null <==> TooMany(rowGroups)
    ensures index != null ==> fresh(index) && index.Valid() && Indexes(index.filters, rowGroups)
  {
    var ri := new RoaringIndex(|rowGroups|);
    for rg := 0 to |rowGroups|
      invariant ri.Valid() && Indexes(ri.filters, rowGroups[..rg]) && |ri.filters| <= MAX_CARDINALITY
      invariant WithinCap(rowGroups, rg)
    {
      var added := AddRowGroup(ri, rowGroups, rg);
      CapNext(rowGroups, rg);
      if !added {
        return null;
      }
    }
    assert rowGroups[..|rowGroups|] == rowGroups;
    index := ri;
  }

  /** The cap counts a value again in a row group after the first one that has it: two row groups of the same values are
      refused as soon as twice their number passes the cap. */
  lemma KnownValuesCountAgain(rg: seq<Option<string>>)
    ensures AllValues([rg, rg]) == ValuesOf(rg)
    ensures TooMany([rg, rg]) <==> 2 * |ValuesOf(rg)| > MAX_CARDINALITY
  {
    var twice := [rg, rg];
    assert twice[..1] == [rg] && twice[..0] == [] && [rg][..0] == [];
    assert AllValues([rg]) == {} + ValuesOf(rg);
    assert AllValues(twice) == AllValues([rg]) + ValuesOf(rg);
    assert PassesCap(twice, 1) <==> 2 * |ValuesOf(rg)| > MAX_CARDINALITY;
    assert PassesCap(twice, 0) ==> PassesCap(twice, 1);
  }
}
