/** Machine words bit by bit, least significant first: the operations the row-group bitsets
    and the bloom filter are built from, and the set of positions a word stands for. */
module Bits {
  import opened Seqs

  type Word = seq<bool>

  const WORD: nat := 64

  function Zero(width: nat): (w: Word)
    ensures |w| == width && IsZero(w)
  {
    if width == 0 then [] else [false] + Zero(width - 1)
  }

  predicate IsZero(w: Word) {
    w == [] || (!w[0] && IsZero(w[1..]))
  }

  /** The unsigned value of a word. */
  function Value(w: Word): nat {
    if w == [] then 0 else (if w[0] then 1 else 0) + 2 * Value(w[1..])
  }

  /** Subtracting one: the borrow runs through the trailing zeros. */
  function Decrement(w: Word): (d: Word)
    ensures |d| == |w|
  {
    if w == [] then [] else if w[0] then [false] + w[1..] else [true] + Decrement(w[1..])
  }

  function And(a: Word, b: Word): (c: Word)
    requires |a| == |b|
    ensures |c| == |a|
  {
    seq(|a|, k requires 0 <= k < |a| => a[k] && b[k])
  }

  function Or(a: Word, b: Word): (c: Word)
    requires |a| == |b|
    ensures |c| == |a|
  {
    seq(|a|, k requires 0 <= k < |a| => a[k] || b[k])
  }

  function TrailingZeros(w: Word): (n: nat)
    ensures n <= |w|
  {
    if w == [] || w[0] then 0 else 1 + TrailingZeros(w[1..])
  }

  /** `Decrement` is subtraction of one on the values words stand for. */
  lemma {:induction false} DecrementSubtractsOne(w: Word)
    requires !IsZero(w)
    ensures Value(Decrement(w)) == Value(w) - 1
  {
    if w[0] {
      assert ([false] + w[1..])[1..] == w[1..];
    } else {
      DecrementSubtractsOne(w[1..]);
      assert ([true] + Decrement(w[1..]))[1..] == Decrement(w[1..]);
    }
  }

  // ---- the positions of the set bits

  /** `base + k` for every set bit `k`, ascending. */
  function Positions(w: Word, base: nat): seq<nat> {
    if w == [] then []
    else if w[0] then [base] + Positions(w[1..], base + 1)
    else Positions(w[1..], base + 1)
  }

  lemma {:induction false} PositionsAppend(a: Word, b: Word, base: nat)
    ensures Positions(a + b, base) == Positions(a, base) + Positions(b, base + |a|)
  {
    if a == [] {
      assert a + b == b;
    } else {
      assert (a + b)[1..] == a[1..] + b;
      PositionsAppend(a[1..], b, base + 1);
    }
  }

  lemma {:induction false} PositionsOfZero(w: Word, base: nat)
    requires IsZero(w)
    ensures Positions(w, base) == []
  {
    if w != [] {
      PositionsOfZero(w[1..], base + 1);
    }
  }

  ghost predicate StrictlyAscending(s: seq<nat>) {
    forall i, j :: 0 <= i < j < |s| ==> s[i] < s[j]
  }

  lemma {:induction false} PositionMember(w: Word, base: nat, g: nat)
    ensures g in Positions(w, base) <==> base <= g < base + |w| && w[g - base]
  {
    if w != [] {
      PositionMember(w[1..], base + 1, g);
      assert base < g < base + |w| ==> w[g - base] == w[1..][g - (base + 1)];
    }
  }

  lemma {:induction false} PositionsAscend(w: Word, base: nat)
    ensures StrictlyAscending(Positions(w, base))
  {
    if w != [] {
      PositionsAscend(w[1..], base + 1);
      var tail := Positions(w[1..], base + 1);
      forall i | 0 <= i < |tail|
        ensures base < tail[i]
      {
        PositionMember(w[1..], base + 1, tail[i]);
      }
    }
  }

  /** `w & (w - 1)`. */
  function WithoutLowest(w: Word): (c: Word)
    ensures |c| == |w|
  {
    And(w, Decrement(w))
  }

  lemma WithoutLowestCons(w: Word)
    requires w != []
    ensures WithoutLowest(w) == [false] + if w[0] then w[1..] else WithoutLowest(w[1..])
  {
  }

  lemma PositionsCons(b: bool, rest: Word, base: nat)
    ensures Positions([b] + rest, base) == if b then [base] + Positions(rest, base + 1) else Positions(rest, base + 1)
  {
    assert ([b] + rest)[1..] == rest;
  }

  /** Clearing the lowest set bit removes exactly the first position. */
  lemma {:induction false} ClearLowest(w: Word, base: nat)
    requires !IsZero(w)
    ensures TrailingZeros(w) < |w|
    ensures Positions(w, base) == [base + TrailingZeros(w)] + Positions(WithoutLowest(w), base)
  {
    WithoutLowestCons(w);
    if w[0] {
      PositionsCons(false, w[1..], base);
    } else {
      ClearLowest(w[1..], base + 1);
      PositionsCons(false, WithoutLowest(w[1..]), base);
    }
  }

  // ---- lists of words

  ghost predicate AllWords(words: seq<Word>, width: nat) {
    forall i :: 0 <= i < |words| ==> |words[i]| == width
  }

  /** Bit `g` of a list of words; bits past the end are clear. */
  predicate HasBit(words: seq<Word>, width: nat, g: nat)
    requires width > 0
  {
    words != [] && if g < width then g < |words[0]| && words[0][g] else HasBit(words[1..], width, g - width)
  }

  /** Bit `r` of word `q` is bit `q * width + r` of the list. */
  lemma {:induction false} WordBit(words: seq<Word>, width: nat, q: nat, r: nat)
    requires AllWords(words, width) && r < width
    ensures HasBit(words, width, q * width + r) <==> q < |words| && words[q][r]
  {
    if words != [] && q > 0 {
      WordBit(words[1..], width, q - 1, r);
      OneFewer(q, width);
    }
  }

  lemma OneFewer(q: nat, width: nat)
    requires q > 0
    ensures q * width == (q - 1) * width + width && q * width >= width
  {
  }

  lemma {:induction false} FlattenedBit(words: seq<Word>, width: nat, g: nat)
    requires width > 0 && AllWords(words, width)
    ensures HasBit(words, width, g) <==> g < |Flatten(words)| && Flatten(words)[g]
  {
    if words != [] {
      assert |words[0]| == width;
      if g >= width {
        FlattenedBit(words[1..], width, g - width);
      }
    }
  }

  /** The positions of a list of words are exactly its set bits, ascending. */
  lemma WordsPositions(words: seq<Word>, width: nat)
    requires width > 0 && AllWords(words, width)
    ensures StrictlyAscending(Positions(Flatten(words), 0))
    ensures forall g: nat :: g in Positions(Flatten(words), 0) <==> HasBit(words, width, g)
  {
    PositionsAscend(Flatten(words), 0);
    forall g: nat
      ensures g in Positions(Flatten(words), 0) <==> HasBit(words, width, g)
    {
      FlattenedBit(words, width, g);
      PositionMember(Flatten(words), 0, g);
    }
  }
}
