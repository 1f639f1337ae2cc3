/** The bloom filter of crates/tv-engine/src/bloom_index.rs: two probes per hash into a bit array,
    which therefore never denies a hash that was inserted. */
module BloomFilter {
  import opened Seqs
  import opened Bits

  const U32: nat := 0x1_0000_0000
  const BYTE: nat := 8

  /** 14.4 bits for each element, at least 64, saturating at the largest u32. */
  function BitsFor(nElements: nat): (n: nat)
    ensures 64 <= n < U32
  {
    var n := Min(nElements * 144 / 10, U32 - 1);
    if n < 64 then 64 else n
  }

  /** The bit a probe lands on: wrapping u32 arithmetic on the two halves of the hash. */
  function Probe(hash: nat, i: nat, nBits: nat): (g: nat)
    requires nBits > 0
    ensures g < nBits
  {
    (hash % U32 + i * (hash / U32 % U32)) % U32 % nBits
  }

  /** The contents of a filter. */
  datatype FilterBits = FilterBits(bits: seq<Word>, nBits: nat)

  ghost predicate ValidBits(f: FilterBits) {
    0 < f.nBits <= |f.bits| * BYTE && AllWords(f.bits, BYTE)
  }

  /** `might_contain_hash`: both probes hit a set bit. */
  predicate MightContain(f: FilterBits, hash: nat)
    requires f.nBits > 0
  {
    HasBit(f.bits, BYTE, Probe(hash, 0, f.nBits)) && HasBit(f.bits, BYTE, Probe(hash, 1, f.nBits))
  }

  ghost predicate Probed(hashes: seq<nat>, nBits: nat, g: nat)
    requires nBits > 0
  {
    exists k :: 0 <= k < |hashes| && (g == Probe(hashes[k], 0, nBits) || g == Probe(hashes[k], 1, nBits))
  }

  /** The set bits are the probes of `hashes`, no more and no fewer. */
  ghost predicate Holds(f: FilterBits, hashes: seq<nat>) {
    ValidBits(f) && forall g: nat :: g < f.nBits ==> (HasBit(f.bits, BYTE, g) <==> Probed(hashes, f.nBits, g))
  }

  /** A filter answers for a hash exactly when inserted hashes cover both its probes; so never no for an inserted one. */
  lemma AnswersForInserted(f: FilterBits, hashes: seq<nat>, hash: nat)
    requires Holds(f, hashes)
    ensures MightContain(f, hash) <==> Probed(hashes, f.nBits, Probe(hash, 0, f.nBits)) && Probed(hashes, f.nBits, Probe(hash, 1, f.nBits))
    ensures hash in hashes ==> MightContain(f, hash)
  {
    if hash in hashes {
      var k :| 0 <= k < |hashes| && hashes[k] == hash;
      assert Probed(hashes, f.nBits, Probe(hash, 0, f.nBits));
      assert Probed(hashes, f.nBits, Probe(hash, 1, f.nBits));
    }
  }

  lemma {:induction false} ByteBit(words: seq<Word>, q: nat, r: nat, g: nat)
    requires AllWords(words, BYTE) && q < |words| && r < BYTE
    ensures HasBit(words[q := words[q][r := true]], BYTE, g) <==> g == q * BYTE + r || HasBit(words, BYTE, g)
  {
    var marked := words[q := words[q][r := true]];
    if q == 0 {
      assert marked[1..] == words[1..];
    } else {
      assert marked[1..] == words[1..][q - 1 := words[1..][q - 1][r := true]];
      if g >= BYTE {
        ByteBit(words[1..], q - 1, r, g - BYTE);
      }
    }
  }

  lemma BitAdded(words: seq<Word>, q: nat, r: nat)
    requires AllWords(words, BYTE) && q < |words| && r < BYTE
    ensures AllWords(words[q := words[q][r := true]], BYTE)
    ensures forall g: nat :: HasBit(words[q := words[q][r := true]], BYTE, g) <==> g == q * BYTE + r || HasBit(words, BYTE, g)
  {
    var marked := words[q := words[q][r := true]];
    forall i | 0 <= i < |marked|
      ensures |marked[i]| == BYTE
    {
      assert |words[i]| == BYTE;
    }
    forall g: nat
      ensures HasBit(marked, BYTE, g) <==> g == q * BYTE + r || HasBit(words, BYTE, g)
    {
      ByteBit(words, q, r, g);
    }
  }

  lemma {:induction false} ClearBytes(words: seq<Word>, g: nat)
    requires forall i :: 0 <= i < |words| ==> words[i] == Zero(BYTE)
    ensures !HasBit(words, BYTE, g)
  {
    if words != [] {
      if g >= BYTE {
        ClearBytes(words[1..], g - BYTE);
      } else {
        assert forall k :: 0 <= k < BYTE ==> !Zero(BYTE)[k];
      }
    }
  }

  class BloomFilter {
    const bits: array<Word>
    const nBits: nat

    ghost predicate Valid()
      reads this, bits
    {
      ValidBits(Contents())
    }

    function Contents(): FilterBits
      reads this, bits
    {
      FilterBits(bits[..], nBits)
    }

    constructor (nElements: nat)
      ensures Valid() && Holds(Contents(), []) && fresh(bits)
    {
      var n := BitsFor(nElements);
      nBits := n;
      bits := new Word[(n + BYTE - 1) / BYTE](i => Zero(BYTE));
      new;
      forall g: nat {
        ClearBytes(bits[..], g);
      }
    }

    method SetBit(pos: nat)
      requires Valid()
      modifies bits
      ensures Valid()
      ensures forall g: nat :: HasBit(bits[..], BYTE, g) <==> g == pos % nBits || HasBit(old(bits[..]), BYTE, g)
    {
      var idx := pos % nBits;
      var q, r := idx / BYTE, idx % BYTE;
      assert idx == q * BYTE + r;
      ghost var before := bits[..];
      BitAdded(before, q, r);
      bits[q] := bits[q][r := true];
      assert bits[..] == before[q := before[q][r := true]];
    }

    method GetBit(pos: nat) returns (isSet: bool)
      requires Valid()
      ensures isSet <==> HasBit(bits[..], BYTE, pos % nBits)
    {
      var idx := pos % nBits;
      var q, r := idx / BYTE, idx % BYTE;
      assert idx == q * BYTE + r;
      WordBit(bits[..], BYTE, q, r);
      isSet := bits[q][r];
    }

    method InsertHash(hash: nat, ghost hashes: seq<nat>)
      requires Valid() && Holds(Contents(), hashes)
      modifies bits
      ensures Valid() && Holds(Contents(), hashes + [hash])
    {
      var h1, h2 := hash % U32, hash / U32 % U32;
      for i := 0 to 2
        invariant Valid()
        invariant forall g: nat :: g < nBits ==>
          (HasBit(bits[..], BYTE, g) <==>
           Probed(hashes, nBits, g) || (i > 0 && g == Probe(hash, 0, nBits)) || (i > 1 && g == Probe(hash, 1, nBits)))
      {
        SetBit((h1 + i * h2) % U32);
      }
      forall g: nat | g < nBits {
        OneMoreHash(hashes, hash, nBits, g);
      }
    }

    method MightContainHash(hash: nat) returns (might: bool)
      requires Valid()
      ensures might <==> MightContain(Contents(), hash)
    {
      var h1, h2 := hash % U32, hash / U32 % U32;
      for i := 0 to 2
        invariant i > 0 ==> HasBit(bits[..], BYTE, Probe(hash, 0, nBits))
        invariant i > 1 ==> HasBit(bits[..], BYTE, Probe(hash, 1, nBits))
      {
        var isSet := GetBit((h1 + i * h2) % U32);
        if !isSet {
          return false;
        }
      }
      might := true;
    }
  }

  lemma OneMoreHash(hashes: seq<nat>, hash: nat, nBits: nat, g: nat)
    requires nBits > 0
    ensures Probed(hashes + [hash], nBits, g) <==> Probed(hashes, nBits, g) || g == Probe(hash, 0, nBits) || g == Probe(hash, 1, nBits)
  {
    var all := hashes + [hash];
    assert all[|hashes|] == hash;
    if Probed(hashes, nBits, g) {
      var k :| 0 <= k < |hashes| && (g == Probe(hashes[k], 0, nBits) || g == Probe(hashes[k], 1, nBits));
      assert all[k] == hashes[k];
    }
  }

  /** One row group's column, cast to text, hashed and inserted; null has a hash of its own. */
  function HashOf(textHash: string -> nat, nullHash: nat, value: Option<string>): nat {
    if value.Some? then textHash(value.value) else nullHash
  }

  function HashesOf(textHash: string -> nat, nullHash: nat, values: seq<Option<string>>): seq<nat> {
    seq(|values|, i requires 0 <= i < |values| => HashOf(textHash, nullHash, values[i]))
  }

  method BuildFilter(textHash: string -> nat, nullHash: nat, values: seq<Option<string>>) returns (filter: BloomFilter)
    ensures fresh(filter) && filter.Valid() && Holds(filter.Contents(), HashesOf(textHash, nullHash, values))
  {
    filter := new BloomFilter(|values|);
    for i := 0 to |values|
      invariant fresh(filter) && fresh(filter.bits) && filter.Valid()
      invariant Holds(filter.Contents(), HashesOf(textHash, nullHash, values[..i]))
    {
      filter.InsertHash(HashOf(textHash, nullHash, values[i]), HashesOf(textHash, nullHash, values[..i]));
      assert HashesOf(textHash, nullHash, values[..i + 1]) ==
             HashesOf(textHash, nullHash, values[..i]) + [HashOf(textHash, nullHash, values[i])];
    }
    assert values[..|values|] == values;
  }
}
