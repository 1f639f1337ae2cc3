/** The other mergeable summaries of crates/tv-engine/src/stats.rs: the HyperLogLog registers and the
    bounded table of value counts. Whatever tree of additions and merges built them, the
    registers depend only on which hashes there are, and the table on how often each value occurs. */
module Sketches {
  import opened Seqs
  import opened Moments

  // ---- HyperLogLog registers

  const INDEX_BITS: nat := 14
  const HASH_BITS: nat := 64

  /** A hash, most significant bit first. */
  type Hash = bits: seq<bool> | |bits| == HASH_BITS witness seq(HASH_BITS, i => false)

  function Value(bits: seq<bool>): (v: nat)
    ensures v < TwoTo(|bits|)
  {
    if bits == [] then 0
    else Value(bits[..|bits| - 1]) * 2 + if bits[|bits| - 1] then 1 else 0
  }

  function TwoTo(n: nat): (p: nat)
    ensures p > 0
  {
    if n == 0 then 1 else 2 * TwoTo(n - 1)
  }

  function LeadingZeros(bits: seq<bool>): nat {
    if bits == [] || bits[0] then 0 else 1 + LeadingZeros(bits[1..])
  }

  /** `hash >> 50`. */
  function RegisterOf(hash: Hash): (idx: nat)
    ensures idx < TwoTo(INDEX_BITS)
  {
    Value(hash[..INDEX_BITS])
  }

  /** `(hash << 14).leading_zeros() + 1`. */
  function RankOf(hash: Hash): (rank: nat)
    ensures rank > 0
  {
    var rest := hash[INDEX_BITS..];
    (if LeadingZeros(rest) == |rest| then HASH_BITS else LeadingZeros(rest)) + 1
  }

  function Larger(a: nat, b: nat): nat {
    if a > b then a else b
  }

  /** What one hash asks of register `k`. */
  function Asked(hash: Hash, k: nat): nat {
    if RegisterOf(hash) == k then RankOf(hash) else 0
  }

  /** The largest rank among the hashes of register `k`. */
  function Register(hashes: seq<Hash>, k: nat): nat {
    if hashes == [] then 0 else Larger(Asked(hashes[|hashes| - 1], k), Register(hashes[..|hashes| - 1], k))
  }

  lemma {:induction false} RegisterAppend(a: seq<Hash>, b: seq<Hash>, k: nat)
    ensures Register(a + b, k) == Larger(Register(a, k), Register(b, k))
  {
    if b == [] {
      assert a + b == a;
    } else {
      var n := |b| - 1;
      RegisterAppend(a, b[..n], k);
      RegisterNext(a + b[..n], b[n], k);
      assert a + b == a + b[..n] + [b[n]];
    }
  }

  lemma RegisterNext(hashes: seq<Hash>, hash: Hash, k: nat)
    ensures Register(hashes + [hash], k) == Larger(Asked(hash, k), Register(hashes, k))
  {
    var all := hashes + [hash];
    assert all[..|hashes|] == hashes && all[|hashes|] == hash;
  }

  /** The register is attained, and nothing of its index exceeds it. */
  lemma {:induction false} RegisterIsMaximum(hashes: seq<Hash>, k: nat)
    ensures forall h :: h in hashes ==> Asked(h, k) <= Register(hashes, k)
    ensures Register(hashes, k) > 0 ==> exists h :: h in hashes && Asked(h, k) == Register(hashes, k)
  {
    if hashes != [] {
      var before, last := hashes[..|hashes| - 1], hashes[|hashes| - 1];
      RegisterIsMaximum(before, k);
      assert hashes == before + [last];
      if Asked(last, k) > Register(before, k) {
        assert last in hashes;
      } else if Register(before, k) > 0 {
        var h :| h in before && Asked(h, k) == Register(before, k);
        assert h in hashes;
      }
    }
  }

  lemma RegisterOfFewer(a: seq<Hash>, b: seq<Hash>, k: nat)
    requires forall h :: h in a ==> h in b
    ensures Register(a, k) <= Register(b, k)
  {
    RegisterIsMaximum(a, k);
    RegisterIsMaximum(b, k);
    if Register(a, k) > 0 {
      var h :| h in a && Asked(h, k) == Register(a, k);
      assert h in b;
    }
  }

  /** Neither the order nor the repetition of hashes matters, so neither does the estimate made from the registers. */
  lemma RegistersDependOnTheSet(a: seq<Hash>, b: seq<Hash>, k: nat)
    requires forall h :: h in a <==> h in b
    ensures Register(a, k) == Register(b, k)
  {
    RegisterOfFewer(a, b, k);
    RegisterOfFewer(b, a, k);
  }

  class HyperLogLog {
    const registers: array<nat>

    ghost predicate Holds(hashes: seq<Hash>)
      reads registers
    {
      registers.Length == TwoTo(INDEX_BITS) && forall k :: 0 <= k < registers.Length ==> registers[k] == Register(hashes, k)
    }

    constructor ()
      ensures Holds([]) && fresh(registers)
    {
      registers := new nat[TwoTo(INDEX_BITS)](_ => 0);
    }

    method AddHash(hash: Hash, ghost hashes: seq<Hash>)
      requires Holds(hashes)
      modifies registers
      ensures Holds(hashes + [hash])
    {
      var idx, leading := RegisterOf(hash), RankOf(hash);
      forall k: nat {
        RegisterNext(hashes, hash, k);
      }
      if leading > registers[idx] {
        registers[idx] := leading;
      }
    }

    method Merge(other: HyperLogLog, ghost a: seq<Hash>, ghost b: seq<Hash>)
      requires Holds(a) && other.Holds(b) && registers != other.registers
      modifies registers
      ensures Holds(a + b)
    {
      for i := 0 to registers.Length
        invariant other.Holds(b)
        invariant forall k :: 0 <= k < i ==> registers[k] == Register(a + b, k)
        invariant forall k :: i <= k < registers.Length ==> registers[k] == Register(a, k)
      {
        RegisterAppend(a, b, i);
        if other.registers[i] > registers[i] {
          registers[i] := other.registers[i];
        }
      }
    }
  }

  /** Any tree of additions and merges ends with the registers of all the hashes. */
  method Sketch(plan: Plan<Hash>) returns (hll: HyperLogLog)
    ensures fresh(hll) && fresh(hll.registers) && hll.Holds(DataOf(plan))
  {
    match plan {
      case Batch(values) =>
        hll := new HyperLogLog();
        for i := 0 to |values|
          invariant fresh(hll) && fresh(hll.registers) && hll.Holds(values[..i])
        {
          assert values[..i + 1] == values[..i] + [values[i]];
          hll.AddHash(values[i], values[..i]);
        }
        assert values[..|values|] == values;
      case Join(left, right) =>
        hll := Sketch(left);
        var other := Sketch(right);
        hll.Merge(other, DataOf(left), DataOf(right));
    }
  }

  // ---- the bounded table of value counts

  function Distinct(values: seq<string>): set<string> {
    set v | v in values
  }

  type Counts = map<string, nat>

  /** Every value with its number of occurrences. */
  function Tally(values: seq<string>): Counts {
    map v | v in values :: multiset(values)[v]
  }

  /** Two tables added up. */
  function Added(a: Counts, b: Counts): Counts {
    map v | v in a.Keys + b.Keys :: (if v in a then a[v] else 0) + (if v in b then b[v] else 0)
  }

  /** `*counts.entry(v).or_insert(0) += n`. */
  function Bump(m: Counts, v: string, n: nat): Counts {
    m[v := (if v in m then m[v] else 0) + n]
  }

  lemma BumpSize(m: Counts, v: string, n: nat)
    ensures Bump(m, v, n).Keys == m.Keys + {v}
    ensures |Bump(m, v, n)| == |m| + if v in m then 0 else 1
  {
    var b := Bump(m, v, n);
    assert b.Keys == m.Keys + {v};
    assert |b| == |b.Keys| && |m| == |m.Keys|;
    if v in m {
      assert m.Keys + {v} == m.Keys;
    }
  }

  lemma TallyKeys(values: seq<string>)
    ensures Tally(values).Keys == Distinct(values) && |Tally(values)| == |Distinct(values)|
  {
    assert Tally(values).Keys == Distinct(values);
  }

  lemma TallyNext(values: seq<string>, v: string)
    ensures Tally(values + [v]) == Bump(Tally(values), v, 1)
    ensures |Distinct(values + [v])| == |Distinct(values)| + if v in values then 0 else 1
  {
    var all := values + [v];
    assert forall w :: w in all <==> w in values || w == v;
    assert forall w :: w in all ==> multiset(all)[w] == multiset(values)[w] + if w == v then 1 else 0;
    assert v !in values ==> multiset(values)[v] == 0;
    assert Tally(all) == Bump(Tally(values), v, 1);
    TallyKeys(values);
    TallyKeys(all);
    BumpSize(Tally(values), v, 1);
  }

  lemma TallyAppend(a: seq<string>, b: seq<string>)
    ensures Tally(a + b) == Added(Tally(a), Tally(b)) && Distinct(a + b) == Distinct(a) + Distinct(b)
  {
    assert forall v :: v in a + b <==> v in a || v in b;
    forall v | v in a + b
      ensures multiset(a + b)[v] == (if v in a then multiset(a)[v] else 0) + (if v in b then multiset(b)[v] else 0)
    {
      assert v in a <==> v in multiset(a);
      assert v in b <==> v in multiset(b);
    }
  }

  lemma SizeGrows(a: set<string>, b: set<string>)
    requires a <= b
    ensures |a| <= |b|
    decreases a
  {
    if a != {} {
      var x :| x in a;
      SizeGrows(a - {x}, b - {x});
    }
  }

  class TopValuesTracker {
    var counts: Counts
    var overflowed: bool
    const maxDistinct: nat

    /** Exact while the distinct values fit, and overflowed exactly when they do not. */
    ghost predicate Tracks(values: seq<string>)
      reads this
    {
      (overflowed <==> |Distinct(values)| > maxDistinct) && (!overflowed ==> counts == Tally(values))
    }

    constructor (max: nat)
      ensures Tracks([]) && maxDistinct == max
    {
      counts, overflowed, maxDistinct := map[], false, max;
      assert Distinct([]) == {};
    }

    method Add(v: string, ghost values: seq<string>)
      requires Tracks(values)
      modifies this
      ensures Tracks(values + [v])
    {
      TallyKeys(values);
      TallyNext(values, v);
      if overflowed {
        return;
      }
      if v !in counts && |counts| >= maxDistinct {
        overflowed := true;
        return;
      }
      counts := Bump(counts, v, 1);
    }

    method Merge(other: TopValuesTracker, ghost a: seq<string>, ghost b: seq<string>)
      requires Tracks(a) && other.Tracks(b) && other != this && maxDistinct == other.maxDistinct
      modifies this
      ensures Tracks(a + b)
    {
      TallyAppend(a, b);
      SizeGrows(Distinct(a), Distinct(a + b));
      SizeGrows(Distinct(b), Distinct(a + b));
      if overflowed {
        return;
      }
      if other.overflowed {
        overflowed := true;
        return;
      }
      TallyKeys(a);
      TallyKeys(b);
      var fits, merged := AddCounts(counts, other.counts, maxDistinct);
      counts, overflowed := merged, !fits;
    }

    /** `top_k`: the most frequent values, none when the table overflowed. */
    method TopK(k: nat, ghost values: seq<string>) returns (top: Option<seq<(string, nat)>>)
      requires Tracks(values)
      ensures top.None? <==> |Distinct(values)| > maxDistinct
      ensures top.Some? ==> AreMostFrequent(Tally(values), top.value) && |top.value| == Min(k, |Distinct(values)|)
    {
      if overflowed {
        return None;
      }
      TallyKeys(values);
      var best := MostFrequent(counts, k);
      top := Some(best);
    }
  }

  /** Adding one table's entries to another, in whatever order the hash map gives them, until there are too many. */
  method AddCounts(into: Counts, counts: Counts, max: nat) returns (fits: bool, merged: Counts)
    requires |into| <= max
    ensures fits <==> |into.Keys + counts.Keys| <= max
    ensures fits ==> merged == Added(into, counts)
  {
    merged := into;
    var rest := counts.Keys;
    AddedNone(into, counts);
    while rest != {}
      invariant AddedSoFar(into, counts, rest, merged) && |merged| <= max
      decreases |rest|
    {
      var k :| k in rest;
      AddedNext(into, counts, rest, k, merged);
      if k !in merged && |merged| >= max {
        SizeGrows(merged.Keys + {k}, into.Keys + counts.Keys);
        return false, merged;
      }
      merged, rest := Bump(merged, k, counts[k]), rest - {k};
    }
    AddedAll(into, counts, merged);
    fits := true;
  }

  ghost predicate AddedSoFar(into: Counts, counts: Counts, rest: set<string>, merged: Counts) {
    rest <= counts.Keys && merged == Added(into, Without(counts, rest))
  }

  lemma AddedNone(into: Counts, counts: Counts)
    ensures AddedSoFar(into, counts, counts.Keys, into)
  {
    assert Without(counts, counts.Keys) == map[];
    assert Added(into, map[]) == into;
  }

  lemma AddedNext(into: Counts, counts: Counts, rest: set<string>, k: string, merged: Counts)
    requires AddedSoFar(into, counts, rest, merged) && k in rest
    ensures AddedSoFar(into, counts, rest - {k}, Bump(merged, k, counts[k]))
    ensures merged.Keys + {k} <= into.Keys + counts.Keys
    ensures |Bump(merged, k, counts[k])| == |merged| + if k in merged then 0 else 1
    ensures |merged.Keys + {k}| == |merged| + if k in merged then 0 else 1
  {
    BumpSize(merged, k, counts[k]);
    AddedOne(into, counts, rest, k);
  }

  lemma AddedAll(into: Counts, counts: Counts, merged: Counts)
    requires AddedSoFar(into, counts, {}, merged)
    ensures merged == Added(into, counts) && |merged| == |into.Keys + counts.Keys|
  {
    assert Without(counts, {}) == counts;
    assert merged.Keys == into.Keys + counts.Keys;
  }

  function Without(m: Counts, keys: set<string>): Counts {
    map v | v in m && v !in keys :: m[v]
  }

  lemma AddedOne(into: Counts, counts: Counts, rest: set<string>, k: string)
    requires k in rest && rest <= counts.Keys
    ensures var merged := Added(into, Without(counts, rest));
            Added(into, Without(counts, rest - {k})) == Bump(merged, k, counts[k])
  {
  }

  /** Each pair is a value with its count. */
  ghost predicate Counted(counts: Counts, top: seq<(string, nat)>) {
    forall i :: 0 <= i < |top| ==> top[i].0 in counts && top[i].1 == counts[top[i].0]
  }

  /** No value is listed twice and the counts descend. */
  ghost predicate Descends(top: seq<(string, nat)>) {
    forall i, j :: 0 <= i < j < |top| ==> top[i].0 != top[j].0 && top[i].1 >= top[j].1
  }

  /** No value left out occurs more often than one listed. */
  ghost predicate Dominates(counts: Counts, top: seq<(string, nat)>) {
    forall v, i :: v in counts && v !in Names(top) && 0 <= i < |top| ==> counts[v] <= top[i].1
  }

  ghost predicate AreMostFrequent(counts: Counts, top: seq<(string, nat)>) {
    Counted(counts, top) && Descends(top) && Dominates(counts, top)
  }

  function Names(top: seq<(string, nat)>): set<string> {
    set i | 0 <= i < |top| :: top[i].0
  }

  predicate IsMostFrequent(counts: Counts, rest: set<string>, v: string) {
    v in rest && v in counts && forall w :: w in rest && w in counts ==> counts[w] <= counts[v]
  }

  lemma {:induction false} MostFrequentExists(counts: Counts, rest: set<string>) returns (v: string)
    requires rest != {} && rest <= counts.Keys
    ensures IsMostFrequent(counts, rest, v)
    decreases |rest|
  {
    v :| v in rest;
    if rest != {v} {
      var r := MostFrequentExists(counts, rest - {v});
      assert forall w :: w in rest ==> w == v || w in rest - {v};
      v := if counts[v] >= counts[r] then v else r;
    }
  }

  /** The values picked so far are the most frequent ones, and the others are still to pick from. */
  ghost predicate Picked(counts: Counts, top: seq<(string, nat)>, rest: set<string>) {
    rest == counts.Keys - Names(top) && |top| + |rest| == |counts| && AreMostFrequent(counts, top)
  }

  lemma NamesNext(top: seq<(string, nat)>, pair: (string, nat))
    ensures Names(top + [pair]) == Names(top) + {pair.0}
  {
    var more := top + [pair];
    assert more[|top|] == pair;
    assert forall i :: 0 <= i < |top| ==> more[i] == top[i];
  }

  lemma DescendsNext(counts: Counts, top: seq<(string, nat)>, v: string)
    requires Descends(top) && Dominates(counts, top) && v in counts && v !in Names(top)
    ensures Descends(top + [(v, counts[v])])
  {
    forall i | 0 <= i < |top|
      ensures top[i].0 != v && top[i].1 >= counts[v]
    {
      assert top[i].0 in Names(top);
    }
  }

  lemma DominatesNext(counts: Counts, top: seq<(string, nat)>, v: string)
    requires Dominates(counts, top) && IsMostFrequent(counts, counts.Keys - Names(top), v)
    ensures Dominates(counts, top + [(v, counts[v])])
  {
    NamesNext(top, (v, counts[v]));
  }

  lemma PickedNext(counts: Counts, top: seq<(string, nat)>, rest: set<string>, v: string)
    requires Picked(counts, top, rest) && IsMostFrequent(counts, rest, v)
    ensures Picked(counts, top + [(v, counts[v])], rest - {v})
  {
    NamesNext(top, (v, counts[v]));
    DescendsNext(counts, top, v);
    DominatesNext(counts, top, v);
    assert counts.Keys - (Names(top) + {v}) == rest - {v};
  }

  method MostFrequent(counts: Counts, k: nat) returns (top: seq<(string, nat)>)
    ensures AreMostFrequent(counts, top) && |top| == Min(k, |counts|)
  {
    top := [];
    var rest := counts.Keys;
    while |top| < k && rest != {}
      invariant |top| <= k && Picked(counts, top, rest)
      decreases |rest|
    {
      ghost var best := MostFrequentExists(counts, rest);
      var v :| IsMostFrequent(counts, rest, v);
      PickedNext(counts, top, rest, v);
      top := top + [(v, counts[v])];
      rest := rest - {v};
    }
  }

  /** Any tree of additions and merges ends with the exact table, or with an overflow when it would not fit. */
  method Track(plan: Plan<string>, max: nat) returns (tracker: TopValuesTracker)
    ensures fresh(tracker) && tracker.maxDistinct == max && tracker.Tracks(DataOf(plan))
  {
    match plan {
      case Batch(values) =>
        tracker := new TopValuesTracker(max);
        for i := 0 to |values|
          invariant fresh(tracker) && tracker.maxDistinct == max && tracker.Tracks(values[..i])
        {
          assert values[..i + 1] == values[..i] + [values[i]];
          tracker.Add(values[i], values[..i]);
        }
        assert values[..|values|] == values;
      case Join(left, right) =>
        tracker := Track(left, max);
        var other := Track(right, max);
        tracker.Merge(other, DataOf(left), DataOf(right));
    }
  }
}
