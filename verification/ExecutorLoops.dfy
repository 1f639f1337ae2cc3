/** The executor's loops over mutable vectors (crates/tv-engine/src/executor.rs): the pipeline itself,
    deduplication, the sample's swaps, rank arrays and group boundaries. */
module ExecutorLoops {
  import opened Seqs
  import opened Exprs
  import opened Executor

  // ---- the pipeline

  /** `execute_pipeline`. */
  method ExecutePipeline(rt: Runtime, f: Frame, ops: seq<ViewOp>) returns (out: Outcome)
    ensures out == Exec(rt, f, ops)
  {
    if f.batches == [] {
      return Ok(f);
    }
    var normalized := NormalizeOps(ops);
    var current := f;
    var i := 0;
    while i < |normalized| && current.batches != []
      invariant 0 <= i <= |normalized|
      invariant Run(rt, f, normalized) == Run(rt, current, normalized[i..])
    {
      assert normalized[i..][0] == normalized[i] && normalized[i..][1..] == normalized[i + 1..];
      var next := ApplyOp(rt, current, normalized[i]);
      if next.Err? {
        return Err;
      }
      current := next.frame;
      i := i + 1;
    }
    out := Ok(current);
  }

  // ---- deduplication

  function KeyOf(rt: Runtime, names: seq<string>, row: Row, columns: Option<seq<string>>): string {
    JoinKey(rt, match columns case None => row case Some(cs) => Pick(names, row, cs))
  }

  function Keys(rt: Runtime, names: seq<string>, rows: seq<Row>, columns: Option<seq<string>>): seq<string> {
    seq(|rows|, i requires 0 <= i < |rows| => KeyOf(rt, names, rows[i], columns))
  }

  /** `FirstOfEachKey` over given keys. */
  function Firsts<T>(rows: seq<T>, keys: seq<string>, seen: set<string>): seq<T>
    requires |keys| == |rows|
  {
    if rows == [] then []
    else if keys[0] in seen then Firsts(rows[1..], keys[1..], seen)
    else [rows[0]] + Firsts(rows[1..], keys[1..], seen + {keys[0]})
  }

  lemma {:induction false} FirstsByKeys(rt: Runtime, names: seq<string>, rows: seq<Row>, columns: Option<seq<string>>, seen: set<string>)
    ensures FirstOfEachKey(rt, names, rows, columns, seen) == Firsts(rows, Keys(rt, names, rows, columns), seen)
    decreases |rows|
  {
    if rows != [] {
      var key := KeyOf(rt, names, rows[0], columns);
      KeysTail(rt, names, rows, rows[1..], columns);
      FirstsByKeys(rt, names, rows[1..], columns, if key in seen then seen else seen + {key});
    }
  }

  /** Key `i` does not occur before. */
  predicate IsFirst(keys: seq<string>, i: nat)
    requires i < |keys|
  {
    keys[i] !in keys[..i]
  }

  function FirstMask(keys: seq<string>): seq<bool> {
    seq(|keys|, i requires 0 <= i < |keys| => IsFirst(keys, i))
  }

  function KeySet(keys: seq<string>): set<string> {
    set k | k in keys
  }

  lemma {:induction false} FirstsNext<T>(rows: seq<T>, keys: seq<string>, row: T, key: string, seen: set<string>)
    requires |keys| == |rows|
    ensures Firsts(rows + [row], keys + [key], seen) == Firsts(rows, keys, seen) + if key in seen || key in keys then [] else [row]
    decreases |rows|
  {
    if rows == [] {
      assert rows + [row] == [row] && keys + [key] == [key];
    } else {
      assert (rows + [row])[1..] == rows[1..] + [row] && (keys + [key])[1..] == keys[1..] + [key];
      assert keys == [keys[0]] + keys[1..];
      FirstsNext(rows[1..], keys[1..], row, key, if keys[0] in seen then seen else seen + {keys[0]});
    }
  }

  /** After `i` rows: the keys seen, the mask so far and the rows it keeps. */
  ghost predicate Scanned<T>(rows: seq<T>, keys: seq<string>, i: nat, seen: set<string>, keep: seq<bool>)
    requires |keys| == |rows| && i <= |rows|
  {
    && seen == KeySet(keys[..i]) && keep == FirstMask(keys)[..i]
    && Masked(rows[..i], keep) == Firsts(rows[..i], keys[..i], {})
  }

  lemma ScannedNext<T>(rows: seq<T>, keys: seq<string>, i: nat, seen: set<string>, keep: seq<bool>)
    requires |keys| == |rows| && i < |rows| && Scanned(rows, keys, i, seen, keep)
    ensures Scanned(rows, keys, i + 1, seen + {keys[i]}, keep + [keys[i] !in seen])
  {
    assert keys[..i + 1] == keys[..i] + [keys[i]] && rows[..i + 1] == rows[..i] + [rows[i]];
    FirstsNext(rows[..i], keys[..i], rows[i], keys[i], {});
    MaskedPush(rows[..i], keep, rows[i], keys[i] !in seen);
    assert FirstMask(keys)[..i + 1] == FirstMask(keys)[..i] + [keys[i] !in seen];
  }

  lemma ScannedAll<T>(rows: seq<T>, keys: seq<string>, seen: set<string>, keep: seq<bool>)
    requires |keys| == |rows| && Scanned(rows, keys, |rows|, seen, keep)
    ensures keep == FirstMask(keys) && Masked(rows, keep) == Firsts(rows, keys, {})
  {
    assert rows[..|rows|] == rows && keys[..|rows|] == keys && FirstMask(keys)[..|rows|] == FirstMask(keys);
  }

  /** `apply_deduplicate`: the rows whose key no earlier row has, in order. */
  method ApplyDeduplicate(rt: Runtime, names: seq<string>, rows: seq<Row>, columns: Option<seq<string>>) returns (kept: seq<Row>)
    ensures kept == FirstOfEachKey(rt, names, rows, columns, {})
    ensures kept == Masked(rows, FirstMask(Keys(rt, names, rows, columns)))
  {
    ghost var keys := Keys(rt, names, rows, columns);
    var seen: set<string>, keep: seq<bool> := {}, [];
    for i := 0 to |rows|
      invariant Scanned(rows, keys, i, seen, keep)
    {
      var key := KeyOf(rt, names, rows[i], columns);
      ScannedNext(rows, keys, i, seen, keep);
      keep := keep + [key !in seen];
      seen := seen + {key};
    }
    ScannedAll(rows, keys, seen, keep);
    FirstsByKeys(rt, names, rows, columns, {});
    kept := Masked(rows, keep);
  }

  /** No key is in `seen` or repeated. */
  ghost predicate AllNew(keys: seq<string>, seen: set<string>) {
    forall i :: 0 <= i < |keys| ==> keys[i] !in seen && IsFirst(keys, i)
  }

  lemma {:induction false} NewRowsStay<T>(rows: seq<T>, keys: seq<string>, seen: set<string>)
    requires |keys| == |rows| && AllNew(keys, seen)
    ensures Firsts(rows, keys, seen) == rows
    decreases |rows|
  {
    if rows != [] {
      forall i | 0 <= i < |keys[1..]|
        ensures keys[1..][i] !in seen + {keys[0]} && IsFirst(keys[1..], i)
      {
        assert IsFirst(keys, i + 1) && keys[..i + 1] == [keys[0]] + keys[1..][..i];
      }
      NewRowsStay(rows[1..], keys[1..], seen + {keys[0]});
    }
  }

  lemma KeySetCons(key: string, rest: seq<string>)
    ensures KeySet([key] + rest) == {key} + KeySet(rest)
  {
  }

  lemma AllNewCons(key: string, rest: seq<string>, seen: set<string>)
    requires key !in seen && AllNew(rest, seen + {key})
    ensures AllNew([key] + rest, seen)
  {
    var keys := [key] + rest;
    forall i | 0 <= i < |keys|
      ensures keys[i] !in seen && IsFirst(keys, i)
    {
      if i > 0 {
        assert keys[i] == rest[i - 1] && IsFirst(rest, i - 1);
        assert keys[..i] == [key] + rest[..i - 1];
      }
    }
  }

  /** The kept keys are new, and they are all the keys that were not seen before. */
  lemma {:induction false} FirstsAreNew(keys: seq<string>, seen: set<string>)
    ensures AllNew(Firsts(keys, keys, seen), seen) && KeySet(Firsts(keys, keys, seen)) == KeySet(keys) - seen
    decreases |keys|
  {
    if keys != [] {
      assert keys == [keys[0]] + keys[1..];
      FirstsAreNew(keys[1..], if keys[0] in seen then seen else seen + {keys[0]});
      if keys[0] !in seen {
        var rest := Firsts(keys[1..], keys[1..], seen + {keys[0]});
        AllNewCons(keys[0], rest, seen);
        KeySetCons(keys[0], rest);
        KeySetCons(keys[0], keys[1..]);
      }
    }
  }

  lemma {:induction false} KeysOfFirsts(rt: Runtime, names: seq<string>, rows: seq<Row>, columns: Option<seq<string>>, seen: set<string>)
    ensures var keys := Keys(rt, names, rows, columns);
            Keys(rt, names, Firsts(rows, keys, seen), columns) == Firsts(keys, keys, seen)
    decreases |rows|
  {
    if rows != [] {
      var key, rest := KeyOf(rt, names, rows[0], columns), Keys(rt, names, rows[1..], columns);
      KeysCons(rt, names, rows[0], rows[1..], columns);
      assert [rows[0]] + rows[1..] == rows && ([key] + rest)[1..] == rest;
      KeysOfFirsts(rt, names, rows[1..], columns, if key in seen then seen else seen + {key});
      if key !in seen {
        KeysCons(rt, names, rows[0], Firsts(rows[1..], rest, seen + {key}), columns);
      }
    }
  }

  lemma KeysCons(rt: Runtime, names: seq<string>, row: Row, rest: seq<Row>, columns: Option<seq<string>>)
    ensures Keys(rt, names, [row] + rest, columns) == [KeyOf(rt, names, row, columns)] + Keys(rt, names, rest, columns)
  {
    var rows, all := [row] + rest, Keys(rt, names, [row] + rest, columns);
    var key, tail := KeyOf(rt, names, row, columns), Keys(rt, names, rest, columns);
    assert all[0] == key by {
      assert rows[0] == row;
    }
    assert all[1..] == tail by {
      KeysTail(rt, names, rows, rest, columns);
    }
    HeadThenTail(all, key);
  }

  lemma KeysTail(rt: Runtime, names: seq<string>, rows: seq<Row>, rest: seq<Row>, columns: Option<seq<string>>)
    requires rows != [] && rows[1..] == rest
    ensures Keys(rt, names, rows, columns)[1..] == Keys(rt, names, rest, columns)
  {
    forall i | 0 <= i < |rest|
      ensures Keys(rt, names, rows, columns)[i + 1] == Keys(rt, names, rest, columns)[i]
    {
      assert rows[i + 1] == rest[i];
    }
  }

  lemma HeadThenTail<T>(s: seq<T>, head: T)
    requires s != [] && s[0] == head
    ensures s == [head] + s[1..]
  {
  }

  /** Deduplication keeps every key once, and deduplicating again changes nothing. */
  lemma DeduplicateOnce(rt: Runtime, names: seq<string>, rows: seq<Row>, columns: Option<seq<string>>)
    ensures var kept := FirstOfEachKey(rt, names, rows, columns, {});
            && FirstOfEachKey(rt, names, kept, columns, {}) == kept
            && AllNew(Keys(rt, names, kept, columns), {})
            && KeySet(Keys(rt, names, kept, columns)) == KeySet(Keys(rt, names, rows, columns))
  {
    var keys := Keys(rt, names, rows, columns);
    FirstsByKeys(rt, names, rows, columns, {});
    KeysOfFirsts(rt, names, rows, columns, {});
    FirstsAreNew(keys, {});
    var kept := Firsts(rows, keys, {});
    FirstsByKeys(rt, names, kept, columns, {});
    NewRowsStay(kept, Keys(rt, names, kept, columns), {});
  }

  // ---- the sample

  function SwapAt(s: seq<nat>, i: nat, j: nat): (t: seq<nat>)
    requires i < |s| && j < |s|
    ensures |t| == |s|
  {
    s[i := s[j]][j := s[i]]
  }

  /** The index vector after the first swaps, each with a position no earlier than its own. */
  function Swapped(s: seq<nat>, i: nat, choices: seq<nat>): (t: seq<nat>)
    requires i + |choices| <= |s| && forall k :: 0 <= k < |choices| ==> i + k <= choices[k] < |s|
    ensures |t| == |s|
    decreases |choices|
  {
    if choices == [] then s
    else
      assert forall k :: 0 <= k < |choices[1..]| ==> choices[1..][k] == choices[k + 1];
      Swapped(SwapAt(s, i, choices[0]), i + 1, choices[1..])
  }

  ghost predicate AllDifferent(s: seq<nat>) {
    forall a, b :: 0 <= a < b < |s| ==> s[a] != s[b]
  }

  ghost predicate Choices(n: nat, i: nat, choices: seq<nat>) {
    i + |choices| <= n && forall k :: 0 <= k < |choices| ==> i + k <= choices[k] < n
  }

  lemma SwapKeepsDifferent(s: seq<nat>, i: nat, j: nat)
    requires i <= j < |s| && AllDifferent(s)
    ensures AllDifferent(SwapAt(s, i, j)) && SwapAt(s, i, j)[..i] == s[..i]
    ensures forall x :: x in SwapAt(s, i, j) ==> x in s
  {
  }

  lemma {:induction false} SwappedKeepsPrefix(s: seq<nat>, i: nat, choices: seq<nat>)
    requires Choices(|s|, i, choices) && AllDifferent(s)
    ensures AllDifferent(Swapped(s, i, choices)) && Swapped(s, i, choices)[..i] == s[..i]
    ensures forall x :: x in Swapped(s, i, choices) ==> x in s
    decreases |choices|
  {
    if choices != [] {
      var t := SwapAt(s, i, choices[0]);
      SwapKeepsDifferent(s, i, choices[0]);
      assert forall k :: 0 <= k < |choices[1..]| ==> choices[1..][k] == choices[k + 1];
      SwappedKeepsPrefix(t, i + 1, choices[1..]);
      assert Swapped(s, i, choices)[..i] == Swapped(s, i, choices)[..i + 1][..i] == t[..i + 1][..i] == t[..i];
    }
  }

  /** `apply_sample` swaps a prefix of the index vector into place, by positions drawn from a seeded generator. */
  method SampleIndices(total: nat, take: nat, seed: Option<nat>, mix: nat -> nat) returns (indices: array<nat>, ghost choices: seq<nat>)
    requires take < total
    ensures fresh(indices) && indices.Length == total
    ensures |choices| == take && Choices(total, 0, choices)
    ensures indices[..] == Swapped(seq(total, i requires 0 <= i < total => i), 0, choices)
  {
    indices := new nat[total](i => i);
    choices := [];
    ghost var start := seq(total, i requires 0 <= i < total => i);
    assert indices[..] == start;
    var rng: nat := if seed.None? then 0x517cc1b727220a95 else seed.value;
    for i := 0 to take
      invariant |choices| == i && Choices(total, 0, choices)
      invariant indices[..] == Swapped(start, 0, choices)
    {
      rng := mix(rng);
      var j := i + rng % (total - i);
      SwappedNext(start, 0, choices, j);
      ghost var before := indices[..];
      indices[i], indices[j] := indices[j], indices[i];
      assert indices[..] == SwapAt(before, i, j);
      choices := choices + [j];
    }
  }

  lemma {:induction false} SwappedNext(s: seq<nat>, i: nat, choices: seq<nat>, j: nat)
    requires Choices(|s|, i, choices) && i + |choices| <= j < |s|
    ensures Choices(|s|, i, choices + [j])
    ensures Swapped(s, i, choices + [j]) == SwapAt(Swapped(s, i, choices), i + |choices|, j)
    decreases |choices|
  {
    if choices == [] {
      assert ([] + [j])[1..] == [];
    } else {
      assert (choices + [j])[0] == choices[0] && (choices + [j])[1..] == choices[1..] + [j];
      SwappedNext(SwapAt(s, i, choices[0]), i + 1, choices[1..], j);
    }
  }

  /** Different draws give different samples. */
  lemma {:induction false} DrawsAreInjective(s: seq<nat>, i: nat, a: seq<nat>, b: seq<nat>)
    requires AllDifferent(s) && |a| == |b| && Choices(|s|, i, a) && Choices(|s|, i, b)
    requires Swapped(s, i, a)[..i + |a|] == Swapped(s, i, b)[..i + |b|]
    ensures a == b
    decreases |a|
  {
    if a != [] {
      var sa, sb := SwapAt(s, i, a[0]), SwapAt(s, i, b[0]);
      SwapKeepsDifferent(s, i, a[0]);
      SwapKeepsDifferent(s, i, b[0]);
      SwappedKeepsPrefix(sa, i + 1, a[1..]);
      SwappedKeepsPrefix(sb, i + 1, b[1..]);
      assert Swapped(s, i, a)[i] == Swapped(s, i, a)[..i + 1][i] == s[a[0]];
      assert Swapped(s, i, b)[i] == Swapped(s, i, b)[..i + 1][i] == s[b[0]];
      assert Swapped(s, i, a)[..i + |a|][i] == Swapped(s, i, b)[..i + |b|][i];
      assert a[0] == b[0];
      DrawsAreInjective(sa, i + 1, a[1..], b[1..]);
    }
  }

  /** After one swap puts the first target in place, the others are still behind it. */
  lemma OthersStay(s: seq<nat>, i: nat, j: nat, target: seq<nat>)
    requires i <= j < |s| && target != [] && AllDifferent(target) && target[0] == s[j]
    requires forall k :: 0 <= k < |target| ==> target[k] in s[i..]
    ensures forall k :: 0 <= k < |target[1..]| ==> target[1..][k] in SwapAt(s, i, j)[i + 1..]
  {
    forall k | 0 <= k < |target[1..]|
      ensures target[1..][k] in SwapAt(s, i, j)[i + 1..]
    {
      OtherStays(s, i, j, target[k + 1]);
    }
  }

  lemma OtherStays(s: seq<nat>, i: nat, j: nat, x: nat)
    requires i <= j < |s| && x in s[i..] && x != s[j]
    ensures x in SwapAt(s, i, j)[i + 1..]
  {
    var o :| 0 <= o < |s[i..]| && s[i..][o] == x;
    var t := SwapAt(s, i, j);
    if o == 0 {
      assert t[i + 1..][j - i - 1] == x;
    } else {
      assert t[i + 1..][o - 1] == x;
    }
  }

  lemma PlaceOf(s: seq<nat>, i: nat, x: nat) returns (j: nat)
    requires i <= |s| && x in s[i..]
    ensures i <= j < |s| && s[j] == x
  {
    var o :| 0 <= o < |s[i..]| && s[i..][o] == x;
    j := i + o;
  }

  lemma ChoicesCons(n: nat, i: nat, j: nat, rest: seq<nat>)
    requires i <= j < n && Choices(n, i + 1, rest)
    ensures Choices(n, i, [j] + rest) && ([j] + rest)[1..] == rest
  {
  }

  lemma Joined(out: seq<nat>, t: seq<nat>, i: nat, target: seq<nat>)
    requires target != [] && i + |target| <= |out| && i < |t| && out[..i + 1] == t[..i + 1] && t[i] == target[0]
    requires out[i + 1..i + |target|] == target[1..]
    ensures out[i..i + |target|] == target
  {
    assert out[i] == out[..i + 1][i] == t[..i + 1][i];
    assert out[i..i + |target|] == [out[i]] + out[i + 1..i + |target|];
  }

  /** Every list of different indices is the sample of some draw. */
  lemma {:induction false} EverySampleIsDrawn(s: seq<nat>, i: nat, target: seq<nat>) returns (choices: seq<nat>)
    requires AllDifferent(s) && i + |target| <= |s| && AllDifferent(target)
    requires forall k :: 0 <= k < |target| ==> target[k] in s[i..]
    ensures |choices| == |target| && Choices(|s|, i, choices)
    ensures Swapped(s, i, choices)[i..i + |target|] == target
    decreases |target|
  {
    if target == [] {
      choices := [];
    } else {
      var j := PlaceOf(s, i, target[0]);
      var t := SwapAt(s, i, j);
      SwapKeepsDifferent(s, i, j);
      OthersStay(s, i, j, target);
      var rest := EverySampleIsDrawn(t, i + 1, target[1..]);
      choices := [j] + rest;
      ChoicesCons(|s|, i, j, rest);
      SwappedKeepsPrefix(t, i + 1, rest);
      Joined(Swapped(t, i + 1, rest), t, i, target);
    }
  }

  // ---- ranks and tiles

  /** The rank array: position `r` of the sorted order gives its row the rank `r + 1`. */
  method RankColumn(n: nat, indices: seq<nat>) returns (rankOf: array<nat>)
    requires forall r :: 0 <= r < |indices| ==> indices[r] < n
    ensures fresh(rankOf) && rankOf[..] == seq(n, i requires 0 <= i < n => LastPosition(indices, i))
  {
    rankOf := new nat[n](_ => 0);
    for r := 0 to |indices|
      invariant forall i :: 0 <= i < n ==> rankOf[i] == LastPosition(indices[..r], i)
    {
      rankOf[indices[r]] := r + 1;
      assert indices[..r + 1][..r] == indices[..r];
    }
    assert indices[..|indices|] == indices;
  }

  /** When the sort is a permutation, ranks invert it: the row ranked `r` is the one sorted to place `r`. */
  lemma {:induction false} RankInvertsSort(perm: seq<nat>, r: nat)
    requires AllDifferent(perm) && r < |perm|
    ensures LastPosition(perm, perm[r]) == r + 1
    decreases |perm|
  {
    var last := |perm| - 1;
    if r != last {
      assert perm[last] != perm[r];
      RankInvertsSort(perm[..last], r);
    }
  }

  lemma ShareOf(a: nat, n: nat, q: nat)
    requires n > 0
    ensures a / n == q <==> q * n <= a < q * n + n
  {
    var r := a / n;
    assert a == r * n + a % n && 0 <= a % n < n;
    if r < q {
      Multiples(r + 1, q, n);
    } else if q < r {
      Multiples(q + 1, r, n);
    }
  }

  lemma Multiples(a: nat, b: nat, n: nat)
    requires a <= b
    ensures a * n <= b * n
  {
  }

  /** `NTile` gives row `i` of `n` the tile `t` exactly when `i` lies in the `t`-th of `tiles` equal shares;
      the clip to the last tile never acts. */
  lemma TileIsShare(i: nat, tiles: nat, n: nat, t: nat)
    requires i < n && tiles > 0 && 1 <= t <= tiles
    ensures TileOf(i, tiles, n) == i * tiles / n + 1
    ensures TileOf(i, tiles, n) == t <==> (t - 1) * n <= i * tiles < (t - 1) * n + n
  {
    ShareOf(i * tiles, n, t - 1);
    LastShare(i, tiles, n);
  }

  lemma LastShare(i: nat, tiles: nat, n: nat)
    requires i < n && tiles > 0
    ensures i * tiles / n < tiles
  {
    var q := i * tiles / n;
    ShareOf(i * tiles, n, q);
    Multiples(i + 1, n, tiles);
    assert q * n < n * tiles;
    QuotientBelow(q, tiles, n);
  }

  lemma QuotientBelow(q: nat, tiles: nat, n: nat)
    requires q * n < n * tiles
    ensures q < tiles
  {
    if tiles <= q {
      Multiples(tiles, q, n);
      assert false;
    }
  }

  // ---- group boundaries

  /** The scan of `group_by_sorted`. */
  method GroupBoundaries(keys: seq<seq<string>>) returns (bounds: seq<(nat, nat)>)
    ensures bounds == Boundaries(keys, 0)
  {
    bounds := [];
    if keys == [] {
      return;
    }
    var start := 0;
    for i := 1 to |keys|
      invariant 0 <= start < i
      invariant RunEnd(keys, start) == RunEnd(keys, i - 1)
      invariant Boundaries(keys, 0) == bounds + Boundaries(keys, start)
    {
      if keys[i] != keys[i - 1] {
        Reassociate(bounds, [(start, i)], Boundaries(keys, i));
        bounds := bounds + [(start, i)];
        start := i;
      }
    }
    Reassociate(bounds, [(start, |keys|)], Boundaries(keys, |keys|));
    bounds := bounds + [(start, |keys|)];
  }
}
