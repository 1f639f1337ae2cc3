/** Sequence vocabulary shared by every component: flattening a list of batches
    and taking the window `[offset, offset + limit)` of a list of rows. */
module Seqs {

  datatype Option<+T> = None | Some(value: T)

  function Min(a: int, b: int): int {
    if a <= b then a else b
  }

  /** The rows of a list of batches, in order. */
  function Flatten<T>(batches: seq<seq<T>>): (rows: seq<T>) {
    if batches == [] then [] else batches[0] + Flatten(batches[1..])
  }

  /** The window `[offset, offset + limit)` of `rows`, clipped at the end. */
  function Slice<T>(rows: seq<T>, offset: nat, limit: nat): (window: seq<T>)
    ensures |window| <= limit
  {
    rows[Min(offset, |rows|)..Min(offset + limit, |rows|)]
  }

  lemma Reassociate<T>(a: seq<T>, b: seq<T>, c: seq<T>)
    ensures a + (b + c) == a + b + c
  {
  }

  lemma {:induction false} FlattenAppend<T>(a: seq<seq<T>>, b: seq<seq<T>>)
    ensures Flatten(a + b) == Flatten(a) + Flatten(b)
  {
    if a == [] {
      assert a + b == b;
    } else {
      assert (a + b)[1..] == a[1..] + b;
      FlattenAppend(a[1..], b);
    }
  }

  lemma FlattenOne<T>(a: seq<seq<T>>, x: seq<T>)
    ensures Flatten(a + [x]) == Flatten(a) + x
    ensures Flatten([x]) == x
  {
    FlattenAppend(a, [x]);
    assert [x][1..] == [];
    assert x + [] == x;
  }

  lemma FlattenNext<T>(a: seq<seq<T>>, i: nat)
    requires i < |a|
    ensures Flatten(a[..i + 1]) == Flatten(a[..i]) + a[i]
  {
    assert a[..i + 1] == a[..i] + [a[i]];
    FlattenOne(a[..i], a[i]);
  }

  /** Splitting at `i` splits the flattened rows. */
  lemma FlattenSplit<T>(a: seq<seq<T>>, i: nat)
    requires i <= |a|
    ensures Flatten(a) == Flatten(a[..i]) + Flatten(a[i..])
  {
    assert a == a[..i] + a[i..];
    FlattenAppend(a[..i], a[i..]);
  }

  /** `rows[i]` for each index `i` of `idx` that exists, in the order of `idx`:
      the meaning of Arrow's `take` and `interleave` on a single batch. */
  function Gather<T>(rows: seq<T>, idx: seq<nat>): (out: seq<T>) {
    if idx == [] then []
    else if idx[0] < |rows| then [rows[idx[0]]] + Gather(rows, idx[1..])
    else Gather(rows, idx[1..])
  }

  lemma {:induction false} GatherAt<T>(rows: seq<T>, idx: seq<nat>)
    requires forall i :: 0 <= i < |idx| ==> idx[i] < |rows|
    ensures |Gather(rows, idx)| == |idx|
    ensures forall j :: 0 <= j < |idx| ==> Gather(rows, idx)[j] == rows[idx[j]]
  {
    if idx != [] {
      GatherAt(rows, idx[1..]);
      forall j | 0 <= j < |idx|
        ensures Gather(rows, idx)[j] == rows[idx[j]]
      {
        if j > 0 {
          assert Gather(rows, idx)[j] == Gather(rows, idx[1..])[j - 1];
        }
      }
    }
  }

  /** `filter_record_batch` by a mask: the rows whose bit is set. */
  function Masked<T>(rows: seq<T>, keep: seq<bool>): seq<T>
    requires |rows| == |keep|
  {
    if rows == [] then []
    else Masked(rows[..|rows| - 1], keep[..|keep| - 1]) + if keep[|keep| - 1] then [rows[|rows| - 1]] else []
  }

  lemma MaskedPush<T>(rows: seq<T>, keep: seq<bool>, row: T, kept: bool)
    requires |keep| == |rows|
    ensures Masked(rows + [row], keep + [kept]) == Masked(rows, keep) + if kept then [row] else []
  {
    assert (rows + [row])[..|rows|] == rows && (keep + [kept])[..|rows|] == keep;
  }
}
