/** The sort index of crates/tv-engine/src/sort_index.rs: row ids in stable sorted order, and the
    reader that fetches rows by id through a row selection in file order and an inverse permutation. */
module SortIndex {
  import opened Seqs
  import opened Orders

  // ---- the index

  /** Keys first, row ids to break ties: the sort keys with `__row_id__` appended. */
  function ByKeyThenId<T>(leq: (T, T) -> bool): ((T, nat), (T, nat)) -> bool {
    (a: (T, nat), b: (T, nat)) => leq(a.0, b.0) && (!leq(b.0, a.0) || a.1 <= b.1)
  }

  lemma LexTransitive<T(!new)>(leq: (T, T) -> bool, a: (T, nat), b: (T, nat), c: (T, nat))
    requires TotalPreorder(leq) && ByKeyThenId(leq)(a, b) && ByKeyThenId(leq)(b, c)
    ensures ByKeyThenId(leq)(a, c)
  {
    var x, y, z := a.0, b.0, c.0;
    assert leq(x, y) && leq(y, z) && leq(x, z);
    if leq(z, x) {
      assert leq(z, y) && leq(y, x);
    }
  }

  lemma ByKeyThenIdIsTotal<T(!new)>(leq: (T, T) -> bool)
    requires TotalPreorder(leq)
    ensures TotalPreorder(ByKeyThenId(leq))
  {
    var lex := ByKeyThenId(leq);
    forall a, b
      ensures lex(a, b) || lex(b, a)
    {
      assert leq(a.0, b.0) || leq(b.0, a.0);
    }
    forall a, b, c | lex(a, b) && lex(b, c)
      ensures lex(a, c)
    {
      LexTransitive(leq, a, b, c);
    }
  }

  function WithIds<T>(keys: seq<T>): (rows: seq<(T, nat)>)
    ensures |rows| == |keys|
  {
    seq(|keys|, i requires 0 <= i < |keys| => (keys[i], i))
  }

  function Ids<T>(rows: seq<(T, nat)>): (ids: seq<nat>)
    ensures |ids| == |rows|
  {
    seq(|rows|, i requires 0 <= i < |rows| => rows[i].1)
  }

  /** Every row id once, by ascending key, equal keys in row order. */
  ghost predicate IsStableOrder<T>(leq: (T, T) -> bool, keys: seq<T>, ids: seq<nat>) {
    && |ids| == |keys| && (forall i :: 0 <= i < |ids| ==> ids[i] < |keys|)
    && (forall i, j :: 0 <= i < j < |ids| && ids[i] < |keys| && ids[j] < |keys| ==>
          leq(keys[ids[i]], keys[ids[j]]) && (leq(keys[ids[j]], keys[ids[i]]) ==> ids[i] < ids[j]))
  }

  /** `build`, batch by batch: every row gets its global row id, and the augmented rows are sorted. */
  method BuildSortIndex<T(!new)>(leq: (T, T) -> bool, batches: seq<seq<T>>, sort: seq<(T, nat)> -> seq<(T, nat)>) returns (ids: seq<nat>)
    requires TotalPreorder(leq) && Sorts(ByKeyThenId(leq), sort)
    ensures IsStableOrder(leq, Flatten(batches), ids)
  {
    var augmented: seq<(T, nat)> := [];
    var globalRow := 0;
    for b := 0 to |batches|
      invariant globalRow == |Flatten(batches[..b])| && augmented == WithIds(Flatten(batches[..b]))
    {
      FlattenNext(batches, b);
      var batch := batches[b];
      augmented := augmented + seq(|batch|, i requires 0 <= i < |batch| => (batch[i], globalRow + i));
      globalRow := globalRow + |batch|;
    }
    assert batches[..|batches|] == batches;
    var sorted := sort(augmented);
    ids := Ids(sorted);
    SortedPairsAreStable(leq, Flatten(batches), sorted);
  }

  lemma SortedPairsAreStable<T(!new)>(leq: (T, T) -> bool, keys: seq<T>, sorted: seq<(T, nat)>)
    requires TotalPreorder(leq) && Sorted(ByKeyThenId(leq), sorted) && multiset(sorted) == multiset(WithIds(keys))
    ensures IsStableOrder(leq, keys, Ids(sorted))
  {
    var rows, ids := WithIds(keys), Ids(sorted);
    assert |multiset(sorted)| == |multiset(rows)|;
    forall i | 0 <= i < |sorted|
      ensures sorted[i].1 < |keys| && sorted[i].0 == keys[sorted[i].1]
    {
      assert sorted[i] in multiset(rows);
    }
    forall i, j | 0 <= i < j < |ids|
      ensures leq(keys[ids[i]], keys[ids[j]]) && (leq(keys[ids[j]], keys[ids[i]]) ==> ids[i] < ids[j])
    {
      assert ByKeyThenId(leq)(sorted[i], sorted[j]);
      if sorted[i].1 == sorted[j].1 {
        SameIdSameRow(keys, sorted, i, j);
      }
    }
  }

  /** A row id occurs once, so two places cannot share it. */
  lemma SameIdSameRow<T>(keys: seq<T>, sorted: seq<(T, nat)>, i: nat, j: nat)
    requires multiset(sorted) == multiset(WithIds(keys)) && i < j < |sorted|
    ensures sorted[i] != sorted[j]
  {
    var x := sorted[i];
    if x == sorted[j] {
      assert sorted == sorted[..i] + [x] + sorted[i + 1..j] + [x] + sorted[j + 1..];
      assert multiset(sorted)[x] >= 2;
      IdsOccurOnce(keys, x);
    }
  }

  lemma {:induction false} IdsOccurOnce<T>(keys: seq<T>, x: (T, nat))
    ensures multiset(WithIds(keys))[x] <= 1
    ensures x in multiset(WithIds(keys)) ==> x.1 < |keys|
  {
    if keys != [] {
      var init := keys[..|keys| - 1];
      IdsOccurOnce(init, x);
      assert WithIds(keys) == WithIds(init) + [(keys[|keys| - 1], |keys| - 1)];
    }
  }

  ghost predicate AllDifferent(ids: seq<nat>) {
    forall i, j :: 0 <= i < j < |ids| ==> ids[i] != ids[j]
  }

  /** `n` different ids below `n`. */
  ghost predicate AreIds(ids: seq<nat>, n: nat) {
    |ids| == n && AllDifferent(ids) && forall i :: 0 <= i < |ids| ==> ids[i] < n
  }

  lemma {:induction false} DifferentOnce(ids: seq<nat>, x: nat)
    requires AllDifferent(ids)
    ensures multiset(ids)[x] == if x in ids then 1 else 0
  {
    if ids != [] {
      DifferentOnce(ids[1..], x);
      assert ids == [ids[0]] + ids[1..];
    }
  }

  function IdSet(ids: seq<nat>): set<nat> {
    set x | x in ids
  }

  lemma {:induction false} DifferentSetSize(ids: seq<nat>)
    requires AllDifferent(ids)
    ensures |IdSet(ids)| == |ids|
  {
    if ids != [] {
      DifferentSetSize(ids[1..]);
      assert ids == [ids[0]] + ids[1..];
      assert IdSet(ids) == {ids[0]} + IdSet(ids[1..]);
      assert ids[0] !in ids[1..];
    }
  }

  function Below(n: nat): (ids: set<nat>)
    ensures |ids| == n && forall x: nat :: x in ids <==> x < n
  {
    if n == 0 then {} else Below(n - 1) + {n - 1}
  }

  /** They are all the ids below `n`. */
  lemma IdsFill(ids: seq<nat>, n: nat, x: nat)
    requires AreIds(ids, n)
    ensures x in ids <==> x < n
  {
    var missing := Below(n) - IdSet(ids);
    DifferentSetSize(ids);
    assert Below(n) == IdSet(ids) + missing;
    assert missing == {};
    assert x in Below(n) ==> x in IdSet(ids);
  }

  lemma SameIds(a: seq<nat>, b: seq<nat>, n: nat)
    requires AreIds(a, n) && AreIds(b, n)
    ensures multiset(a) == multiset(b)
  {
    forall x: nat
      ensures multiset(a)[x] == multiset(b)[x]
    {
      IdsFill(a, n, x);
      IdsFill(b, n, x);
      DifferentOnce(a, x);
      DifferentOnce(b, x);
    }
  }

  lemma StableOrderIsIds<T(!new)>(leq: (T, T) -> bool, keys: seq<T>, ids: seq<nat>)
    requires TotalPreorder(leq) && IsStableOrder(leq, keys, ids)
    ensures AreIds(ids, |keys|)
  {
  }

  /** The stable order is unique: any other stable order of the same keys is the same list. */
  lemma StableOrderIsUnique<T(!new)>(leq: (T, T) -> bool, keys: seq<T>, a: seq<nat>, b: seq<nat>)
    requires TotalPreorder(leq) && IsStableOrder(leq, keys, a) && IsStableOrder(leq, keys, b)
    ensures a == b
  {
    var pa, pb := Pairs(keys, a), Pairs(keys, b);
    StableOrderIsIds(leq, keys, a);
    StableOrderIsIds(leq, keys, b);
    SameIds(a, b, |keys|);
    ByKeyThenIdIsTotal(leq);
    PairsFollow(keys, a, b);
    forall i | 0 <= i < |a|
      ensures a[i] == b[i]
    {
      SortedArrangementsAgree(ByKeyThenId(leq), pa, pb, i);
      assert ByKeyThenId(leq)(pa[i], pb[i]) && ByKeyThenId(leq)(pb[i], pa[i]);
    }
  }

  function Pairs<T>(keys: seq<T>, ids: seq<nat>): (pairs: seq<(T, nat)>)
    requires forall i :: 0 <= i < |ids| ==> ids[i] < |keys|
  {
    seq(|ids|, i requires 0 <= i < |ids| => (keys[ids[i]], ids[i]))
  }

  lemma {:induction false} PairsFollow<T>(keys: seq<T>, a: seq<nat>, b: seq<nat>)
    requires multiset(a) == multiset(b)
    requires forall i :: 0 <= i < |a| ==> a[i] < |keys|
    requires forall i :: 0 <= i < |b| ==> b[i] < |keys|
    ensures multiset(Pairs(keys, a)) == multiset(Pairs(keys, b))
    decreases |a|
  {
    assert |multiset(a)| == |multiset(b)|;
    if a != [] {
      assert a[0] in multiset(b);
      var j :| 0 <= j < |b| && b[j] == a[0];
      var b' := b[..j] + b[j + 1..];
      SameWithout(a, b, j);
      PairsFollow(keys, a[1..], b');
      assert Pairs(keys, a) == [Pairs(keys, a)[0]] + Pairs(keys, a[1..]);
      assert Pairs(keys, b) == Pairs(keys, b[..j]) + [Pairs(keys, b)[j]] + Pairs(keys, b[j + 1..]);
      assert Pairs(keys, b') == Pairs(keys, b[..j]) + Pairs(keys, b[j + 1..]);
    }
  }

  /** `tile_lookup`: the stored ids of one tile. */
  function TileLookup(ids: seq<nat>, offset: nat, limit: nat): (tile: seq<nat>)
    ensures tile == Slice(ids, offset, limit)
  {
    var end := Min(offset + limit, |ids|);
    if end <= offset then [] else ids[offset..end]
  }

  // ---- reading rows by id

  datatype RowSelector = Skip(n: nat) | Select(n: nat)

  /** What a reader standing at `pos` delivers under a row selection. */
  function Selected<T>(file: seq<T>, pos: nat, selectors: seq<RowSelector>): seq<T>
    decreases |selectors|
  {
    if selectors == [] then []
    else match selectors[0]
      case Skip(n) => Selected(file, pos + n, selectors[1..])
      case Select(n) => file[Min(pos, |file|)..Min(pos + n, |file|)] + Selected(file, pos + n, selectors[1..])
  }

  function PositionAfter(pos: nat, selectors: seq<RowSelector>): nat
    decreases |selectors|
  {
    if selectors == [] then pos else PositionAfter(pos + selectors[0].n, selectors[1..])
  }

  lemma {:induction false} SelectedAppend<T>(file: seq<T>, pos: nat, a: seq<RowSelector>, b: seq<RowSelector>)
    ensures Selected(file, pos, a + b) == Selected(file, pos, a) + Selected(file, PositionAfter(pos, a), b)
    ensures PositionAfter(pos, a + b) == PositionAfter(PositionAfter(pos, a), b)
    decreases |a|
  {
    if a == [] {
      assert a + b == b;
    } else {
      assert (a + b)[0] == a[0] && (a + b)[1..] == a[1..] + b;
      SelectedAppend(file, pos + a[0].n, a[1..], b);
    }
  }

  /** Skipping to a row and selecting it. */
  lemma SelectRow<T>(file: seq<T>, selectors: seq<RowSelector>, pos: nat, row: nat)
    requires pos <= row < |file| && PositionAfter(0, selectors) == pos
    ensures var more := selectors + (if row > pos then [Skip(row - pos)] else []) + [Select(1)];
            Selected(file, 0, more) == Selected(file, 0, selectors) + [file[row]] && PositionAfter(0, more) == row + 1
  {
    var skip := if row > pos then [Skip(row - pos)] else [];
    SelectedAppend(file, 0, selectors, skip);
    SelectedAppend(file, 0, selectors + skip, [Select(1)]);
    assert skip != [] ==> skip[1..] == [];
    assert [Select(1)][1..] == [];
    assert selectors + [] == selectors;
    assert Selected(file, pos, skip) == [] && PositionAfter(pos, skip) == row;
    SelectOne(file, row);
  }

  lemma SelectOne<T>(file: seq<T>, row: nat)
    requires row < |file|
    ensures Selected(file, row, [Select(1)]) == [file[row]] && PositionAfter(row, [Select(1)]) == row + 1
  {
    assert [Select(1)][1..] == [];
    assert Selected(file, row + 1, []) == [];
    assert file[row..row + 1] == [file[row]];
  }

  /** `(position, id)` pairs compared by id. */
  function ById(): ((nat, nat), (nat, nat)) -> bool {
    (a: (nat, nat), b: (nat, nat)) => a.1 <= b.1
  }

  function Enumerated(ids: seq<nat>): (indexed: seq<(nat, nat)>)
    ensures |indexed| == |ids|
  {
    seq(|ids|, i requires 0 <= i < |ids| => (i, ids[i]))
  }

  ghost predicate Distinct(ids: seq<nat>) {
    forall i, j :: 0 <= i < j < |ids| ==> ids[i] != ids[j]
  }

  /** What sorting the enumerated ids by id yields: each position once, ids strictly ascending. */
  ghost predicate InFileOrder(ids: seq<nat>, indexed: seq<(nat, nat)>) {
    && |indexed| == |ids|
    && (forall i :: 0 <= i < |indexed| ==> indexed[i].0 < |ids| && indexed[i].1 == ids[indexed[i].0])
    && (forall i, j :: 0 <= i < j < |indexed| ==> indexed[i].1 < indexed[j].1)
    && (forall p :: 0 <= p < |ids| ==> exists i :: 0 <= i < |indexed| && indexed[i] == (p, ids[p]))
  }

  lemma SortedIsInFileOrder(ids: seq<nat>, indexed: seq<(nat, nat)>)
    requires Distinct(ids) && Sorted(ById(), indexed) && multiset(indexed) == multiset(Enumerated(ids))
    ensures InFileOrder(ids, indexed)
  {
    assert |multiset(indexed)| == |multiset(Enumerated(ids))|;
    forall i | 0 <= i < |indexed|
      ensures indexed[i].0 < |ids| && indexed[i].1 == ids[indexed[i].0]
    {
      assert indexed[i] in multiset(Enumerated(ids));
    }
    forall i, j | 0 <= i < j < |indexed|
      ensures indexed[i].1 < indexed[j].1
    {
      assert ById()(indexed[i], indexed[j]);
      PlaceOnce(ids, indexed, i, j);
    }
    forall p | 0 <= p < |ids|
      ensures exists i :: 0 <= i < |indexed| && indexed[i] == (p, ids[p])
    {
      assert Enumerated(ids)[p] == (p, ids[p]);
      assert (p, ids[p]) in multiset(indexed);
    }
  }

  lemma PlaceOnce(ids: seq<nat>, indexed: seq<(nat, nat)>, i: nat, j: nat)
    requires multiset(indexed) == multiset(Enumerated(ids)) && i < j < |indexed|
    ensures indexed[i] != indexed[j]
  {
    var x := indexed[i];
    if x == indexed[j] {
      assert indexed == indexed[..i] + [x] + indexed[i + 1..j] + [x] + indexed[j + 1..];
      assert multiset(indexed)[x] >= 2;
      PlacesOccurOnce(ids, x);
    }
  }

  lemma {:induction false} PlacesOccurOnce(ids: seq<nat>, x: (nat, nat))
    ensures multiset(Enumerated(ids))[x] <= 1
    ensures x in multiset(Enumerated(ids)) ==> x.0 < |ids|
  {
    if ids != [] {
      var init := ids[..|ids| - 1];
      PlacesOccurOnce(init, x);
      assert Enumerated(ids) == Enumerated(init) + [(|ids| - 1, ids[|ids| - 1])];
    }
  }

  /** `read_rows_by_ids`: position `i` of the result is the file's row `ids[i]`. */
  method ReadRowsByIds<T>(file: seq<T>, ids: seq<nat>, sortById: seq<(nat, nat)> -> seq<(nat, nat)>) returns (rows: seq<T>)
    requires Distinct(ids) && (forall i :: 0 <= i < |ids| ==> ids[i] < |file|) && Sorts(ById(), sortById)
    ensures |rows| == |ids| && forall i :: 0 <= i < |ids| ==> rows[i] == file[ids[i]]
  {
    if ids == [] {
      return [];
    }
    var indexed := sortById(Enumerated(ids));
    SortedIsInFileOrder(ids, indexed);
    var selectors := SelectorsFor(file, ids, indexed);
    var inFileOrder := Selected(file, 0, selectors);
    var n := |ids|;
    var perm := new nat[n](i => 0);
    for k := 0 to n
      invariant forall j :: 0 <= j < k ==> perm[indexed[j].0] == j
    {
      perm[indexed[k].0] := k;
    }
    rows := Gather(inFileOrder, perm[..]);
    InverseGathers(file, ids, indexed, inFileOrder, perm[..]);
  }

  /** The inverse permutation puts the rows read in file order where their ids asked for them. */
  lemma InverseGathers<T>(file: seq<T>, ids: seq<nat>, indexed: seq<(nat, nat)>, inFileOrder: seq<T>, perm: seq<nat>)
    requires InFileOrder(ids, indexed) && |perm| == |ids| == |inFileOrder|
    requires forall i :: 0 <= i < |ids| ==> ids[i] < |file|
    requires forall j :: 0 <= j < |indexed| ==> perm[indexed[j].0] == j && inFileOrder[j] == file[indexed[j].1]
    ensures |Gather(inFileOrder, perm)| == |ids| && forall i :: 0 <= i < |ids| ==> Gather(inFileOrder, perm)[i] == file[ids[i]]
  {
    forall p | 0 <= p < |ids|
      ensures perm[p] < |ids| && inFileOrder[perm[p]] == file[ids[p]]
    {
      var i :| 0 <= i < |indexed| && indexed[i] == (p, ids[p]);
      assert perm[indexed[i].0] == i;
    }
    GatherAt(inFileOrder, perm);
  }

  /** The selection so far delivers the first `i` rows in file order and stands just behind the last. */
  ghost predicate Delivers<T>(file: seq<T>, selectors: seq<RowSelector>, indexed: seq<(nat, nat)>, i: nat, filePos: nat) {
    && i <= |indexed| && PositionAfter(0, selectors) == filePos
    && filePos == (if i == 0 then 0 else indexed[i - 1].1 + 1)
    && |Selected(file, 0, selectors)| == i
    && forall j :: 0 <= j < i && indexed[j].1 < |file| ==> Selected(file, 0, selectors)[j] == file[indexed[j].1]
  }

  lemma DeliversNext<T>(file: seq<T>, selectors: seq<RowSelector>, indexed: seq<(nat, nat)>, i: nat, filePos: nat)
    requires Delivers(file, selectors, indexed, i, filePos) && i < |indexed| && filePos <= indexed[i].1 < |file|
    ensures var row := indexed[i].1;
            Delivers(file, selectors + (if row > filePos then [Skip(row - filePos)] else []) + [Select(1)], indexed, i + 1, row + 1)
  {
    SelectRow(file, selectors, filePos, indexed[i].1);
  }

  /** The row selection: skip to each id in file order and select one row. */
  method SelectorsFor<T>(file: seq<T>, ghost ids: seq<nat>, indexed: seq<(nat, nat)>) returns (selectors: seq<RowSelector>)
    requires InFileOrder(ids, indexed) && forall i :: 0 <= i < |indexed| ==> indexed[i].1 < |file|
    ensures |Selected(file, 0, selectors)| == |indexed|
    ensures forall i :: 0 <= i < |indexed| ==> Selected(file, 0, selectors)[i] == file[indexed[i].1]
  {
    selectors := [];
    var filePos := 0;
    for i := 0 to |indexed|
      invariant Delivers(file, selectors, indexed, i, filePos)
    {
      var rowId := indexed[i].1;
      assert i > 0 ==> indexed[i - 1].1 < rowId;
      DeliversNext(file, selectors, indexed, i, filePos);
      if rowId > filePos {
        selectors := selectors + [Skip(rowId - filePos)];
      } else {
        assert selectors + [] == selectors;
      }
      selectors := selectors + [Select(1)];
      filePos := rowId + 1;
    }
  }

  lemma StableOrderIsDistinct<T(!new)>(leq: (T, T) -> bool, keys: seq<T>, ids: seq<nat>)
    requires TotalPreorder(leq) && IsStableOrder(leq, keys, ids)
    ensures Distinct(ids)
  {
    forall i, j | 0 <= i < j < |ids|
      ensures ids[i] != ids[j]
    {
      assert leq(keys[ids[i]], keys[ids[i]]);
    }
  }

  /** Looking up a tile of ids and reading their rows: the window of the stably sorted table. */
  method ReadSortedTile<K(!new), T>(ghost leq: (K, K) -> bool, ghost keys: seq<K>, file: seq<T>, ids: seq<nat>, offset: nat, limit: nat,
                                    sortById: seq<(nat, nat)> -> seq<(nat, nat)>) returns (rows: seq<T>)
    requires TotalPreorder(leq) && IsStableOrder(leq, keys, ids) && |keys| == |file| && Sorts(ById(), sortById)
    ensures rows == Slice(Gather(file, ids), offset, limit)
  {
    var tile := TileLookup(ids, offset, limit);
    StableOrderIsDistinct(leq, keys, ids);
    GatherAt(file, ids);
    assert forall i :: 0 <= i < |tile| ==> offset + i < |ids| && tile[i] == ids[offset + i];
    rows := ReadRowsByIds(file, tile, sortById);
  }
}
