/** The cache of crates/tv-engine/src/materializer.rs used by one task at a time: its accounting is
    exact, and eviction takes the least recently used entries of the kind that needs room, no more than needed. */
module ViewCache {
  import opened Seqs
  import opened SingleFlight

  type Entries = map<Key, Entry>

  ghost predicate DistinctSeqs(m: Entries) {
    forall j, k :: j in m && k in m && j != k ==> m[j].seqNo != m[k].seqNo
  }

  function OfKind(m: Entries, disk: bool): set<Key> {
    set k | k in m && m[k].view.disk == disk
  }

  function SetOf(list: seq<Key>): set<Key> {
    set k | k in list
  }

  // ---- least recently used first

  predicate IsOldest(m: Entries, keys: set<Key>, k: Key) {
    k in keys && forall j :: j in keys && j in m && k in m ==> m[k].seqNo <= m[j].seqNo
  }

  lemma {:induction false} OldestExists(m: Entries, keys: set<Key>) returns (k: Key)
    requires keys != {} && keys <= m.Keys
    ensures IsOldest(m, keys, k)
    decreases |keys|
  {
    var j :| j in keys;
    if keys == {j} {
      k := j;
    } else {
      var rest := keys - {j};
      var r := OldestExists(m, rest);
      k := if m[j].seqNo <= m[r].seqNo then j else r;
      assert forall i :: i in keys ==> i == j || i in rest;
    }
  }

  /** The keys, each once, by ascending access number. */
  ghost predicate IsOldestFirst(m: Entries, keys: set<Key>, list: seq<Key>) {
    && SetOf(list) == keys && keys <= m.Keys
    && forall i, j :: 0 <= i < j < |list| ==> list[i] in m && list[j] in m && m[list[i]].seqNo < m[list[j]].seqNo
  }

  /** The entries sorted by their access number. */
  function OldestFirst(m: Entries, keys: set<Key>): (list: seq<Key>)
    requires keys <= m.Keys && DistinctSeqs(m)
    decreases |keys|
  {
    if keys == {} then []
    else
      assert exists k :: IsOldest(m, keys, k) by { var k := OldestExists(m, keys); }
      var k :| k in keys && IsOldest(m, keys, k);
      [k] + OldestFirst(m, keys - {k})
  }

  lemma OldestCons(m: Entries, keys: set<Key>, k: Key, rest: seq<Key>)
    requires DistinctSeqs(m) && keys <= m.Keys && k in keys && IsOldest(m, keys, k) && IsOldestFirst(m, keys - {k}, rest)
    ensures IsOldestFirst(m, keys, [k] + rest)
  {
    var list := [k] + rest;
    assert list == [k] + rest && SetOf(list) == SetOf(rest) + {k};
    forall i, j | 0 <= i < j < |list|
      ensures list[i] in m && list[j] in m && m[list[i]].seqNo < m[list[j]].seqNo
    {
      assert list[j] == rest[j - 1] && rest[j - 1] in SetOf(rest);
    }
  }

  lemma {:induction false} OldestFirstSorts(m: Entries, keys: set<Key>)
    requires keys <= m.Keys && DistinctSeqs(m)
    ensures IsOldestFirst(m, keys, OldestFirst(m, keys)) && |OldestFirst(m, keys)| == |keys|
    decreases |keys|
  {
    if keys != {} {
      var first := OldestExists(m, keys);
      var k := OldestFirst(m, keys)[0];
      assert OldestFirst(m, keys) == [k] + OldestFirst(m, keys - {k});
      OldestFirstSorts(m, keys - {k});
      OldestCons(m, keys, k, OldestFirst(m, keys - {k}));
    }
  }

  lemma ListedOnce(m: Entries, keys: set<Key>, list: seq<Key>, n: nat)
    requires IsOldestFirst(m, keys, list) && n < |list|
    ensures list[n] in keys && list[n] in m && list[n] !in SetOf(list[..n])
  {
    assert list[n] in SetOf(list);
  }

  ghost predicate Weighs(m: Entries, bytes: int, disks: int) {
    bytes == BytesIn(m) && disks == DisksIn(m)
  }

  ghost predicate Stamped(m: Entries, seqNo: nat) {
    DistinctSeqs(m) && forall k :: k in m ==> m[k].seqNo < seqNo
  }

  method SortedByAge(m: Entries, keys: set<Key>) returns (list: seq<Key>)
    requires keys <= m.Keys && DistinctSeqs(m)
    ensures IsOldestFirst(m, keys, list) && |list| == |keys|
  {
    list := OldestFirst(m, keys);
    OldestFirstSorts(m, keys);
  }

  /** The entries left when the first `n` listed ones are gone. */
  function LeftAfter(m: Entries, list: seq<Key>, n: nat): Entries
    requires n <= |list|
  {
    m - SetOf(list[..n])
  }

  lemma NextVictim(m: Entries, list: seq<Key>, n: nat)
    requires n < |list| && list[n] in m && list[n] !in SetOf(list[..n])
    ensures var k, left := list[n], LeftAfter(m, list, n);
            && k in left && left[k] == m[k] && LeftAfter(m, list, n + 1) == left - {k}
            && BytesIn(left) == BytesOf(m[k].view) + BytesIn(left - {k})
            && DisksIn(left) == DiskOf(m[k].view) + DisksIn(left - {k})
  {
    assert list[..n + 1] == list[..n] + [list[n]];
    assert SetOf(list[..n + 1]) == SetOf(list[..n]) + {list[n]};
    BytesWithout(LeftAfter(m, list, n), list[n]);
  }

  lemma AllGone(m: Entries, disk: bool, list: seq<Key>)
    requires IsOldestFirst(m, OfKind(m, disk), list)
    ensures LeftAfter(m, list, 0) == m && OfKind(LeftAfter(m, list, |list|), disk) == {}
  {
    assert list[..|list|] == list;
  }

  lemma {:induction false} DisksAreEntries(m: Entries)
    ensures DisksIn(m) == |OfKind(m, true)|
    ensures OfKind(m, false) == {} ==> BytesIn(m) == 0
    decreases |m|
  {
    if m != map[] {
      var k :| k in m;
      DisksAreEntries(m - {k});
      BytesWithout(m, k);
      if m[k].view.disk {
        assert OfKind(m, true) == OfKind(m - {k}, true) + {k};
        assert OfKind(m - {k}, false) == OfKind(m, false);
      } else {
        assert OfKind(m, true) == OfKind(m - {k}, true);
        assert k in OfKind(m, false);
      }
    }
  }

  // ---- what an eviction does

  /** The evicted entries are of the kind and older than every kept entry of the kind. */
  ghost predicate EvictsOldest(before: Entries, after: Entries, disk: bool) {
    && (exists victims :: victims <= OfKind(before, disk) && after == before - victims)
    && forall v, k :: v in before && v !in after && k in after && after[k].view.disk == disk ==> before[v].seqNo < before[k].seqNo
  }

  /** The last entry evicted, if any, had to go: with its bytes still there the budget was not met. */
  ghost predicate NeededLast(before: Entries, after: Entries, youngest: Option<Key>, bytes: nat, budget: nat) {
    && (youngest.None? ==> after == before)
    && (youngest.Some? ==> youngest.value in before && youngest.value !in after && bytes + BytesOf(before[youngest.value].view) >= budget)
  }

  lemma OldestPrefixEvicted(m: Entries, disk: bool, list: seq<Key>, n: nat)
    requires IsOldestFirst(m, OfKind(m, disk), list) && n <= |list|
    ensures EvictsOldest(m, LeftAfter(m, list, n), disk)
  {
    var victims, after := SetOf(list[..n]), LeftAfter(m, list, n);
    assert victims <= SetOf(list);
    forall v, k | v in m && v !in after && k in after && after[k].view.disk == disk
      ensures m[v].seqNo < m[k].seqNo
    {
      var i :| 0 <= i < n && list[i] == v;
      assert k in SetOf(list);
      var j :| 0 <= j < |list| && list[j] == k;
      assert j >= n;
    }
  }

  /** What an eviction loop leaves behind, and that nothing of the kind is left when it takes the whole list. */
  lemma EvictionDone(m: Entries, disk: bool, list: seq<Key>, n: nat, seqNo: nat)
    requires Stamped(m, seqNo) && IsOldestFirst(m, OfKind(m, disk), list) && n <= |list|
    ensures EvictsOldest(m, LeftAfter(m, list, n), disk) && Stamped(LeftAfter(m, list, n), seqNo)
    ensures n == |list| && !disk ==> BytesIn(LeftAfter(m, list, n)) == 0
  {
    OldestPrefixEvicted(m, disk, list, n);
    AllGone(m, disk, list);
    DisksAreEntries(LeftAfter(m, list, n));
  }

  /** The weight and the order after the disk loop. */
  lemma DiskEvicted(m: Entries, bytes: nat, disks: nat, maxDisks: nat, seqNo: nat, list: seq<Key>, n: nat)
    requires Weighs(m, bytes, disks) && Stamped(m, seqNo) && disks >= maxDisks
    requires IsOldestFirst(m, OfKind(m, true), list) && |list| == |OfKind(m, true)| && n == Min(disks + 1 - maxDisks, |list|)
    ensures Weighs(LeftAfter(m, list, n), bytes, disks - n)
    ensures EvictsOldest(m, LeftAfter(m, list, n), true) && Stamped(LeftAfter(m, list, n), seqNo)
    ensures disks - n == if maxDisks > 0 then maxDisks - 1 else 0
  {
    DisksAreEntries(m);
    DisksTaken(m, list, n);
    EvictionDone(m, true, list, n, seqNo);
  }

  /** The same after the memory loop, which took the first `n` listed entries. */
  lemma MemoryEvicted(m: Entries, bytes: nat, disks: nat, budget: nat, seqNo: nat, list: seq<Key>, n: nat, youngest: Option<Key>)
    requires Stamped(m, seqNo) && IsOldestFirst(m, OfKind(m, false), list) && n <= |list|
    requires Weighs(LeftAfter(m, list, n), bytes, disks) && (bytes < budget || n == |list|)
    requires n > 0 ==> list[n - 1] in m && bytes + BytesOf(m[list[n - 1]].view) >= budget
    requires youngest == if n > 0 then Some(list[n - 1]) else None
    ensures EvictsOldest(m, LeftAfter(m, list, n), false) && Stamped(LeftAfter(m, list, n), seqNo)
    ensures bytes < budget || bytes == 0
    ensures NeededLast(m, LeftAfter(m, list, n), youngest, bytes, budget)
  {
    EvictionDone(m, false, list, n, seqNo);
    if n > 0 {
      assert list[n - 1] in list[..n];
    } else {
      assert SetOf(list[..0]) == {};
    }
  }

  lemma NothingEvicted(m: Entries, disk: bool)
    ensures EvictsOldest(m, m, disk)
  {
    assert m - {} == m;
  }

  /** The weight of the cache after one entry is set. */
  lemma SetWeighs(m: Entries, key: Key, e: Entry)
    ensures BytesIn(m[key := e]) + (if key in m then BytesOf(m[key].view) else 0) == BytesIn(m) + BytesOf(e.view)
    ensures DisksIn(m[key := e]) + (if key in m then DiskOf(m[key].view) else 0) == DisksIn(m) + DiskOf(e.view)
  {
    BytesUpdated(m, key, e);
    if key in m {
      BytesWithout(m, key);
    } else {
      assert m - {key} == m;
    }
  }

  lemma SetStamped(m: Entries, key: Key, view: View, seqNo: nat)
    requires Stamped(m, seqNo)
    ensures Stamped(m[key := Entry(view, seqNo)], seqNo + 1)
  {
  }

  /** The entries without the first `n` listed ones, and what was removed. */
  method TakeListed(m: Entries, list: seq<Key>, n: nat, ghost keys: set<Key>) returns (left: Entries)
    requires IsOldestFirst(m, keys, list) && n <= |list|
    ensures left == LeftAfter(m, list, n)
  {
    left := m;
    assert LeftAfter(m, list, 0) == m;
    for i := 0 to n
      invariant left == LeftAfter(m, list, i)
    {
      ListedOnce(m, keys, list, i);
      NextVictim(m, list, i);
      left := left - {list[i]};
    }
  }

  /** Removing `n` disk-backed entries takes `n` off the disk count and nothing off the bytes. */
  lemma {:induction false} DisksTaken(m: Entries, list: seq<Key>, n: nat)
    requires IsOldestFirst(m, OfKind(m, true), list) && n <= |list|
    ensures DisksIn(m) == DisksIn(LeftAfter(m, list, n)) + n && BytesIn(m) == BytesIn(LeftAfter(m, list, n))
  {
    if n == 0 {
      assert LeftAfter(m, list, 0) == m;
    } else {
      DisksTaken(m, list, n - 1);
      ListedOnce(m, OfKind(m, true), list, n - 1);
      NextVictim(m, list, n - 1);
    }
  }

  /** The memory loop: how many listed entries go, and the bytes they free. */
  method TakeUntil(m: Entries, list: seq<Key>, current: nat, budget: nat) returns (left: Entries, n: nat, freed: nat)
    requires IsOldestFirst(m, OfKind(m, false), list) && current == BytesIn(m)
    ensures n <= |list| && left == LeftAfter(m, list, n) && current == BytesIn(left) + freed && DisksIn(left) == DisksIn(m)
    ensures current - freed < budget || n == |list|
    ensures n > 0 ==> list[n - 1] in m && current - freed + BytesOf(m[list[n - 1]].view) >= budget
  {
    left, n, freed := m, 0, 0;
    assert LeftAfter(m, list, 0) == m;
    while n < |list| && !(current - freed < budget)
      invariant n <= |list| && left == LeftAfter(m, list, n) && current == BytesIn(left) + freed && DisksIn(left) == DisksIn(m)
      invariant n > 0 ==> list[n - 1] in m && current - freed + BytesOf(m[list[n - 1]].view) >= budget
    {
      ListedOnce(m, OfKind(m, false), list, n);
      NextVictim(m, list, n);
      freed := freed + BytesOf(m[list[n]].view);
      left := left - {list[n]};
      n := n + 1;
    }
  }

  class Cache {
    var entries: Entries
    var currentBytes: nat
    var diskBackedCount: nat
    var accessSeq: nat
    const maxMemoryBytes: nat
    const maxDiskBackedCount: nat

    ghost predicate Valid()
      reads this
    {
      Weighs(entries, currentBytes, diskBackedCount) && Stamped(entries, accessSeq)
    }

    constructor (maxBytes: nat, maxDisk: nat)
      ensures Valid() && entries == map[] && maxMemoryBytes == maxBytes && maxDiskBackedCount == maxDisk
    {
      entries, currentBytes, diskBackedCount, accessSeq := map[], 0, 0, 0;
      maxMemoryBytes, maxDiskBackedCount := maxBytes, maxDisk;
    }

    /** A hit makes the entry the most recently used one. */
    method Get(key: Key) returns (view: Option<View>)
      requires Valid()
      modifies this
      ensures Valid()
      ensures view == if key in old(entries) then Some(old(entries)[key].view) else None
      ensures entries == if key in old(entries) then old(entries)[key := Entry(old(entries)[key].view, old(accessSeq))] else old(entries)
    {
      if key !in entries {
        return None;
      }
      view := Some(entries[key].view);
      SetWeighs(entries, key, Entry(entries[key].view, accessSeq));
      SetStamped(entries, key, entries[key].view, accessSeq);
      entries := entries[key := entries[key].(seqNo := accessSeq)];
      accessSeq := accessSeq + 1;
    }

    method EvictDisk()
      requires Valid() && diskBackedCount >= maxDiskBackedCount
      modifies this
      ensures Valid() && accessSeq == old(accessSeq) && EvictsOldest(old(entries), entries, true)
      ensures maxDiskBackedCount > 0 ==> diskBackedCount == maxDiskBackedCount - 1
      ensures maxDiskBackedCount == 0 ==> diskBackedCount == 0
      ensures currentBytes == old(currentBytes)
    {
      var list := SortedByAge(entries, OfKind(entries, true));
      var toEvict := Min(diskBackedCount + 1 - maxDiskBackedCount, |list|);
      DiskEvicted(entries, currentBytes, diskBackedCount, maxDiskBackedCount, accessSeq, list, toEvict);
      var left := TakeListed(entries, list, toEvict, OfKind(entries, true));
      entries := left;
      diskBackedCount := diskBackedCount - toEvict;
    }

    /** Stops as soon as the budget is met: without the youngest victim it would not be. */
    method EvictMemory() returns (ghost youngest: Option<Key>)
      requires Valid() && currentBytes >= maxMemoryBytes
      modifies this
      ensures Valid() && accessSeq == old(accessSeq) && EvictsOldest(old(entries), entries, false)
      ensures currentBytes < maxMemoryBytes || currentBytes == 0
      ensures NeededLast(old(entries), entries, youngest, currentBytes, maxMemoryBytes)
      ensures diskBackedCount == old(diskBackedCount)
    {
      var list := SortedByAge(entries, OfKind(entries, false));
      var left, n, freed := TakeUntil(entries, list, currentBytes, maxMemoryBytes);
      youngest := if n > 0 then Some(list[n - 1]) else None;
      MemoryEvicted(entries, currentBytes - freed, diskBackedCount, maxMemoryBytes, accessSeq, list, n, youngest);
      entries := left;
      currentBytes := currentBytes - freed;
    }

    /** `evict_if_needed`: nothing while there is room, and no more than is needed. */
    method EvictIfNeeded(disk: bool) returns (ghost youngest: Option<Key>)
      requires Valid()
      modifies this
      ensures Valid() && accessSeq == old(accessSeq) && EvictsOldest(old(entries), entries, disk)
      ensures (if disk then old(diskBackedCount) < maxDiskBackedCount else old(currentBytes) < maxMemoryBytes) ==> entries == old(entries)
      ensures disk && old(diskBackedCount) >= maxDiskBackedCount > 0 ==> diskBackedCount == maxDiskBackedCount - 1
      ensures disk && maxDiskBackedCount == 0 ==> diskBackedCount == 0
      ensures !disk ==> currentBytes < maxMemoryBytes || currentBytes == 0
      ensures !disk ==> NeededLast(old(entries), entries, youngest, currentBytes, maxMemoryBytes)
      ensures disk ==> currentBytes == old(currentBytes)
      ensures !disk ==> diskBackedCount == old(diskBackedCount)
    {
      youngest := None;
      NothingEvicted(entries, disk);
      if disk {
        if diskBackedCount >= maxDiskBackedCount {
          EvictDisk();
        }
      } else if currentBytes >= maxMemoryBytes {
        youngest := EvictMemory();
      }
    }

    /** `insert` and `replace`: after making room, the view is the entry; every other survivor is as it was.
        Entries go only when there was no room, the least recently used first, and no more than needed. */
    method Insert(key: Key, view: View) returns (ghost kept: Entries, ghost youngest: Option<Key>)
      requires Valid()
      modifies this
      ensures Valid() && EvictsOldest(old(entries), kept, view.disk) && entries == kept[key := Entry(view, old(accessSeq))]
      ensures (if view.disk then old(diskBackedCount) < maxDiskBackedCount else old(currentBytes) < maxMemoryBytes) ==> kept == old(entries)
      ensures view.disk && old(diskBackedCount) >= maxDiskBackedCount > 0 ==> DisksIn(kept) == maxDiskBackedCount - 1
      ensures !view.disk ==> NeededLast(old(entries), kept, youngest, BytesIn(kept), maxMemoryBytes)
      ensures view.disk && maxDiskBackedCount > 0 ==> diskBackedCount <= maxDiskBackedCount
      ensures !view.disk ==> currentBytes < maxMemoryBytes + BytesOf(view) || currentBytes <= BytesOf(view)
    {
      youngest := EvictIfNeeded(view.disk);
      kept := entries;
      SetEntry(key, view);
    }

    /** The entry is set, and the counters follow: they take in its weight, and lose that of the view it replaces. */
    method SetEntry(key: Key, view: View)
      requires Valid()
      modifies this
      ensures Valid() && entries == old(entries)[key := Entry(view, old(accessSeq))]
      ensures currentBytes <= old(currentBytes) + BytesOf(view) && diskBackedCount <= old(diskBackedCount) + DiskOf(view)
    {
      ghost var kept := entries;
      SetWeighs(kept, key, Entry(view, accessSeq));
      SetStamped(kept, key, view, accessSeq);
      var prev := if key in entries then Some(entries[key].view) else None;
      var next := entries[key := Entry(view, accessSeq)];
      entries := next;
      accessSeq := accessSeq + 1;
      if view.disk {
        diskBackedCount := diskBackedCount + 1;
      } else {
        currentBytes := currentBytes + view.size;
      }
      if prev.Some? {
        if prev.value.disk {
          diskBackedCount := diskBackedCount - 1;
        } else {
          currentBytes := currentBytes - prev.value.size;
        }
      }
    }

    /** `invalidate_source`: exactly the entries of the source go. */
    method InvalidateSource(source: string)
      requires Valid()
      modifies this
      ensures Valid() && accessSeq == old(accessSeq)
      ensures entries == map k | k in old(entries) && !OfSource(k, source) :: old(entries)[k]
    {
      var gone := set k | k in entries && OfSource(k, source);
      BytesSplit(entries, gone);
      var freedBytes, freedDisk := Freed(entries, gone);
      currentBytes := currentBytes - freedBytes;
      diskBackedCount := diskBackedCount - freedDisk;
      entries := entries - gone;
    }
  }

  /** The running totals of the entries a `retain` drops. */
  method Freed(m: Entries, gone: set<Key>) returns (bytes: nat, disks: nat)
    requires gone <= m.Keys
    ensures bytes == BytesIn(Restricted(m, gone)) && disks == DisksIn(Restricted(m, gone))
  {
    bytes, disks := 0, 0;
    var rest := gone;
    while rest != {}
      invariant rest <= gone
      invariant bytes == BytesIn(Restricted(m, gone - rest)) && disks == DisksIn(Restricted(m, gone - rest))
      decreases |rest|
    {
      var k :| k in rest;
      ghost var after := Restricted(m, gone - (rest - {k}));
      BytesWithout(after, k);
      assert after - {k} == Restricted(m, gone - rest);
      if m[k].view.disk {
        disks := disks + 1;
      } else {
        bytes := bytes + m[k].view.size;
      }
      rest := rest - {k};
    }
    assert gone - {} == gone;
  }
}
