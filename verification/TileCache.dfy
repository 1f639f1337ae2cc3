/** The tile cache of crates/tv-server/src/cache.rs: least frequently used entries go first, and the
    byte counter runs ahead of the stored bytes by what expired entries leave behind when they are read. */
module TileCache {
  import opened Seqs

  const U32: nat := 0x1_0000_0000

  datatype Entry = Entry(data: seq<char>, freq: nat, expiresAt: Option<nat>)

  type Entries = map<string, Entry>

  predicate Expired(e: Entry, now: nat) {
    e.expiresAt.Some? && now > e.expiresAt.value
  }

  ghost function TotalBytes(m: Entries): nat {
    if m == map[] then 0 else var k :| k in m; |m[k].data| + TotalBytes(m - {k})
  }

  lemma {:induction false} TotalWithout(m: Entries, k: string)
    requires k in m
    ensures TotalBytes(m) == |m[k].data| + TotalBytes(m - {k})
    decreases |m|
  {
    var j :| j in m && TotalBytes(m) == |m[j].data| + TotalBytes(m - {j});
    if j != k {
      TotalWithout(m - {j}, k);
      TotalWithout(m - {k}, j);
      assert m - {j} - {k} == m - {k} - {j};
    }
  }

  lemma TotalWith(m: Entries, k: string, e: Entry)
    ensures TotalBytes(m[k := e]) == |e.data| + TotalBytes(m - {k})
  {
    TotalWithout(m[k := e], k);
    assert m[k := e] - {k} == m - {k};
  }

  predicate IsLeastUsed(m: Entries, keys: set<string>, k: string) {
    k in keys && k in m && forall j :: j in keys && j in m ==> m[k].freq <= m[j].freq
  }

  lemma {:induction false} LeastUsedExists(m: Entries, keys: set<string>) returns (k: string)
    requires keys != {} && keys <= m.Keys
    ensures IsLeastUsed(m, keys, k)
    decreases |keys|
  {
    k :| k in keys;
    if keys != {k} {
      var r := LeastUsedExists(m, keys - {k});
      assert forall i :: i in keys ==> i == k || i in keys - {k};
      k := if m[k].freq <= m[r].freq then k else r;
    }
  }

  /** What is left was used at least as often as anything evicted, and is otherwise as it was. */
  ghost predicate EvictsLeastUsed(before: Entries, after: Entries) {
    && after.Keys <= before.Keys && (forall k :: k in after ==> after[k] == before[k])
    && forall v, k :: v in before && v !in after && k in after ==> before[v].freq <= before[k].freq
  }

  /** The last entry evicted, if any, had to go: with its bytes still counted there was no room. */
  ghost predicate NeededLast(before: Entries, after: Entries, last: Option<string>, wanted: nat, budget: nat) {
    && (last.None? ==> after == before)
    && (last.Some? ==> last.value in before && last.value !in after && wanted + |before[last.value].data| > budget)
  }

  lemma EvictsNext(before: Entries, m: Entries, k: string)
    requires EvictsLeastUsed(before, m) && IsLeastUsed(m, m.Keys, k)
    ensures k in m && EvictsLeastUsed(before, m - {k})
  {
    forall v, j | v in before && v !in m - {k} && j in m - {k}
      ensures before[v].freq <= before[j].freq
    {
      assert j in m.Keys;
    }
  }

  class OptionalCache {
    var inner: Entries
    var currentBytes: nat
    const maxBytes: nat
    /** The bytes of the expired entries that reads have dropped. */
    ghost var drift: nat

    ghost predicate Valid()
      reads this
    {
      currentBytes == TotalBytes(inner) + drift
    }

    constructor (max: nat)
      ensures Valid() && inner == map[] && drift == 0 && maxBytes == max
    {
      inner, currentBytes, maxBytes, drift := map[], 0, max, 0;
    }

    /** An expired entry is removed without giving its bytes back. */
    method Get(key: string, now: nat) returns (data: Option<seq<char>>)
      requires Valid()
      modifies this
      ensures Valid() && currentBytes == old(currentBytes)
      ensures data == if key in old(inner) && !Expired(old(inner)[key], now) then Some(old(inner)[key].data) else None
      ensures key !in old(inner) ==> inner == old(inner) && drift == old(drift)
      ensures key in old(inner) && Expired(old(inner)[key], now) ==> inner == old(inner) - {key} && drift == old(drift) + |old(inner)[key].data|
      ensures key in old(inner) && !Expired(old(inner)[key], now) ==>
                inner == old(inner)[key := old(inner)[key].(freq := (old(inner)[key].freq + 1) % U32)] && drift == old(drift)
    {
      if key !in inner {
        return None;
      }
      var entry := inner[key];
      TotalWithout(inner, key);
      if Expired(entry, now) {
        inner := inner - {key};
        drift := drift + |entry.data|;
        return None;
      }
      TotalWith(inner, key, entry.(freq := (entry.freq + 1) % U32));
      inner := inner[key := entry.(freq := (entry.freq + 1) % U32)];
      data := Some(entry.data);
    }

    /** `evict_if_needed`: stops once the counter leaves room, or when nothing is left. */
    method EvictIfNeeded(needed: nat) returns (ghost last: Option<string>)
      requires Valid()
      modifies this
      ensures Valid() && drift == old(drift) && EvictsLeastUsed(old(inner), inner)
      ensures NeededLast(old(inner), inner, last, currentBytes + needed, maxBytes)
      ensures currentBytes + needed <= maxBytes || inner == map[]
    {
      ghost var before := inner;
      last := None;
      while inner.Keys != {} && currentBytes + needed > maxBytes
        invariant Valid() && drift == old(drift) && EvictsLeastUsed(before, inner)
        invariant NeededLast(before, inner, last, currentBytes + needed, maxBytes)
        decreases |inner|
      {
        ghost var least := LeastUsedExists(inner, inner.Keys);
        var key :| IsLeastUsed(inner, inner.Keys, key);
        EvictsNext(before, inner, key);
        TotalWithout(inner, key);
        currentBytes := currentBytes - |inner[key].data|;
        inner := inner - {key};
        last := Some(key);
      }
    }

    /** The new entry is stored, and unless it is alone the stored bytes respect the budget. */
    method Put(key: string, value: seq<char>, ttl: nat, now: nat) returns (ghost kept: Entries, ghost last: Option<string>)
      requires Valid()
      modifies this
      ensures Valid() && drift == old(drift) && EvictsLeastUsed(old(inner) - {key}, kept)
      ensures NeededLast(old(inner) - {key}, kept, last, TotalBytes(kept) + drift + |value|, maxBytes)
      ensures inner == kept[key := Entry(value, 1, if ttl > 0 then Some(now + ttl) else None)]
      ensures TotalBytes(inner) <= maxBytes || inner.Keys == {key}
    {
      if key in inner {
        TotalWithout(inner, key);
        currentBytes := currentBytes - |inner[key].data|;
      } else {
        assert inner - {key} == inner;
      }
      inner := inner - {key};
      last := EvictIfNeeded(|value|);
      kept := inner;
      assert kept - {key} == kept;
      TotalWith(kept, key, Entry(value, 1, if ttl > 0 then Some(now + ttl) else None));
      inner := inner[key := Entry(value, 1, if ttl > 0 then Some(now + ttl) else None)];
      currentBytes := currentBytes + |value|;
    }

    /** `invalidate_prefix`: exactly the entries under the prefix go. */
    method InvalidatePrefix(prefix: string)
      requires Valid()
      modifies this
      ensures Valid() && drift == old(drift)
      ensures inner == map k | k in old(inner) && !(prefix <= k) :: old(inner)[k]
    {
      var gone := set k | k in inner && prefix <= k;
      RemoveAll(gone);
    }

    /** One round of the cleanup task: exactly the expired entries go. */
    method CleanUp(now: nat)
      requires Valid()
      modifies this
      ensures Valid() && drift == old(drift)
      ensures inner == map k | k in old(inner) && !Expired(old(inner)[k], now) :: old(inner)[k]
    {
      var gone := set k | k in inner && Expired(inner[k], now);
      RemoveAll(gone);
    }

    method RemoveAll(gone: set<string>)
      requires Valid() && gone <= inner.Keys
      modifies this
      ensures Valid() && drift == old(drift) && inner == old(inner) - gone
    {
      var rest := gone;
      while rest != {}
        invariant rest <= gone && rest <= inner.Keys && Valid() && drift == old(drift) && inner == old(inner) - (gone - rest)
        decreases |rest|
      {
        var k :| k in rest;
        TotalWithout(inner, k);
        currentBytes := currentBytes - |inner[k].data|;
        inner := inner - {k};
        rest := rest - {k};
      }
    }
  }
}
