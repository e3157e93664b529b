/** DiskCache: a lock excludes every other lock of the same resource until it is given back, or the cache is purged. */
module CacheLocks {
  import opened CacheEviction
  import opened DiskCaching

  /** What the users of a cache may call, on the resources and on the streams that they have opened so far. */
  datatype Call =
    | Lock(id: string) | Unlock(id: string) | Delete(id: string) | Purge(purges: bool)
    | Write(id: string, index: nat, opens: bool) | Read(id: string, index: nat, opens: bool)
    | Store(stream: nat, size: nat) | Close(stream: nat)

  /** Streams that are open, each of them once. */
  ghost predicate AllOpen(cache: DiskCache, held: seq<DiskCacheAdapter>)
    reads cache
  {
    (forall a <- held :: a in cache.open) && forall i, j :: 0 <= i < j < |held| ==> held[i] != held[j]
  }

  ghost predicate IsLocked(cache: DiskCache, id: string)
    reads cache
  {
    id in cache.entries && cache.entries[id].lockState == Locked
  }

  lemma StaysLocked(before: Entries, after: Entries, id: string, mine: string)
    requires Evicted(before - {id}, after - {id}) && mine in before && before[mine].lockState == Locked
    ensures id != mine ==> mine in after && after[mine].lockState == Locked
  {
    assert id != mine ==> mine in before - {id} && (mine in after <==> mine in after - {id});
  }

  /** One call of somebody else; whether it has succeeded. */
  method Do(cache: DiskCache, held: seq<DiskCacheAdapter>, call: Call, mine: string, now: int)
    returns (ok: bool, still: seq<DiskCacheAdapter>)
    requires cache.Valid() && AllOpen(cache, held) && IsLocked(cache, mine) && call != Unlock(mine)
    modifies cache
    ensures cache.Valid() && AllOpen(cache, still)
    ensures !(call.Purge? && ok) ==> IsLocked(cache, mine)
    ensures call == Lock(mine) ==> !ok
    ensures call.Purge? ==> (ok <==> old(cache.open) == {} && call.purges)
  {
    hide Balanced, OnDisk, Exact, Rounds, Without, Busy, Share;
    ok, still := false, held;
    ghost var outcome, dangling;
    match call {
      case Lock(id) =>
        ok, outcome, dangling := cache.LockResource(id, now);
        StaysLocked(old(cache.entries), cache.entries, id, mine);
      case Unlock(id) =>
        if id in cache.entries {
          ok, outcome := cache.UnlockResource(id, now);
        }
      case Delete(id) =>
        ok := cache.DeleteResource(id);
      case Purge(purges) =>
        ok := cache.Purge(purges);
        if ok {
          still := [];
        }
      case Write(id, index, opens) =>
        if id in cache.entries {
          var a := cache.WriteResource(id, index, opens);
          if a != null {
            ok, still := true, held + [a];
          }
        }
      case Read(id, index, opens) =>
        if id in cache.entries {
          var a := cache.ReadResource(id, index, opens);
          if a != null {
            ok, still := true, held + [a];
          }
        }
      case Store(stream, size) =>
        if stream < |held| && held[stream].writing {
          cache.WriteStream(held[stream], size);
          ok := true;
        }
      case Close(stream) =>
        if stream < |held| {
          outcome := cache.ReleaseResource(held[stream], now);
          ok, still := true, held[..stream] + held[stream + 1..];
        }
    }
  }

  /**
   Whatever others do, from a lock of `mine` on until it is given back: no other lock of it succeeds, unless the cache
   is purged before, which it can be while no stream is open.
   */
  method Work(cache: DiskCache, streams: seq<DiskCacheAdapter>, calls: seq<Call>, mine: string, now: int)
    returns (results: seq<bool>, purged: bool)
    requires cache.Valid() && AllOpen(cache, streams) && IsLocked(cache, mine)
    requires forall call <- calls :: call != Unlock(mine)
    modifies cache
    ensures cache.Valid() && |results| <= |calls|
    ensures forall i :: 0 <= i < |results| && calls[i] == Lock(mine) ==> !results[i]
    ensures if purged then 0 < |results| && calls[|results| - 1].Purge? && results[|results| - 1]
            else |results| == |calls| && IsLocked(cache, mine)
    ensures forall i :: 0 <= i < |results| && calls[i].Purge? && results[i] ==> purged && i == |results| - 1
  {
    hide DiskCache.Valid, AllOpen, IsLocked;
    results, purged := [], false;
    var held := streams;
    for i := 0 to |calls|
      invariant cache.Valid() && AllOpen(cache, held) && IsLocked(cache, mine) && |results| == i
      invariant forall k :: 0 <= k < i && calls[k] == Lock(mine) ==> !results[k]
      invariant forall k :: 0 <= k < i && calls[k].Purge? ==> !results[k]
    {
      var ok;
      assert calls[i] in calls;
      ok, held := Do(cache, held, calls[i], mine, now);
      results := results + [ok];
      if calls[i].Purge? && ok {
        purged := true;
        return;
      }
    }
  }

  /** So of two lock objects for one id never both hold, unless the cache is purged, or the first lock took nothing. */
  method TwoLocks(cache: DiskCache, streams: seq<DiskCacheAdapter>, calls: seq<Call>, id: string, now: int)
    returns (first: CacheLock, second: CacheLock?)
    requires cache.Valid() && AllOpen(cache, streams) && forall call <- calls :: call != Unlock(id)
    modifies cache
    ensures cache.Valid() && fresh(first) && (second != null ==> fresh(second))
    ensures first.locked && second != null && second.locked ==> first.dangling
  {
    first := new CacheLock(cache, id, true, now);
    if !first.locked || id !in cache.entries {
      second := new CacheLock(cache, id, true, now);
    } else {
      var results, purged := Work(cache, streams, calls, id, now);
      second := null;
      if !purged {
        second := new CacheLock(cache, id, true, now);
      }
    }
  }

  /** A purge takes no notice of locks: after it the same resource is locked again. */
  method PurgeDropsLocks(cache: DiskCache, id: string, now: int) returns (first: bool, second: bool)
    requires cache.Valid() && cache.entries == map[] && cache.open == {} && cache.totalSize <= cache.maxCache
    modifies cache
    ensures cache.Valid() && first && second
  {
    hide Balanced, OnDisk, Exact;
    ghost var outcome, dangling;
    first, outcome, dangling := cache.LockResource(id, now);
    var purged := cache.Purge(true);
    second, outcome, dangling := cache.LockResource(id, now);
  }
}
