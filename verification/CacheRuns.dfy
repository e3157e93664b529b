/** DiskCache: runs that show what becomes of sizes, of the scan, and of a resource that is locked over the limit. */
module CacheRuns {
  import opened Ascii
  import opened CacheEviction
  import opened DiskCaching

  lemma BusyWith(open: set<DiskCacheAdapter>, a: DiskCacheAdapter)
    requires a.writing
    ensures Busy(open + {a}) == Busy(open) + {(a.id, a.index)}
  {
  }

  lemma ShareOf(files: map<File, nat>, busy: set<File>, f: File)
    ensures Share(files, busy, f) == if f in files && f !in busy then files[f] else 0
  {
  }

  lemma SizeIs(cache: DiskCache, id: string)
    requires cache.Valid() && cache.tidy && id in cache.entries
    ensures cache.entries[id].size == cache.Held(id) + Drift(cache.ledger, id)
  {
    hide Balanced, Exact;
  }

  lemma ShareIsHeld(cache: DiskCache, id: string, index: nat)
    requires cache.Valid() && cache.tidy && id in cache.entries && (id, index) !in Busy(cache.open)
    ensures Share(cache.files, Busy(cache.open), (id, index)) == cache.FileSize((id, index)) <= cache.Held(id)
  {
    hide Balanced, Exact;
    if (id, index) in cache.files {
      StoredChange(cache.files, Busy(cache.open), cache.files, Busy(cache.open), id, cache.entries[id].streams, index);
    }
  }

  /**
   Two writers at a time on one file, closed in either order. The file has `n0` bytes when the second writer opens it,
   `n1` when one of them closes it, and `n2` when the other does. The second writer takes out the smaller of `n0` and
   what the other files hold, and afterwards the size of the entry is right exactly when the one that closed first has
   added as much.
   */
  method TwoWriters(cache: DiskCache, id: string, index: nat, n0: nat, n1: nat, n2: nat, crossed: bool, now: int)
    requires cache.Valid() && cache.tidy && id in cache.entries && cache.entries[id].lockState == Locked
    requires Drift(cache.ledger, id) == 0 && (id, index) !in Busy(cache.open)
    modifies cache
    ensures cache.Valid() && id in cache.entries && cache.open == old(cache.open)
    ensures
      var others := old(cache.Held(id) - cache.FileSize((id, index)));
      cache.entries[id].size == cache.Held(id) <==> n1 == if n0 <= others then n0 else others
  {
    hide Balanced, OnDisk, Exact, OneWriter, Stored, Busy, Share;
    ghost var before := cache.open;
    SizeIs(cache, id);
    ShareIsHeld(cache, id, index);
    var a := cache.WriteResource(id, index, true);
    cache.WriteStream(a, n0);
    BusyWith(before, a);
    ShareOf(cache.files, Busy(cache.open), (id, index));
    ghost var taken := cache.TakenOut(id, index);
    var b := cache.WriteResource(id, index, true);
    ghost var owed := Drift(cache.ledger, id) + n1;
    if crossed {
      CloseBoth(cache, before, b, a, n1, n2, now);
    } else {
      CloseBoth(cache, before, a, b, n1, n2, now);
    }
    assert owed == n1 - taken;
    SizeIs(cache, id);
  }

  /** Of two writers on one file, the first to close adds what the file has then, although the other still writes it. */
  method CloseBoth(cache: DiskCache, ghost before: set<DiskCacheAdapter>, a: DiskCacheAdapter, b: DiskCacheAdapter,
                   n1: nat, n2: nat, now: int)
    requires cache.Valid() && cache.tidy && a.id in cache.entries && cache.entries[a.id].lockState == Locked
    requires a != b && a !in before && b !in before && cache.open == before + {a, b}
    requires a.writing && b.writing && a.id == b.id && a.index == b.index && (a.id, a.index) !in Busy(before)
    modifies cache
    ensures cache.Valid() && cache.tidy && cache.open == before && a.id in cache.entries
    ensures Drift(cache.ledger, a.id) == old(Drift(cache.ledger, a.id)) + n1
  {
    hide Balanced, OnDisk, Exact, OneWriter, Busy, Share;
    cache.WriteStream(a, n1);
    assert cache.open - {a} == before + {b};
    BusyWith(before, b);
    ShareOf(cache.files, Busy(before + {b}), (a.id, a.index));
    var outcome := cache.ReleaseResource(a, now);
    cache.WriteStream(b, n2);
    assert cache.open - {b} == before;
    ShareOf(cache.files, Busy(before), (a.id, a.index));
    outcome := cache.ReleaseResource(b, now);
  }

  /** For instance, in a new entry: 5 bytes that the second writer has not taken out are counted twice. */
  method WritesTwice(cache: DiskCache, id: string, now: int)
    requires cache.Valid() && cache.tidy && cache.entries == map[] && cache.files == map[] && cache.open == {}
    requires cache.ledger == map[] && cache.totalSize <= cache.maxCache
    modifies cache
    ensures cache.Valid() && id in cache.entries && cache.entries[id].size != cache.Held(id)
  {
    hide Balanced, OnDisk, Exact, OneWriter;
    var locked, outcome, dangling := cache.LockResource(id, now);
    NothingHeld(cache, id);
    TwoWriters(cache, id, 0, 0, 5, 5, false, now);
  }

  lemma NothingHeld(cache: DiskCache, id: string)
    requires cache.Valid() && cache.tidy && id in cache.entries && cache.entries[id].streams == 0 && cache.open == {}
    ensures cache.Held(id) == 0 && (forall i: nat :: (id, i) !in cache.files) && Busy(cache.open) == {}
  {
  }

  /** One resource of `n` bytes, written, closed and unlocked in a new entry. */
  method Store(cache: DiskCache, id: string, n: nat, now: int) returns (ghost outcome: Outcome)
    requires cache.Valid() && cache.tidy && cache.single && id !in cache.entries && cache.open == {}
    requires cache.totalSize <= cache.maxCache && cache.stuck == {}
    modifies cache
    ensures cache.Valid() && cache.stuck == {}
    ensures var unlocked := old(cache.entries)[id := Entry(Unlocked, 0, n, 1, now)];
      && (old(cache.totalSize) + n <= cache.maxCache ==>
            && cache.entries == unlocked && cache.tidy && cache.single && cache.open == {}
            && cache.totalSize == old(cache.totalSize) + n)
      && var (end, evicted) := Rounds(unlocked, old(cache.totalSize) + n, cache.maxCache);
         outcome == end && cache.entries == Without(unlocked, evicted)
  {
    hide Balanced, OnDisk, Exact, OneWriter, Rounds;
    Fill(cache, id, n, now);
    var unlocked;
    ghost var filled := cache.entries;
    unlocked, outcome := cache.UnlockResource(id, now);
    assert filled[id := filled[id].(lockState := Unlocked, lastModified := now)]
        == old(cache.entries)[id := Entry(Unlocked, 0, n, 1, now)];
  }

  /** The same, left locked. */
  method Fill(cache: DiskCache, id: string, n: nat, now: int)
    requires cache.Valid() && cache.tidy && cache.single && id !in cache.entries && cache.open == {}
    requires cache.totalSize <= cache.maxCache
    modifies cache
    ensures cache.Valid() && cache.stuck == old(cache.stuck)
    ensures
      && cache.entries == old(cache.entries)[id := Entry(Locked, 0, n, 1, now)] && cache.tidy && cache.single
      && cache.open == {} && cache.totalSize == old(cache.totalSize) + n
  {
    hide Balanced, OnDisk, Exact, OneWriter, Stored, Busy, Share, Rounds, Without, Drift;
    var ok, outcome, dangling := cache.LockResource(id, now);
    NothingHeld(cache, id);
    var a := cache.WriteResource(id, 0, true);
    cache.WriteStream(a, n);
    outcome := cache.ReleaseResource(a, now);
  }

  lemma OnlyOne(id: string, e: Entry, total: int, maxCache: nat)
    requires Evictable(e) && total > maxCache
    ensures Rounds(map[id := e], total, maxCache) == (PastTheEnd, [])
  {
    hide Judge, TheOrder;
    var entries: Entries := map[id := e];
    OneOrder([id], TheOrder(entries), entries);
    PastTheEndIff(entries, [id], true);
    RoundsOnce(entries, total, maxCache);
  }

  /** A single resource larger than the cache: unlocking it sends the scan past the end of the map. */
  method TooLarge(n: nat, maxCache: nat, now: int) returns (cache: DiskCache, ghost outcome: Outcome)
    requires n > maxCache
    ensures outcome == PastTheEnd && cache.entries == map["x" := Entry(Unlocked, 0, n, 1, now)]
  {
    hide Balanced, OnDisk, Exact, OneWriter, Rounds;
    cache := new DiskCache(maxCache, {});
    OnlyOne("x", Entry(Unlocked, 0, n, 1, now), n, maxCache);
    outcome := Store(cache, "x", n, now);
    WithoutFirst(map["x" := Entry(Unlocked, 0, n, 1, now)], []);
  }

  /**
   What the code may do there: it takes the name of a victim from behind the end. If no entry has that name, deleting it
   succeeds, nothing has changed, and the loop is where it was.
   */
  method DeletesNothing(cache: DiskCache, name: string) returns (success: bool)
    requires cache.Valid() && cache.totalSize > cache.maxCache && name !in cache.entries
    modifies cache
    ensures cache.Valid() && success && cache.totalSize > cache.maxCache
    ensures cache.entries == old(cache.entries) && cache.files == old(cache.files)
  {
    hide Balanced, OnDisk, Exact;
    success := cache.DeleteResource(name);
  }

  const Crowded: Entries := map["x" := Entry(Unlocked, 0, 4, 1, 1), "y" := Entry(Unlocked, 0, 4, 1, 2),
                                "b" := Entry(Locked, 0, 5, 1, 3)]

  lemma CrowdedOrder()
    ensures TheOrder(Crowded) == ["b", "x", "y"]
  {
    var order := ["b", "x", "y"];
    assert "b"[0] < "x"[0] < "y"[0];
    OneOrder(order, TheOrder(Crowded), Crowded);
  }

  lemma FreeInCrowded(order: seq<string>)
    requires order == ["b", "x", "y"]
    ensures forall id <- order :: id in Crowded
    ensures FirstFree(Crowded, order, 0) == 1 && Oldest(Crowded, order, 1, 2) == 1
  {
    assert "b"[0] < "x"[0] < "y"[0];
    assert FirstFree(Crowded, order, 1) == 1;
    assert Oldest(Crowded, order, 3, 1) == Oldest(Crowded, order, 2, 1) == 1;
  }

  lemma OldestGoes()
    ensures Rounds(Crowded, 13, 10) == (Within, ["x"])
  {
    hide TheOrder, FirstFree, Oldest, Rounds;
    CrowdedOrder();
    FreeInCrowded(["b", "x", "y"]);
    assert Victim(Crowded, ["b", "x", "y"]) == "x" && Evictable(Crowded["x"]) && Crowded["x"].size == 4;
    RoundsOnce(Crowded, 13, 10);
    WithinAtOnce(Crowded - {"x"}, 9, 10);
    assert ["x"] + [] == ["x"];
  }

  /** Locking the oldest resource while the cache is over its limit: it is evicted, and then locked. */
  method LocksEvicted() returns (ok: bool, ghost dangling: bool)
    ensures ok && dangling
  {
    hide Balanced, OnDisk, Exact, OneWriter, Rounds;
    var cache := new DiskCache(10, {});
    assert "x"[0] != "y"[0] && "x"[0] != "b"[0] && "y"[0] != "b"[0];
    ghost var outcome := Store(cache, "x", 4, 1);
    outcome := Store(cache, "y", 4, 2);
    Fill(cache, "b", 5, 3);
    assert cache.entries == Crowded;
    OldestGoes();
    ok, outcome, dangling := cache.LockResource("x", 4);
  }
}
