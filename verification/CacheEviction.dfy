/** DiskCache: which entries the check of the limit evicts, and how it ends. */
module CacheEviction {
  import opened Ascii

  datatype LockState = Unlocked | Locked | Unlocking

  datatype Entry = Entry(lockState: LockState, accessors: nat, size: nat, streams: nat, lastModified: int)

  type Entries = map<string, Entry>

  predicate Evictable(e: Entry) {
    e.lockState == Unlocked && e.accessors == 0
  }

  // ---------------------------------------------------------------- the order of the map

  predicate Less(a: string, b: string) {
    b != "" && (a == "" || a[0] < b[0] || (a[0] == b[0] && Less(a[1..], b[1..])))
  }

  lemma {:induction false} LessIsStrict(a: string, b: string)
    ensures !(Less(a, b) && Less(b, a))
    ensures Less(a, b) || Less(b, a) || a == b
    decreases |a|
  {
    if a != "" && b != "" && a[0] == b[0] {
      LessIsStrict(a[1..], b[1..]);
      assert a == [a[0]] + a[1..] && b == [b[0]] + b[1..];
    }
  }

  lemma {:induction false} LessIsTransitive(a: string, b: string, c: string)
    requires Less(a, b) && Less(b, c)
    ensures Less(a, c)
    decreases |b|
  {
    if a != "" && a[0] == b[0] == c[0] {
      LessIsTransitive(a[1..], b[1..], c[1..]);
    }
  }

  /** They agree up to a place where the first ends, or has the smaller character. */
  predicate Parts(a: string, b: string, k: int) {
    0 <= k <= |a| && k < |b| && a[..k] == b[..k] && (k == |a| || a[k] < b[k])
  }

  lemma {:induction false} LessIff(a: string, b: string)
    ensures Less(a, b) <==> exists k :: Parts(a, b, k)
    decreases |a|
  {
    if a == "" {
      assert b != "" ==> Parts(a, b, 0);
    } else if b != "" {
      LessIff(a[1..], b[1..]);
      forall k | 0 < k <= |a| ensures Parts(a, b, k) <==> a[0] == b[0] && Parts(a[1..], b[1..], k - 1) {
        PartsNext(a, b, k);
      }
      assert Parts(a, b, 0) <==> a[0] < b[0];
      if Less(a, b) && a[0] == b[0] {
        var k :| Parts(a[1..], b[1..], k);
        assert Parts(a, b, k + 1);
      }
    }
  }

  lemma PartsNext(a: string, b: string, k: int)
    requires a != "" && b != "" && 0 < k <= |a|
    ensures Parts(a, b, k) <==> a[0] == b[0] && Parts(a[1..], b[1..], k - 1)
  {
    if k <= |b| {
      assert a[..k] == [a[0]] + a[1..][..k - 1] && b[..k] == [b[0]] + b[1..][..k - 1];
      if Parts(a, b, k) {
        assert a[..k][1..] == a[1..][..k - 1] && b[..k][1..] == b[1..][..k - 1];
        assert a[..k][0] == a[0] && b[..k][0] == b[0];
      }
    }
  }

  lemma {:induction false} LeastOf(ids: set<string>) returns (least: string)
    requires ids != {}
    ensures least in ids && forall id <- ids :: id == least || Less(least, id)
    decreases |ids|
  {
    var any :| any in ids;
    var rest := ids - {any};
    least := any;
    if rest != {} {
      var other := LeastOf(rest);
      LessIsStrict(any, other);
      if Less(other, any) {
        least := other;
      } else {
        forall id <- rest | id != other ensures Less(any, id) {
          LessIsTransitive(any, other, id);
        }
      }
    }
  }

  /** The entries, in the order of their names. */
  ghost predicate Lists(order: seq<string>, entries: Entries) {
    && (forall id <- order :: id in entries) && (forall id <- entries :: id in order)
    && (forall i, j :: 0 <= i < j < |order| ==> Less(order[i], order[j]) && order[i] != order[j])
  }

  lemma {:induction false} AListing(entries: Entries) returns (order: seq<string>)
    ensures Lists(order, entries)
    decreases |entries|
  {
    if entries == map[] {
      order := [];
    } else {
      hide Less;
      var id := LeastOf(entries.Keys);
      var rest := AListing(entries - {id});
      order := [id] + rest;
      forall j | 0 < j < |order| ensures Less(id, order[j]) && id != order[j] {
        assert order[j] == rest[j - 1] && rest[j - 1] in rest;
      }
    }
  }

  lemma SameFirst(order: seq<string>, other: seq<string>, entries: Entries)
    requires Lists(order, entries) && Lists(other, entries) && order != []
    ensures other != [] && order[0] == other[0]
  {
    assert order[0] in other;
    assert other[0] in order;
    LessIsStrict(order[0], other[0]);
  }

  lemma {:induction false} OneOrder(order: seq<string>, other: seq<string>, entries: Entries)
    requires Lists(order, entries) && Lists(other, entries)
    ensures order == other
    decreases |order|
  {
    if order == [] {
      if other != [] {
        SameFirst(other, order, entries);
      }
    } else {
      SameFirst(order, other, entries);
      ListsRest(order, entries);
      ListsRest(other, entries);
      OneOrder(order[1..], other[1..], entries - {order[0]});
    }
  }

  lemma ListsRest(order: seq<string>, entries: Entries)
    requires Lists(order, entries) && order != []
    ensures Lists(order[1..], entries - {order[0]})
  {
    var rest := order[1..];
    assert forall i :: 0 <= i < |rest| ==> rest[i] == order[i + 1];
    forall id <- entries | id != order[0] ensures id in rest {
      var i :| 0 <= i < |order| && order[i] == id;
      assert rest[i - 1] == id;
    }
    forall i, j | 0 <= i < j < |rest| ensures Less(rest[i], rest[j]) && rest[i] != rest[j] {
      assert Less(order[i + 1], order[j + 1]);
    }
  }

  lemma ListingExists(entries: Entries)
    ensures exists order: seq<string> :: Lists(order, entries)
  {
    var order := AListing(entries);
  }

  ghost function TheOrder(entries: Entries): (order: seq<string>)
    ensures Lists(order, entries)
  {
    ListingExists(entries);
    var order: seq<string> :| Lists(order, entries);
    order
  }

  // ---------------------------------------------------------------- the scan for the oldest entry

  function FirstFree(entries: Entries, order: seq<string>, i: nat): (first: nat)
    requires i <= |order| && forall id <- order :: id in entries
    ensures i <= first <= |order| && (first < |order| ==> Evictable(entries[order[first]]))
    decreases |order| - i
  {
    if i == |order| || Evictable(entries[order[i]]) then i else FirstFree(entries, order, i + 1)
  }

  /** The second loop of the scan, which looks at the times alone. */
  function Oldest(entries: Entries, order: seq<string>, it: nat, oldest: nat): (r: nat)
    requires it <= |order| && oldest < |order| && forall id <- order :: id in entries
    ensures r < |order|
    decreases |order| - it
  {
    if it == |order| then oldest
    else
      Oldest(entries, order, it + 1,
             if entries[order[it]].lastModified < entries[order[oldest]].lastModified then it else oldest)
  }

  lemma {:induction false} NoneFreeBefore(entries: Entries, order: seq<string>, i: nat)
    requires i <= |order| && forall id <- order :: id in entries
    ensures forall k :: i <= k < FirstFree(entries, order, i) ==> !Evictable(entries[order[k]])
    decreases |order| - i
  {
    if i < |order| && !Evictable(entries[order[i]]) {
      NoneFreeBefore(entries, order, i + 1);
    }
  }

  /** The place of entry number `k` when times are equal: the scan starts at the entry behind the first free one. */
  function Rank(first: nat, k: int): int {
    if k == first + 1 then first else if k == first then first + 1 else k
  }

  /** Entry number `j` is preferred to entry number `k`. */
  ghost predicate Beats(entries: Entries, order: seq<string>, first: nat, j: int, k: int)
    requires 0 <= j < |order| && 0 <= k < |order| && forall id <- order :: id in entries
  {
    var t, u := entries[order[j]].lastModified, entries[order[k]].lastModified;
    t < u || (t == u && Rank(first, j) < Rank(first, k))
  }

  lemma BeatsOnce(entries: Entries, order: seq<string>, first: nat, j: int, k: int)
    requires 0 <= j < |order| && 0 <= k < |order| && forall id <- order :: id in entries
    ensures !Beats(entries, order, first, j, k) || !Beats(entries, order, first, k, j)
  {
  }

  lemma {:induction false} OldestBeatsRest(entries: Entries, order: seq<string>, first: nat, it: nat, oldest: nat)
    requires first + 1 < |order| && forall id <- order :: id in entries
    requires first <= it <= |order| && first <= oldest < |order|
    requires it == first ==> oldest == first + 1
    requires forall k :: first <= k < |order| && k != oldest && (k < it || k == first + 1) ==>
      Beats(entries, order, first, oldest, k)
    requires it == first + 1 ==> oldest <= first + 1
    requires it > first + 1 ==> oldest < it
    ensures var r := Oldest(entries, order, it, oldest);
      first <= r && forall k :: first <= k < |order| && k != r ==> Beats(entries, order, first, r, k)
    decreases |order| - it
  {
    if it < |order| {
      var next := if entries[order[it]].lastModified < entries[order[oldest]].lastModified then it else oldest;
      forall k | first <= k < |order| && k != next && (k < it + 1 || k == first + 1)
        ensures Beats(entries, order, first, next, k)
      {
        if k != oldest && (k < it || k == first + 1) {
          assert Beats(entries, order, first, oldest, k);
        }
      }
      OldestBeatsRest(entries, order, first, it + 1, next);
    }
  }

  /** The victim is preferred to every other entry from the first free one on, whether those are in use or not. */
  lemma VictimBeatsRest(entries: Entries, order: seq<string>)
    requires Lists(order, entries) && FirstFree(entries, order, 0) + 1 < |order|
    ensures var first := FirstFree(entries, order, 0);
      var r := Oldest(entries, order, first, first + 1);
      first <= r && forall k :: first <= k < |order| && k != r ==> Beats(entries, order, first, r, k)
  {
    var first := FirstFree(entries, order, 0);
    OldestBeatsRest(entries, order, first, first, first + 1);
  }

  /** An entry that could be evicted is preferred to all that are in use behind the first free one. */
  ghost predicate FreeIsOldest(entries: Entries, order: seq<string>)
    requires forall id <- order :: id in entries
  {
    var first := FirstFree(entries, order, 0);
    exists k :: first <= k < |order| && Evictable(entries[order[k]]) &&
      forall j :: first <= j < |order| && !Evictable(entries[order[j]]) ==> Beats(entries, order, first, k, j)
  }

  /** The victim can be evicted exactly when some free entry is preferred to all in use behind the first free one. */
  lemma VictimIsFreeIff(entries: Entries, order: seq<string>)
    requires Lists(order, entries) && FirstFree(entries, order, 0) + 1 < |order|
    ensures var first := FirstFree(entries, order, 0);
      Evictable(entries[order[Oldest(entries, order, first, first + 1)]]) <==> FreeIsOldest(entries, order)
  {
    hide Evictable, FirstFree, Oldest;
    var first := FirstFree(entries, order, 0);
    var r := Oldest(entries, order, first, first + 1);
    VictimBeatsRest(entries, order);
    if Evictable(entries[order[r]]) {
      assert FreeIsOldest(entries, order);
    } else if FreeIsOldest(entries, order) {
      var k :| first <= k < |order| && Evictable(entries[order[k]]) &&
        forall j :: first <= j < |order| && !Evictable(entries[order[j]]) ==> Beats(entries, order, first, k, j);
      BeatsOnce(entries, order, first, k, r);
    }
  }

  /** And a free victim is the oldest of all free entries. */
  lemma VictimIsOldest(entries: Entries, order: seq<string>)
    requires Lists(order, entries) && FirstFree(entries, order, 0) + 1 < |order|
    ensures var first := FirstFree(entries, order, 0);
      var victim := entries[order[Oldest(entries, order, first, first + 1)]];
      && (forall k :: first <= k < |order| ==> victim.lastModified <= entries[order[k]].lastModified)
      && (forall id <- entries :: Evictable(entries[id]) ==> victim.lastModified <= entries[id].lastModified)
  {
    var first := FirstFree(entries, order, 0);
    var r := Oldest(entries, order, first, first + 1);
    VictimBeatsRest(entries, order);
    NoneFreeBefore(entries, order, 0);
    hide FirstFree, Oldest, Evictable, Less;
    forall k | first <= k < |order| ensures entries[order[r]].lastModified <= entries[order[k]].lastModified {
      assert k != r ==> Beats(entries, order, first, r, k);
    }
    forall id <- entries | Evictable(entries[id])
      ensures entries[order[r]].lastModified <= entries[id].lastModified
    {
      var k :| 0 <= k < |order| && order[k] == id;
      assert first <= k;
    }
  }

  /** How CheckLimit ends. PastTheEnd: the scan dereferences the end of the map, and what happens then is undefined. */
  datatype Outcome = Within | AllInUse | InUse(victim: string) | FileStays(victim: string) | PastTheEnd

  /** What a round of CheckLimit comes to; None if it goes on to delete the victim. */
  function Judge(entries: Entries, order: seq<string>, over: bool): Option<Outcome>
    requires forall id <- order :: id in entries
  {
    var first := FirstFree(entries, order, 0);
    if !over then Some(Within)
    else if first == |order| then Some(AllInUse)
    else if first + 1 == |order| then Some(PastTheEnd)
    else
      var victim := order[Oldest(entries, order, first, first + 1)];
      if Evictable(entries[victim]) then None else Some(InUse(victim))
  }

  function Victim(entries: Entries, order: seq<string>): (victim: string)
    requires (forall id <- order :: id in entries) && FirstFree(entries, order, 0) + 1 < |order|
    ensures victim in order
  {
    var first := FirstFree(entries, order, 0);
    order[Oldest(entries, order, first, first + 1)]
  }

  lemma JudgeIs(entries: Entries, order: seq<string>)
    requires Lists(order, entries)
    ensures forall id <- order :: id in entries
    ensures Judge(entries, order, false) == Some(Within)
    ensures var first := FirstFree(entries, order, 0);
      Judge(entries, order, true) ==
        if first == |order| then Some(AllInUse)
        else if first + 1 == |order| then Some(PastTheEnd)
        else if Evictable(entries[Victim(entries, order)]) then None
        else Some(InUse(Victim(entries, order)))
  {
  }

  // ---------------------------------------------------------------- the rounds

  /** The entries that are left without some. */
  ghost function Without(entries: Entries, ids: seq<string>): Entries {
    map id | id in entries && id !in ids :: entries[id]
  }

  lemma WithoutFirst(entries: Entries, ids: seq<string>)
    ensures Without(entries, []) == entries
    ensures ids != [] ==> Without(entries - {ids[0]}, ids[1..]) == Without(entries, ids)
  {
    if ids != [] {
      assert ids == [ids[0]] + ids[1..];
    }
  }

  lemma WithoutMember(entries: Entries, ids: seq<string>, id: string)
    ensures id in Without(entries, ids) <==> id in entries && id !in ids
  {
  }

  lemma WithoutLast(entries: Entries, ids: seq<string>, id: string)
    ensures Without(entries, ids) - {id} == Without(entries, ids + [id])
  {
  }

  /** How the check of the limit ends, and which entries it deletes before, if all files can be deleted. */
  ghost function Rounds(entries: Entries, total: int, maxCache: nat): (Outcome, seq<string>)
    decreases |entries|
  {
    var order := TheOrder(entries);
    match Judge(entries, order, total > maxCache)
    case Some(outcome) => (outcome, [])
    case None =>
      var victim := Victim(entries, order);
      var rest := Rounds(entries - {victim}, total - entries[victim].size, maxCache);
      (rest.0, [victim] + rest.1)
  }

  lemma RoundsOnce(entries: Entries, total: int, maxCache: nat)
    ensures var order, r := TheOrder(entries), Rounds(entries, total, maxCache);
      match Judge(entries, order, total > maxCache)
      case Some(outcome) => r == (outcome, [])
      case None =>
        && total > maxCache && FirstFree(entries, order, 0) + 1 < |order| && Victim(entries, order) in entries
        && var victim := Victim(entries, order);
           var rest := Rounds(entries - {victim}, total - entries[victim].size, maxCache);
           r == (rest.0, [victim] + rest.1)
  {
  }

  /** A free entry that is preferred to all others from the first free one on, which is not the last entry. */
  ghost predicate Preferred(entries: Entries, id: string) {
    var order := TheOrder(entries);
    var first := FirstFree(entries, order, 0);
    && id in entries && Evictable(entries[id]) && first + 1 < |order|
    && exists k :: first <= k < |order| && order[k] == id &&
         forall j :: first <= j < |order| && j != k ==> Beats(entries, order, first, k, j)
  }

  /** A round over the limit deletes exactly such an entry. */
  lemma DeletedIffPreferred(entries: Entries, id: string)
    ensures var order := TheOrder(entries);
      (Judge(entries, order, true) == None && Victim(entries, order) == id) <==> Preferred(entries, id)
  {
    hide FirstFree, Oldest, Beats;
    var order := TheOrder(entries);
    var first := FirstFree(entries, order, 0);
    if first + 1 < |order| {
      var r := Oldest(entries, order, first, first + 1);
      VictimBeatsRest(entries, order);
      if Preferred(entries, id) {
        var k :| first <= k < |order| && order[k] == id &&
          forall j :: first <= j < |order| && j != k ==> Beats(entries, order, first, k, j);
        BeatsOnce(entries, order, first, k, r);
      }
    }
  }

  /** What deleting them takes off the total. */
  ghost function SizeOf(entries: Entries, ids: seq<string>): int {
    if ids == [] then 0
    else (if ids[0] in entries then entries[ids[0]].size else 0) + SizeOf(entries - {ids[0]}, ids[1..])
  }

  /** Each is preferred among the entries left by those before it, without which the total is over the limit. */
  ghost predicate Leads(entries: Entries, total: int, maxCache: nat, ids: seq<string>) {
    forall i :: 0 <= i < |ids| ==> LeadsAt(entries, total, maxCache, ids, i)
  }

  ghost predicate LeadsAt(entries: Entries, total: int, maxCache: nat, ids: seq<string>, i: int)
    requires 0 <= i < |ids|
  {
    total - SizeOf(entries, ids[..i]) > maxCache && Preferred(Without(entries, ids[..i]), ids[i])
  }

  lemma LeadsLater(entries: Entries, total: int, maxCache: nat, ids: seq<string>, i: int)
    requires 0 < i < |ids| && ids[0] in entries
    ensures LeadsAt(entries, total, maxCache, ids, i) <==>
            LeadsAt(entries - {ids[0]}, total - entries[ids[0]].size, maxCache, ids[1..], i - 1)
  {
    hide Preferred;
    assert ids[1..][..i - 1] == ids[..i][1..];
    WithoutFirst(entries, ids[..i]);
  }

  lemma LeadsOnce(entries: Entries, total: int, maxCache: nat, ids: seq<string>)
    requires ids != []
    ensures Leads(entries, total, maxCache, ids) <==>
      && total > maxCache && Preferred(entries, ids[0])
      && ids[0] in entries && Leads(entries - {ids[0]}, total - entries[ids[0]].size, maxCache, ids[1..])
  {
    hide Preferred;
    WithoutFirst(entries, []);
    assert ids[..0] == [];
    assert LeadsAt(entries, total, maxCache, ids, 0) <==> total > maxCache && Preferred(entries, ids[0]);
    PreferredIsThere(entries, ids[0]);
    if ids[0] in entries {
      forall i | 0 < i < |ids|
        ensures LeadsAt(entries, total, maxCache, ids, i) <==>
                LeadsAt(entries - {ids[0]}, total - entries[ids[0]].size, maxCache, ids[1..], i - 1)
      {
        LeadsLater(entries, total, maxCache, ids, i);
      }
      LeadsShift(entries, total, maxCache, ids);
    }
  }

  lemma LeadsShift(entries: Entries, total: int, maxCache: nat, ids: seq<string>)
    requires ids != [] && ids[0] in entries
    requires forall i :: 0 < i < |ids| ==> (LeadsAt(entries, total, maxCache, ids, i) <==>
      LeadsAt(entries - {ids[0]}, total - entries[ids[0]].size, maxCache, ids[1..], i - 1))
    ensures Leads(entries, total, maxCache, ids) <==>
      && LeadsAt(entries, total, maxCache, ids, 0)
      && Leads(entries - {ids[0]}, total - entries[ids[0]].size, maxCache, ids[1..])
  {
    hide LeadsAt;
    var e, t, rest := entries - {ids[0]}, total - entries[ids[0]].size, ids[1..];
    if Leads(entries, total, maxCache, ids) {
      forall j | 0 <= j < |rest| ensures LeadsAt(e, t, maxCache, rest, j) {
        assert LeadsAt(entries, total, maxCache, ids, j + 1);
      }
    }
    if LeadsAt(entries, total, maxCache, ids, 0) && Leads(e, t, maxCache, rest) {
      forall i | 0 < i < |ids| ensures LeadsAt(entries, total, maxCache, ids, i) {
        assert LeadsAt(e, t, maxCache, rest, i - 1);
      }
    }
  }

  lemma PreferredIsThere(entries: Entries, id: string)
    ensures Preferred(entries, id) ==> id in entries
  {
  }

  /** Exactly the beginnings of what the rounds delete. */
  lemma {:induction false} LeadsIffDeleted(entries: Entries, total: int, maxCache: nat, ids: seq<string>)
    ensures Leads(entries, total, maxCache, ids) <==> ids <= Rounds(entries, total, maxCache).1
    decreases |ids|
  {
    hide Rounds, Leads, Preferred, Judge, FirstFree, Victim;
    if ids == [] {
      LeadsNone(entries, total, maxCache);
    } else {
      var r := Rounds(entries, total, maxCache);
      LeadsOnce(entries, total, maxCache, ids);
      DeletedIffPreferred(entries, ids[0]);
      RoundsOnce(entries, total, maxCache);
      JudgeIs(entries, TheOrder(entries));
      if total > maxCache && Preferred(entries, ids[0]) {
        PreferredIsThere(entries, ids[0]);
        var rest := Rounds(entries - {ids[0]}, total - entries[ids[0]].size, maxCache).1;
        LeadsIffDeleted(entries - {ids[0]}, total - entries[ids[0]].size, maxCache, ids[1..]);
        assert r.1 == [ids[0]] + rest && ids == [ids[0]] + ids[1..];
        assert r.1[1..] == rest;
      } else {
        assert r.1 == [] || r.1[0] != ids[0];
      }
    }
  }

  lemma LeadsNone(entries: Entries, total: int, maxCache: nat)
    ensures Leads(entries, total, maxCache, [])
  {
  }

  /**
   An entry is evicted exactly when some others are, each of them preferred to all that are left from the first free one
   on, until it is preferred itself, and the total without them is still over the limit.
   */
  lemma EvictedIff(entries: Entries, total: int, maxCache: nat, id: string)
    ensures id in Rounds(entries, total, maxCache).1 <==>
      exists before: seq<string> :: Leads(entries, total, maxCache, before + [id])
  {
    hide Leads, Rounds;
    var all := Rounds(entries, total, maxCache).1;
    if id in all {
      var i :| 0 <= i < |all| && all[i] == id;
      assert all[..i] + [id] == all[..i + 1];
      LeadsIffDeleted(entries, total, maxCache, all[..i] + [id]);
    }
    if before: seq<string> :| Leads(entries, total, maxCache, before + [id]) {
      LeadsIffDeleted(entries, total, maxCache, before + [id]);
      assert all[|before|] == id;
    }
  }

  /**
   The cache is stuck on an entry in use exactly when it is over the limit, something behind the first free entry
   remains to be looked at, and no free entry is preferred to all in use there.
   */
  lemma StuckIff(entries: Entries, order: seq<string>, over: bool)
    requires Lists(order, entries)
    ensures (Judge(entries, order, over).Some? && Judge(entries, order, over).value.InUse?) <==>
      over && FirstFree(entries, order, 0) + 1 < |order| && !FreeIsOldest(entries, order)
  {
    if FirstFree(entries, order, 0) + 1 < |order| {
      VictimIsFreeIff(entries, order);
    }
  }

  /** For instance on this cache, although the first entry could be evicted. */
  lemma VictimInUse()
    ensures var entries: Entries := map["a" := Entry(Unlocked, 0, 1, 1, 2), "b" := Entry(Locked, 0, 1, 1, 1)];
      Lists(["a", "b"], entries) && Evictable(entries["a"]) && Judge(entries, ["a", "b"], true) == Some(InUse("b"))
  {
    var entries: Entries := map["a" := Entry(Unlocked, 0, 1, 1, 2), "b" := Entry(Locked, 0, 1, 1, 1)];
    var order := ["a", "b"];
    assert order[0] == "a" && order[1] == "b";
    assert "a" != "b" by {
      assert "a"[0] != "b"[0];
    }
    assert Oldest(entries, order, 1, 1) == Oldest(entries, order, 2, 1) == 1;
  }

  /** The scan goes past the end exactly when the one free entry is the last: for instance when it is the only entry. */
  lemma PastTheEndIff(entries: Entries, order: seq<string>, over: bool)
    requires Lists(order, entries)
    ensures Judge(entries, order, over) == Some(PastTheEnd) <==>
      && over && order != [] && Evictable(entries[order[|order| - 1]])
      && forall k :: 0 <= k < |order| - 1 ==> !Evictable(entries[order[k]])
  {
    NoneFreeBefore(entries, order, 0);
  }

  /** Nothing is to be done exactly within the limit, and nothing can be exactly when all entries are in use. */
  lemma WithinIff(entries: Entries, order: seq<string>, over: bool)
    requires Lists(order, entries)
    ensures Judge(entries, order, over) == Some(Within) <==> !over
    ensures Judge(entries, order, over) == Some(AllInUse) <==>
      over && forall id <- entries :: entries[id].lockState != Unlocked || entries[id].accessors > 0
  {
    NoneFreeBefore(entries, order, 0);
    var first := FirstFree(entries, order, 0);
    if first < |order| {
      assert order[first] in entries && Evictable(entries[order[first]]);
    } else {
      forall id <- entries ensures !Evictable(entries[id]) {
        var k :| 0 <= k < |order| && order[k] == id;
      }
    }
  }

  /** Of three entries equally old the second goes. */
  lemma SecondOfEquals(time: int)
    ensures var e := Entry(Unlocked, 0, 1, 1, time);
      var entries: Entries := map["a" := e, "b" := e, "c" := e];
      Lists(["a", "b", "c"], entries) && Victim(entries, ["a", "b", "c"]) == "b"
  {
    var e := Entry(Unlocked, 0, 1, 1, time);
    var entries: Entries := map["a" := e, "b" := e, "c" := e];
    var order := ["a", "b", "c"];
    assert "a"[0] < "b"[0] < "c"[0];
    assert order[0] == "a" && order[1] == "b" && order[2] == "c";
    assert Lists(order, entries);
    assert FirstFree(entries, order, 0) == 0;
    assert Oldest(entries, order, 2, 1) == Oldest(entries, order, 3, 1) == 1;
  }
}
