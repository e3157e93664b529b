/** DiskCache: locks, writers, readers and eviction over files, with running totals of sizes and accessors. */
module DiskCaching {
  import opened Ascii
  import opened CacheEviction

  /** A file is named by the id of its resource and the index of the stream. */
  type File = (string, nat)

  /** An open stream of the cache; its destructor calls ReleaseResource. */
  class DiskCacheAdapter {
    const id: string
    const index: nat
    const writing: bool

    constructor (id: string, index: nat, writing: bool)
      ensures this.id == id && this.index == index && this.writing == writing
    {
      this.id, this.index, this.writing := id, index, writing;
    }
  }

  // ---------------------------------------------------------------- sums

  ghost function Sum(m: map<string, nat>): nat {
    if m == map[] then 0 else var k :| k in m; m[k] + Sum(m - {k})
  }

  lemma {:induction false} SumWithout(m: map<string, nat>, k: string)
    requires k in m
    ensures Sum(m) == m[k] + Sum(m - {k})
    decreases |m|
  {
    var j :| j in m && Sum(m) == m[j] + Sum(m - {j});
    if j != k {
      SumWithout(m - {j}, k);
      SumWithout(m - {k}, j);
      assert m - {j} - {k} == m - {k} - {j};
    }
  }

  lemma SumUpdate(m: map<string, nat>, k: string, n: nat)
    ensures Sum(m[k := n]) == n + Sum(m - {k})
    ensures k in m ==> Sum(m) == m[k] + Sum(m - {k})
    ensures k !in m ==> m - {k} == m
  {
    SumWithout(m[k := n], k);
    assert m[k := n] - {k} == m - {k};
    if k in m {
      SumWithout(m, k);
    }
  }

  ghost function Sizes(entries: Entries): map<string, nat> {
    map id | id in entries :: entries[id].size
  }

  ghost function Accessors(entries: Entries): map<string, nat> {
    map id | id in entries :: entries[id].accessors
  }

  // ---------------------------------------------------------------- who has what open

  ghost function OpenOn(open: set<DiskCacheAdapter>, id: string): set<DiskCacheAdapter> {
    set a | a in open && a.id == id
  }

  /** The files that are being written. */
  ghost function Busy(open: set<DiskCacheAdapter>): set<File> {
    set a | a in open && a.writing :: (a.id, a.index)
  }

  /**
   Readers and writers exclude each other: an unlocked entry has readers only, a locked or unlocking one writers
   only, and an unlocking one at least one of them. An entry with an open stream exists, and counts its streams.
   */
  ghost predicate Exclusion(entries: Entries, open: set<DiskCacheAdapter>) {
    && (forall a <- open ::
          a.id in entries && a.index < entries[a.id].streams && (a.writing <==> entries[a.id].lockState != Unlocked))
    && (forall id <- entries :: entries[id].accessors == CountOn(open, id))
    && (forall id <- entries :: entries[id].lockState == Unlocking ==> entries[id].accessors > 0)
  }

  ghost function CountOn(open: set<DiskCacheAdapter>, id: string): nat {
    |OpenOn(open, id)|
  }

  lemma CountAdded(open: set<DiskCacheAdapter>, a: DiskCacheAdapter, id: string)
    requires a !in open
    ensures CountOn(open + {a}, id) == CountOn(open, id) + if a.id == id then 1 else 0
  {
    assert OpenOn(open + {a}, id) == if a.id == id then OpenOn(open, id) + {a} else OpenOn(open, id);
  }

  lemma CountZero(open: set<DiskCacheAdapter>, id: string)
    ensures CountOn(open, id) == 0 <==> forall a <- open :: a.id != id
  {
    if a :| a in open && a.id == id {
      assert a in OpenOn(open, id);
    } else {
      assert OpenOn(open, id) == {};
    }
  }

  /** All accessors together are the open streams. */
  lemma {:induction false} AccessorsAreOpenStreams(entries: Entries, open: set<DiskCacheAdapter>)
    requires Exclusion(entries, open)
    ensures Sum(Accessors(entries)) == |open|
    decreases |entries|
  {
    hide Sum, Exclusion;
    var counts := Accessors(entries);
    if entries == map[] {
      assert counts == map[];
      NoEntriesNoStreams(open);
    } else {
      var id :| id in entries;
      var there, others := OpenOn(open, id), open - OpenOn(open, id);
      WithoutEntry(entries, open, id);
      CountOfEntry(entries, open, id);
      AccessorsAreOpenStreams(entries - {id}, others);
      SumWithout(counts, id);
      assert Accessors(entries - {id}) == counts - {id};
      assert open == there + others && there !! others;
    }
  }

  lemma NoEntriesNoStreams(open: set<DiskCacheAdapter>)
    requires Exclusion(map[], open)
    ensures open == {} && Sum(map[]) == 0
  {
    if a :| a in open {
      assert false;
    }
  }

  lemma CountOfEntry(entries: Entries, open: set<DiskCacheAdapter>, id: string)
    requires Exclusion(entries, open) && id in entries
    ensures entries[id].accessors == |OpenOn(open, id)|
  {
  }

  lemma WithoutEntry(entries: Entries, open: set<DiskCacheAdapter>, id: string)
    requires Exclusion(entries, open)
    ensures Exclusion(entries - {id}, open - OpenOn(open, id))
  {
    forall other | other != id ensures CountOn(open - OpenOn(open, id), other) == CountOn(open, other) {
      assert OpenOn(open - OpenOn(open, id), other) == OpenOn(open, other);
    }
    hide CountOn;
  }

  // ---------------------------------------------------------------- what is on disk

  /** What a file contributes to the size of its entry: its bytes, unless it is being written. */
  ghost function Share(files: map<File, nat>, busy: set<File>, f: File): nat {
    if f in files && f !in busy then files[f] else 0
  }

  ghost function Stored(files: map<File, nat>, busy: set<File>, id: string, n: nat): nat {
    if n == 0 then 0 else Stored(files, busy, id, n - 1) + Share(files, busy, (id, n - 1))
  }

  /** How far the size of an entry is off. */
  type Ledger = map<string, int>

  ghost function Drift(ledger: Ledger, id: string): int {
    if id in ledger then ledger[id] else 0
  }

  /**
   The size of every entry is what its files hold, other than those being written, up to what the ledger says; and there
   are no other files.
   */
  ghost predicate OnDisk(entries: Entries, files: map<File, nat>, open: set<DiskCacheAdapter>, ledger: Ledger) {
    && (forall id <- entries ::
          entries[id].size == Stored(files, Busy(open), id, entries[id].streams) + Drift(ledger, id))
    && (forall f <- files :: f.0 in entries && f.1 < entries[f.0].streams)
    && ledger.Keys <= entries.Keys
  }

  /** No file is being written twice. */
  ghost predicate OneWriter(open: set<DiskCacheAdapter>) {
    forall a <- open, b <- open :: a.writing && b.writing && a.id == b.id && a.index == b.index ==> a == b
  }

  /** The sizes are exactly right. */
  ghost predicate Exact(ledger: Ledger) {
    forall id <- ledger :: ledger[id] == 0
  }

  lemma {:induction false} StoredSame(files: map<File, nat>, busy: set<File>, files': map<File, nat>,
                                      busy': set<File>, id: string, n: nat)
    requires forall i: nat :: i < n ==> Share(files, busy, (id, i)) == Share(files', busy', (id, i))
    ensures Stored(files, busy, id, n) == Stored(files', busy', id, n)
  {
    if n > 0 {
      StoredSame(files, busy, files', busy', id, n - 1);
    }
  }

  /** A change at one file changes the total by its share. */
  lemma {:induction false} StoredChange(files: map<File, nat>, busy: set<File>, files': map<File, nat>,
                                        busy': set<File>, id: string, n: nat, index: nat)
    requires index < n
    requires forall i: nat :: i < n && i != index ==> Share(files, busy, (id, i)) == Share(files', busy', (id, i))
    ensures Stored(files', busy', id, n) + Share(files, busy, (id, index))
         == Stored(files, busy, id, n) + Share(files', busy', (id, index))
    ensures Share(files, busy, (id, index)) <= Stored(files, busy, id, n)
  {
    if index < n - 1 {
      StoredChange(files, busy, files', busy', id, n - 1, index);
    } else {
      StoredSame(files, busy, files', busy', id, n - 1);
    }
  }

  lemma {:induction false} StoredBeyond(files: map<File, nat>, busy: set<File>, id: string, n: nat, m: nat)
    requires n <= m && forall i: nat :: n <= i < m ==> Share(files, busy, (id, i)) == 0
    ensures Stored(files, busy, id, n) == Stored(files, busy, id, m)
    decreases m
  {
    if n < m {
      StoredBeyond(files, busy, id, n, m - 1);
    }
  }

  /** An operation that changes one file, and its entry, and perhaps whether it is being written. */
  lemma FileChangeOnDisk(entries: Entries, files: map<File, nat>, open: set<DiskCacheAdapter>, ledger: Ledger,
                         e: Entry, files': map<File, nat>, open': set<DiskCacheAdapter>, id: string, index: nat)
    requires OnDisk(entries, files, open, ledger) && id in entries
    requires index < e.streams && entries[id].streams <= e.streams
    requires forall f <- files' :: f in files || f == (id, index)
    requires forall f: File :: f != (id, index) ==> Share(files, Busy(open), f) == Share(files', Busy(open'), f)
    ensures OnDisk(entries[id := e], files', open', ledger[id := Drift(ledger, id) + e.size - entries[id].size
      + Share(files, Busy(open), (id, index)) - Share(files', Busy(open'), (id, index))])
  {
    hide Busy, Share;
    NothingBeyond(files, Busy(open), id, entries[id].streams, e.streams);
    StoredBeyond(files, Busy(open), id, entries[id].streams, e.streams);
    StoredChange(files, Busy(open), files', Busy(open'), id, e.streams, index);
    forall other <- entries | other != id
      ensures Stored(files, Busy(open), other, entries[other].streams)
           == Stored(files', Busy(open'), other, entries[other].streams)
    {
      StoredSame(files, Busy(open), files', Busy(open'), other, entries[other].streams);
    }
  }

  lemma NothingBeyond(files: map<File, nat>, busy: set<File>, id: string, n: nat, m: nat)
    requires forall f <- files :: f.0 == id ==> f.1 < n
    ensures forall i: nat :: n <= i < m ==> Share(files, busy, (id, i)) == 0
  {
  }

  /**
   The assertion of WriteResource: a file that nobody writes is not larger than its entry says, unless the entry says
   too little already.
   */
  lemma FileWithinEntry(entries: Entries, files: map<File, nat>, open: set<DiskCacheAdapter>, ledger: Ledger,
                        id: string, index: nat)
    requires OnDisk(entries, files, open, ledger) && id in entries && (id, index) !in Busy(open)
    ensures (if (id, index) in files then files[(id, index)] else 0) == Share(files, Busy(open), (id, index))
    ensures Drift(ledger, id) >= 0 ==> Share(files, Busy(open), (id, index)) <= entries[id].size
  {
    if (id, index) in files {
      StoredChange(files, Busy(open), files, Busy(open), id, entries[id].streams, index);
    }
  }

  /** Entries whose size and streams are as before, and new ones that are empty; the same files and writers. */
  lemma RelabelOnDisk(entries: Entries, files: map<File, nat>, open: set<DiskCacheAdapter>, ledger: Ledger,
                      id: string, e: Entry, open': set<DiskCacheAdapter>)
    requires OnDisk(entries, files, open, ledger) && Busy(open) == Busy(open')
    requires if id in entries then e.size == entries[id].size && e.streams == entries[id].streams
             else e.size == 0 && e.streams == 0
    ensures OnDisk(entries[id := e], files, open', ledger)
  {
  }

  /** An entry without open streams is erased with all its files. */
  lemma EraseOnDisk(entries: Entries, files: map<File, nat>, open: set<DiskCacheAdapter>, ledger: Ledger,
                    files': map<File, nat>, id: string)
    requires OnDisk(entries, files, open, ledger) && id in entries && forall a <- open :: a.id != id
    requires forall f <- files' :: f in files && files'[f] == files[f] && f.0 != id
    requires forall f <- files :: f.0 != id ==> f in files'
    ensures OnDisk(entries - {id}, files', open, ledger - {id})
  {
    hide Busy;
    forall other <- entries | other != id
      ensures Stored(files, Busy(open), other, entries[other].streams)
           == Stored(files', Busy(open), other, entries[other].streams)
    {
      StoredSame(files, Busy(open), files', Busy(open), other, entries[other].streams);
    }
  }

  // ---------------------------------------------------------------- what the operations do to the books

  function Max(a: nat, b: nat): nat {
    if a > b then a else b
  }

  /** The books: entries, open streams, and the running totals, with what Purge has left in the total size. */
  datatype Books = Books(
    entries: Entries, open: set<DiskCacheAdapter>, totalSize: nat, totalAccessors: nat, purged: nat)

  ghost predicate Balanced(b: Books) {
    && Exclusion(b.entries, b.open)
    && b.totalAccessors == |b.open|
    && b.totalSize == Sum(Sizes(b.entries)) + b.purged
  }

  /** One entry is put in place of another, or added. */
  ghost function Put(b: Books, id: string, e: Entry): Books {
    b.(entries := b.entries[id := e],
       totalSize := Sum(Sizes(b.entries[id := e])) + b.purged)
  }

  lemma PutTotal(b: Books, id: string, e: Entry)
    requires Balanced(b)
    ensures Put(b, id, e).totalSize == b.totalSize + e.size - if id in b.entries then b.entries[id].size else 0
    ensures id in b.entries ==> b.entries[id].size <= b.totalSize
  {
    var m := Sizes(b.entries);
    SumUpdate(m, id, e.size);
    assert Sizes(b.entries[id := e]) == m[id := e.size];
  }

  /** A new entry, or one whose accessors stay and whose lock changes in a way that its open streams allow. */
  lemma PutBalanced(b: Books, id: string, e: Entry)
    requires Balanced(b)
    requires if id in b.entries then e.accessors == b.entries[id].accessors && e.streams == b.entries[id].streams
             else e.accessors == 0
    requires e.accessors > 0 ==> (b.entries[id].lockState == Unlocked <==> e.lockState == Unlocked)
    requires e.lockState == Unlocking ==> e.accessors > 0
    ensures Balanced(Put(b, id, e))
  {
    hide Sum, Sizes, CountOn;
    CountZero(b.open, id);
  }

  function Attached(e: Entry, a: DiskCacheAdapter, size: nat): Entry {
    e.(accessors := e.accessors + 1, size := size, streams := Max(e.streams, a.index + 1))
  }

  lemma OpenExclusion(entries: Entries, open: set<DiskCacheAdapter>, a: DiskCacheAdapter, size: nat)
    requires Exclusion(entries, open) && a !in open && a.id in entries
    requires a.writing <==> entries[a.id].lockState != Unlocked
    ensures Exclusion(entries[a.id := Attached(entries[a.id], a, size)], open + {a})
  {
    hide CountOn;
    forall id ensures CountOn(open + {a}, id) == CountOn(open, id) + if a.id == id then 1 else 0 {
      CountAdded(open, a, id);
    }
  }

  /** A stream is opened on an entry whose lock allows it. */
  lemma OpenBalanced(b: Books, a: DiskCacheAdapter, size: nat)
    requires Balanced(b) && a !in b.open && a.id in b.entries
    requires a.writing <==> b.entries[a.id].lockState != Unlocked
    ensures Balanced(Put(b, a.id, Attached(b.entries[a.id], a, size))
                       .(open := b.open + {a}, totalAccessors := b.totalAccessors + 1))
  {
    hide Sum, Sizes, Exclusion, Attached;
    OpenExclusion(b.entries, b.open, a, size);
  }

  /** The last stream to be closed on an unlocking entry unlocks it. */
  function Released(e: Entry, bytes: nat, now: int): Entry
    requires e.accessors > 0
  {
    var last := e.lockState == Unlocking && e.accessors == 1;
    Entry(if last then Unlocked else e.lockState, e.accessors - 1, e.size + bytes, e.streams,
          if last then now else e.lastModified)
  }

  lemma CloseExclusion(entries: Entries, open: set<DiskCacheAdapter>, a: DiskCacheAdapter, bytes: nat, now: int)
    requires Exclusion(entries, open) && a in open
    ensures a.id in entries && entries[a.id].accessors > 0
    ensures Exclusion(entries[a.id := Released(entries[a.id], bytes, now)], open - {a})
  {
    hide CountOn;
    var rest := open - {a};
    assert rest + {a} == open;
    forall id ensures CountOn(open, id) == CountOn(rest, id) + if a.id == id then 1 else 0 {
      CountAdded(rest, a, id);
    }
    CountZero(rest, a.id);
  }

  /** A stream is closed. */
  lemma CloseBalanced(b: Books, a: DiskCacheAdapter, bytes: nat, now: int)
    requires Balanced(b) && a in b.open
    ensures b.entries[a.id].accessors > 0 && b.totalAccessors > 0
    ensures Balanced(Put(b, a.id, Released(b.entries[a.id], bytes, now))
                       .(open := b.open - {a}, totalAccessors := b.totalAccessors - 1))
  {
    hide Sum, Sizes, Exclusion, Released;
    CloseExclusion(b.entries, b.open, a, bytes, now);
    assert b.open - {a} + {a} == b.open;
  }

  lemma HasAccessor(b: Books, a: DiskCacheAdapter)
    requires Balanced(b) && a in b.open
    ensures a.id in b.entries && b.entries[a.id].accessors > 0
    ensures a.index < b.entries[a.id].streams && (a.writing <==> b.entries[a.id].lockState != Unlocked)
  {
    CountZero(b.open, a.id);
  }

  lemma EraseExclusion(entries: Entries, open: set<DiskCacheAdapter>, id: string)
    requires Exclusion(entries, open) && id in entries && entries[id].accessors == 0
    ensures Exclusion(entries - {id}, open)
  {
    hide CountOn;
    CountZero(open, id);
  }

  lemma EraseBalanced(b: Books, id: string)
    requires Balanced(b) && id in b.entries && b.entries[id].accessors == 0
    ensures b.entries[id].size <= b.totalSize
    ensures Balanced(b.(entries := b.entries - {id}, totalSize := b.totalSize - b.entries[id].size))
  {
    hide Sum, Exclusion;
    EraseExclusion(b.entries, b.open, id);
    SumWithout(Sizes(b.entries), id);
    assert Sizes(b.entries - {id}) == Sizes(b.entries) - {id};
  }

  /** A file opened for writing leaves its share; what is subtracted beside that puts the size off. */
  lemma OpenedForWriting(entries: Entries, files: map<File, nat>, open: set<DiskCacheAdapter>, ledger: Ledger,
                         a: DiskCacheAdapter, e: Entry, taken: nat)
    requires OnDisk(entries, files, open, ledger) && a !in open && a.writing && a.id in entries
    requires e.streams == Max(entries[a.id].streams, a.index + 1) && e.size + taken == entries[a.id].size
    ensures OnDisk(entries[a.id := e], files[(a.id, a.index) := 0], open + {a},
      ledger[a.id := Drift(ledger, a.id) + Share(files, Busy(open), (a.id, a.index)) - taken])
  {
    assert Busy(open + {a}) == Busy(open) + {(a.id, a.index)};
    FileChangeOnDisk(entries, files, open, ledger, e, files[(a.id, a.index) := 0], open + {a}, a.id, a.index);
  }

  lemma ExactOpen(open: set<DiskCacheAdapter>, a: DiskCacheAdapter)
    requires OneWriter(open) && a !in open && (a.id, a.index) !in Busy(open)
    ensures OneWriter(open + {a})
  {
    forall b <- open | b.writing ensures (b.id, b.index) in Busy(open) {
    }
  }

  lemma ReadersNotBusy(open: set<DiskCacheAdapter>, a: DiskCacheAdapter)
    requires !a.writing
    ensures Busy(open + {a}) == Busy(open)
  {
  }

  lemma WrittenOnDisk(entries: Entries, files: map<File, nat>, open: set<DiskCacheAdapter>, ledger: Ledger,
                      a: DiskCacheAdapter, size: nat)
    requires OnDisk(entries, files, open, ledger)
    requires a.id in entries && a.index < entries[a.id].streams && a in open && a.writing
    ensures OnDisk(entries, files[(a.id, a.index) := size], open, ledger)
  {
    assert (a.id, a.index) in Busy(open);
    forall id <- entries
      ensures Stored(files, Busy(open), id, entries[id].streams)
           == Stored(files[(a.id, a.index) := size], Busy(open), id, entries[id].streams)
    {
      StoredSame(files, Busy(open), files[(a.id, a.index) := size], Busy(open), id, entries[id].streams);
    }
  }

  /** A writer's file is counted; if another still writes it, it is not to be counted yet, and the size is off. */
  lemma ClosedOnDisk(entries: Entries, files: map<File, nat>, open: set<DiskCacheAdapter>, ledger: Ledger,
                     a: DiskCacheAdapter, e: Entry, bytes: nat)
    requires OnDisk(entries, files, open, ledger) && a.id in entries && a.index < entries[a.id].streams && a in open
    requires e.streams == entries[a.id].streams && e.size == entries[a.id].size + bytes
    requires a.writing || bytes == 0
    ensures a.writing ==> OnDisk(entries[a.id := e], files, open - {a},
      ledger[a.id := Drift(ledger, a.id) + bytes - Share(files, Busy(open - {a}), (a.id, a.index))])
    ensures !a.writing ==> OnDisk(entries[a.id := e], files, open - {a}, ledger)
  {
    var f := (a.id, a.index);
    if a.writing {
      assert f in Busy(open);
      BusyWithout(open, a);
      FileChangeOnDisk(entries, files, open, ledger, e, files, open - {a}, a.id, a.index);
    } else {
      assert Busy(open - {a}) == Busy(open);
      RelabelOnDisk(entries, files, open, ledger, a.id, e, open - {a});
    }
  }

  lemma BusyWithout(open: set<DiskCacheAdapter>, a: DiskCacheAdapter)
    requires a in open && a.writing
    ensures Busy(open - {a}) <= Busy(open) && forall g <- Busy(open) :: g != (a.id, a.index) ==> g in Busy(open - {a})
    ensures OneWriter(open) ==> (a.id, a.index) !in Busy(open - {a})
  {
    forall g <- Busy(open) | g != (a.id, a.index) ensures g in Busy(open - {a}) {
      var b :| b in open && b.writing && (b.id, b.index) == g;
      assert b in open - {a};
    }
  }

  lemma ErasedOnDisk(entries: Entries, files: map<File, nat>, open: set<DiskCacheAdapter>, ledger: Ledger,
                     files': map<File, nat>, id: string, b: Books)
    requires Balanced(b) && b.entries == entries && b.open == open
    requires OnDisk(entries, files, open, ledger) && id in entries && entries[id].accessors == 0
    requires forall f <- files' :: f in files && files'[f] == files[f]
    requires forall f <- files :: f.0 != id ==> f in files'
    requires forall i: nat :: i < entries[id].streams ==> (id, i) !in files'
    ensures OnDisk(entries - {id}, files', open, ledger - {id})
  {
    hide Stored;
    CountZero(open, id);
    forall f <- files' ensures f.0 != id {
      assert f == (f.0, f.1);
    }
    EraseOnDisk(entries, files, open, ledger, files', id);
  }

  // ---------------------------------------------------------------- the code

  lemma NothingYet()
    ensures Balanced(Books(map[], {}, 0, 0, 0)) && OnDisk(map[], map[], {}, map[]) && OneWriter({}) && Exact(map[])
  {
    assert Sizes(map[]) == map[];
  }

  lemma WithinAtOnce(entries: Entries, total: nat, maxCache: nat)
    ensures total <= maxCache ==> Rounds(entries, total, maxCache) == (Within, [])
  {
    RoundsOnce(entries, total, maxCache);
    JudgeIs(entries, TheOrder(entries));
  }

  lemma SomeLeast(ids: set<string>)
    requires ids != {}
    ensures exists id :: id in ids && forall other <- ids :: other == id || Less(id, other)
  {
    var least := LeastOf(ids);
  }

  /** The first of the entries, and those that are still to come. */
  ghost predicate Listed(order: seq<string>, rest: set<string>, entries: Entries) {
    && rest <= entries.Keys && (forall id <- entries :: id in rest || id in order)
    && (forall id <- order :: id in entries && forall other <- rest :: Less(id, other) && id != other)
    && (forall i, j :: 0 <= i < j < |order| ==> Less(order[i], order[j]) && order[i] != order[j])
  }

  lemma ListedNone(entries: Entries)
    ensures Listed([], entries.Keys, entries)
  {
  }

  lemma ListedNext(order: seq<string>, rest: set<string>, entries: Entries, id: string)
    requires Listed(order, rest, entries) && id in rest && forall other <- rest :: other == id || Less(id, other)
    ensures Listed(order + [id], rest - {id}, entries)
  {
    hide Less;
    forall i | 0 <= i < |order| ensures Less(order[i], id) && order[i] != id {
      assert order[i] in order;
    }
  }

  lemma ListedAll(order: seq<string>, entries: Entries)
    requires Listed(order, {}, entries)
    ensures Lists(order, entries)
  {
    hide Less;
  }

  /** Entries have gone that were neither locked nor open, and nothing else has happened. */
  ghost predicate Evicted(before: Entries, after: Entries) {
    && (forall id <- after :: id in before && after[id] == before[id])
    && (forall id <- before :: id !in after ==> Evictable(before[id]))
  }

  /** One of the files of this id is not deleted. */
  ghost predicate SticksIn(files: map<File, nat>, stuck: set<File>, id: string) {
    exists f <- files :: f.0 == id && f in stuck
  }

  lemma SticksBefore(first: map<File, nat>, files: map<File, nat>, stuck: set<File>, id: string)
    requires SticksIn(files, stuck, id) && forall f <- files :: f in first
    ensures SticksIn(first, stuck, id)
  {
  }

  lemma NoneEvicted(entries: Entries)
    ensures Evicted(entries, entries)
  {
  }

  /** A round that deletes an entry, behind those that have gone before it. */
  lemma OneMoreGone(first: Entries, victims: seq<string>, entries: Entries, total: int, maxCache: nat, victim: string)
    requires Evicted(first, entries) && entries == Without(first, victims) && total > maxCache
    requires victim in entries && Evictable(entries[victim])
    requires Judge(entries, TheOrder(entries), true) == None
    requires FirstFree(entries, TheOrder(entries), 0) + 1 < |TheOrder(entries)|
    requires Victim(entries, TheOrder(entries)) == victim
    ensures var rest := entries - {victim};
      var later := Rounds(rest, total - entries[victim].size, maxCache);
      && Evicted(first, rest) && rest == Without(first, victims + [victim]) && |rest| < |entries|
      && Rounds(entries, total, maxCache).0 == later.0
      && victims + Rounds(entries, total, maxCache).1 == (victims + [victim]) + later.1
  {
    hide Judge, Victim, FirstFree, Lists, Rounds, Evictable;
    RoundsOnce(entries, total, maxCache);
    WithoutLast(first, victims, victim);
    hide Without;
    var rest := entries - {victim};
    var later := Rounds(rest, total - entries[victim].size, maxCache);
    assert victims + ([victim] + later.1) == (victims + [victim]) + later.1;
    assert |rest| < |entries| by {
      assert rest.Keys == entries.Keys - {victim};
    }
  }

  class DiskCache {
    const maxCache: nat
    var totalSize: nat
    var totalAccessors: nat
    var entries: Entries

    /** The file system below the cache folder. */
    var files: map<File, nat>

    /** The files among them that it does not delete. */
    var stuck: set<File>

    ghost var open: set<DiskCacheAdapter>
    ghost var purged: nat

    /** How far the sizes are off through files that are written twice at a time. */
    ghost var ledger: Ledger

    /** No file has failed to be deleted. */
    ghost var tidy: bool

    /** No file has been opened for writing while it was being written. */
    ghost var single: bool

    constructor (maxCache: nat, stuck: set<File>)
      ensures Valid() && tidy && single && entries == map[] && open == {} && files == map[] && purged == 0
      ensures totalSize == 0 && this.maxCache == maxCache && this.stuck == stuck
    {
      hide Balanced, OnDisk, Exact;
      this.maxCache, totalSize, totalAccessors, entries, files := maxCache, 0, 0, map[], map[];
      this.stuck := stuck;
      open, purged, ledger, tidy, single := {}, 0, map[], true, true;
      new;
      NothingYet();
    }

    ghost function View(): Books
      reads this
    {
      Books(entries, open, totalSize, totalAccessors, purged)
    }

    /** The books balance; the sizes are right up to the ledger, and exactly right if no file has had two writers. */
    ghost predicate Valid()
      reads this
    {
      && Balanced(View())
      && (tidy ==> OnDisk(entries, files, open, ledger))
      && (single ==> OneWriter(open)) && (tidy && single ==> Exact(ledger))
    }

    function FileSize(f: File): nat
      reads this
    {
      if f in files then files[f] else 0
    }

    /** Locked, or being read. */
    predicate Taken(id: string)
      reads this
    {
      && id in entries
      && (entries[id].lockState == Locked || (entries[id].lockState == Unlocked && entries[id].accessors > 0))
    }

    /** What the files of an entry hold, other than those being written. */
    ghost function Held(id: string): nat
      requires id in entries
      reads this
    {
      Stored(files, Busy(open), id, entries[id].streams)
    }

    /** GetOrCreateEntry(id, true). */
    method CreateEntry(id: string, now: int)
      requires Valid()
      modifies this`entries
      ensures Valid() && id in entries
      ensures entries == if id in old(entries) then old(entries) else old(entries)[id := Entry(Unlocked, 0, 0, 0, now)]
    {
      hide Balanced, OnDisk, Exact;
      if id !in entries {
        ghost var e := Entry(Unlocked, 0, 0, 0, now);
        PutBalanced(View(), id, e);
        PutTotal(View(), id, e);
        if tidy {
          RelabelOnDisk(entries, files, open, ledger, id, e, open);
        }
        entries := entries[id := Entry(Unlocked, 0, 0, 0, now)];
      }
    }

    /** Puts another lock state on an entry. */
    method Relock(id: string, lockState: LockState, lastModified: int)
      requires Valid() && id in entries
      requires entries[id].accessors > 0 ==> (entries[id].lockState == Unlocked <==> lockState == Unlocked)
      requires lockState == Unlocking ==> entries[id].accessors > 0
      modifies this`entries
      ensures Valid()
      ensures entries == old(entries)[id := old(entries[id]).(lockState := lockState, lastModified := lastModified)]
    {
      hide Balanced, OnDisk, Exact;
      ghost var e := entries[id].(lockState := lockState, lastModified := lastModified);
      PutBalanced(View(), id, e);
      PutTotal(View(), id, e);
      if tidy {
        RelabelOnDisk(entries, files, open, ledger, id, e, open);
      }
      entries := entries[id := entries[id].(lockState := lockState, lastModified := lastModified)];
    }

    /** The entries once there is one for this id. */
    function WithEntry(id: string, now: int): Entries
      reads this
    {
      if id in entries then entries else entries[id := Entry(Unlocked, 0, 0, 0, now)]
    }

    /**
     LockResource. The check of the limit may evict the very entry that is about to be locked: the code then marks
     what has been erased, and returns true. By the entries before, it does so exactly if the rounds of the check bring
     the total within the limit and this entry is among those that they evict; only a file that cannot be deleted
     comes in between, upon which the code gives up.
     */
    method LockResource(id: string, now: int) returns (ok: bool, ghost outcome: Outcome, ghost dangling: bool)
      requires Valid()
      modifies this`entries, this`files, this`totalSize, this`ledger, this`tidy
      ensures Valid() && tidy == (old(tidy) && !outcome.FileStays?) && (outcome.FileStays? ==> !ok)
      ensures old(id in entries && entries[id].lockState == Locked) ==> !ok
      ensures old(id in entries && entries[id].lockState == Unlocked && entries[id].accessors > 0) ==> !ok
      ensures dangling <==> ok && id !in entries
      ensures ok && !dangling ==> entries[id].lockState == Locked
      ensures old(Taken(id)) ==> !ok && outcome == Within && entries == old(entries) && files == old(files)
      ensures !old(Taken(id)) && outcome.FileStays? ==>
        && outcome.victim in Rounds(old(WithEntry(id, now)), old(totalSize), maxCache).1
        && SticksIn(old(files), stuck, outcome.victim)
      ensures !old(Taken(id)) && !outcome.FileStays? ==>
        var before := old(WithEntry(id, now));
        var (end, evicted) := Rounds(before, old(totalSize), maxCache);
        && outcome == end && (ok <==> end == Within) && (dangling <==> end == Within && id in evicted)
        && var left := Without(before, evicted);
           entries == if ok && id in left then left[id := left[id].(lockState := Locked)] else left
      ensures Evicted(old(entries) - {id}, entries - {id})
      ensures old(totalSize <= maxCache) && !ok ==>
        old(id in entries && (entries[id].lockState == Locked || entries[id].accessors > 0))
      ensures old(totalSize <= maxCache) ==>
        && outcome == Within && ok == !old(Taken(id)) && !dangling && files == old(files)
        && totalSize == old(totalSize) && ledger == old(ledger)
        && (ok ==> entries == old(WithEntry(id, now))[id := old(WithEntry(id, now))[id].(lockState := Locked)])
    {
      hide Valid, Rounds, Judge, TheOrder, Without;
      outcome, dangling := Within, false;
      CreateEntry(id, now);
      ghost var before := entries;
      if entries[id].lockState == Locked {
        return false, outcome, dangling;
      }
      if entries[id].lockState == Unlocked && entries[id].accessors > 0 {
        return false, outcome, dangling;
      }
      WithinAtOnce(entries, totalSize, maxCache);
      WithoutFirst(entries, []);
      if totalSize > maxCache {
        ghost var victims;
        var result;
        result, victims := CheckLimit();
        outcome := result;
        if result != Within {
          return false, outcome, dangling;
        }
      }
      WithoutMember(before, Rounds(before, old(totalSize), maxCache).1, id);
      dangling := id !in entries;
      if id in entries {
        Relock(id, Locked, entries[id].lastModified);
      }
      return true, outcome, dangling;
    }

    /** WriteResource, for an id that has an entry: null if that is not locked or the file cannot be opened. */
    method WriteResource(id: string, index: nat, opens: bool) returns (a: DiskCacheAdapter?)
      requires Valid() && id in entries
      modifies this`entries, this`files, this`totalSize, this`totalAccessors, this`open, this`ledger, this`single
      ensures Valid() && (single ==> old(single))
      ensures a != null <==> old(entries[id].lockState) == Locked && opens
      ensures a == null ==>
        && entries == old(entries) && files == old(files) && open == old(open) && single == old(single)
        && ledger == old(ledger) && totalSize == old(totalSize)
      ensures a != null ==> fresh(a) && a.id == id && a.index == index && a.writing && open == old(open) + {a}
      ensures a != null ==> files == old(files)[(id, index) := 0]
      ensures a != null ==> single == old(single && (id, index) !in Busy(open))
      ensures a != null ==> var taken := old(TakenOut(id, index));
        && taken <= old(entries[id].size) && totalSize == old(totalSize) - taken
        && entries == old(entries)[id := old(entries[id]).(
             accessors := old(entries[id].accessors) + 1, size := old(entries[id].size) - taken,
             streams := if index < old(entries[id].streams) then old(entries[id].streams) else index + 1)]
        && ledger == old(ledger)[id := old(Drift(ledger, id) + Share(files, Busy(open), (id, index))) - taken]
    {
      hide Balanced, OnDisk, Busy, Share, Exact;
      if entries[id].lockState != Locked {
        return null;
      }
      var previousSize := FileSize((id, index));
      if previousSize > entries[id].size {
        previousSize := entries[id].size;
      }
      if !opens {
        return null;
      }
      a := new DiskCacheAdapter(id, index, true);
      BeginWriting(a, previousSize);
      files := files[(id, index) := 0];
      Attach(a, entries[id].size - previousSize);
    }

    /** What opening a file for writing takes out of the size of its entry. */
    function TakenOut(id: string, index: nat): (n: nat)
      requires id in entries
      reads this
      ensures n <= entries[id].size
    {
      if FileSize((id, index)) > entries[id].size then entries[id].size else FileSize((id, index))
    }

    /** The ledger for a file that is being opened for writing. */
    ghost method BeginWriting(a: DiskCacheAdapter, taken: nat)
      requires Valid() && a !in open && a.writing && a.id in entries && taken == TakenOut(a.id, a.index)
      modifies this`ledger, this`single
      ensures single == (old(single) && (a.id, a.index) !in Busy(open))
      ensures ledger ==
        old(ledger)[a.id := old(Drift(ledger, a.id)) + Share(files, Busy(open), (a.id, a.index)) - taken]
      ensures (single ==> OneWriter(open + {a})) && (tidy && single ==> Exact(ledger))
      ensures tidy ==> OnDisk(entries[a.id := Attached(entries[a.id], a, entries[a.id].size - taken)],
                              files[(a.id, a.index) := 0], open + {a}, ledger)
    {
      hide Balanced, OnDisk, Busy, Share;
      ghost var f := (a.id, a.index);
      ghost var e := Attached(entries[a.id], a, entries[a.id].size - taken);
      if tidy {
        OpenedForWriting(entries, files, open, ledger, a, e, taken);
      }
      if single && f !in Busy(open) {
        ExactOpen(open, a);
        if tidy {
          FileWithinEntry(entries, files, open, ledger, a.id, a.index);
        }
      } else {
        single := false;
      }
      ledger := ledger[a.id := Drift(ledger, a.id) + Share(files, Busy(open), f) - taken];
    }

    /** The books for a stream that has just been opened. */
    method Attach(a: DiskCacheAdapter, size: nat)
      requires Balanced(View()) && a !in open && a.id in entries
      requires a.writing <==> entries[a.id].lockState != Unlocked
      requires size <= entries[a.id].size
      modifies this`entries, this`totalSize, this`totalAccessors, this`open
      ensures Balanced(View()) && open == old(open) + {a}
      ensures entries == old(entries)[a.id := Attached(old(entries[a.id]), a, size)]
      ensures totalSize == old(totalSize) - (old(entries[a.id].size) - size)
    {
      hide Balanced;
      ghost var e := Attached(entries[a.id], a, size);
      OpenBalanced(View(), a, size);
      PutTotal(View(), a.id, e);
      totalSize := totalSize - (entries[a.id].size - size);
      entries := entries[a.id := Attached(entries[a.id], a, size)];
      totalAccessors := totalAccessors + 1;
      open := open + {a};
    }

    /** What the user of a writing stream does to its file. */
    method WriteStream(a: DiskCacheAdapter, size: nat)
      requires Valid() && a in open && a.writing
      modifies this`files
      ensures Valid() && files == old(files)[(a.id, a.index) := size]
    {
      hide OnDisk, Busy, Exact;
      HasAccessor(View(), a);
      if tidy {
        WrittenOnDisk(entries, files, open, ledger, a, size);
      }
      files := files[(a.id, a.index) := size];
    }

    method UnlockResource(id: string, now: int) returns (ok: bool, ghost outcome: Outcome)
      requires Valid() && id in entries
      modifies this`entries, this`files, this`totalSize, this`ledger, this`tidy
      ensures Valid() && (tidy ==> old(tidy)) && (ok <==> old(entries[id].lockState) == Locked)
      ensures !ok ==> entries == old(entries) && files == old(files)
      ensures ok && old(entries[id].accessors) > 0 ==>
        entries == old(entries)[id := old(entries[id]).(lockState := Unlocking)] && files == old(files)
      ensures ok && old(entries[id].accessors) == 0 ==>
        var unlocked := old(entries)[id := old(entries[id]).(lockState := Unlocked, lastModified := now)];
        var (end, evicted) := Rounds(unlocked, old(totalSize), maxCache);
        && Evicted(unlocked, entries)
        && (if outcome.FileStays? then outcome.victim in evicted && SticksIn(old(files), stuck, outcome.victim)
            else outcome == end && entries == Without(unlocked, evicted))
        && (old(totalSize) <= maxCache ==>
              entries == unlocked && files == old(files) && tidy == old(tidy) && totalSize == old(totalSize))
    {
      hide Balanced, OnDisk, Exact;
      outcome := Within;
      if entries[id].lockState != Locked {
        return false, outcome;
      }
      if entries[id].accessors > 0 {
        Relock(id, Unlocking, entries[id].lastModified);
      } else {
        Relock(id, Unlocked, now);
        ghost var victims;
        var result;
        result, victims := CheckLimit();
        outcome := result;
      }
      return true, outcome;
    }

    /** ReadResource, for an id that has an entry: null if that is not unlocked, or there is no such stream. */
    method ReadResource(id: string, index: nat, opens: bool) returns (a: DiskCacheAdapter?)
      requires Valid() && id in entries
      modifies this`entries, this`totalSize, this`totalAccessors, this`open
      ensures Valid() && totalSize == old(totalSize)
      ensures a == null ==> entries == old(entries) && open == old(open)
      ensures a != null ==> fresh(a) && a.id == id && a.index == index && !a.writing && open == old(open) + {a}
      ensures a != null <==> old(entries[id].lockState == Unlocked && index < entries[id].streams) && opens
      ensures a != null ==>
        entries == old(entries)[id := old(entries[id]).(accessors := old(entries[id].accessors) + 1)]
    {
      hide Balanced, OnDisk, Busy;
      if entries[id].lockState != Unlocked {
        return null;
      }
      if index >= entries[id].streams {
        return null;
      }
      if !opens {
        return null;
      }
      a := new DiskCacheAdapter(id, index, false);
      if tidy {
        ReadersNotBusy(open, a);
        RelabelOnDisk(entries, files, open, ledger, id, Attached(entries[id], a, entries[id].size), open + {a});
      }
      Attach(a, entries[id].size);
    }

    /**
     The destructor of an open stream, whose entry is always there: the bytes of a writer's file count again, and the
     last writer of an unlocking entry unlocks it, upon which the limit is checked.
     */
    method ReleaseResource(a: DiskCacheAdapter, now: int) returns (ghost outcome: Outcome)
      requires Valid() && a in open
      modifies this`entries, this`files, this`totalSize, this`totalAccessors, this`open, this`ledger, this`tidy
      ensures Valid() && open == old(open) - {a} && (tidy ==> old(tidy))
      ensures a.id in old(entries) && old(entries[a.id].accessors) > 0
      ensures var e, bytes := old(entries[a.id]), old(if a.writing then FileSize((a.id, a.index)) else 0);
        var last := e.lockState == Unlocking && e.accessors == 1;
        var closed := old(entries)[a.id := e.(
          lockState := if last then Unlocked else e.lockState, accessors := e.accessors - 1, size := e.size + bytes,
          lastModified := if last then now else e.lastModified)];
        if last then
          var (end, evicted) := Rounds(closed, old(totalSize) + bytes, maxCache);
          && Evicted(closed, entries)
          && if outcome.FileStays? then outcome.victim in evicted && SticksIn(old(files), stuck, outcome.victim)
             else outcome == end && entries == Without(closed, evicted)
        else
          && entries == closed && files == old(files) && tidy == old(tidy)
          && totalSize == old(totalSize) + bytes && outcome == Within
          && (a.writing ==> ledger == old(ledger)[a.id :=
                Drift(old(ledger), a.id) + bytes - Share(files, Busy(open), (a.id, a.index))])
    {
      hide Valid, Rounds, Without, Share, Busy;
      outcome := Within;
      var last := Detach(a, now);
      if last {
        ghost var victims;
        var result;
        result, victims := CheckLimit();
        outcome := result;
      }
    }

    /** The books for a stream that is being closed; whether it is the last one of an unlocking entry. */
    method Detach(a: DiskCacheAdapter, now: int) returns (last: bool)
      requires Valid() && a in open
      modifies this`entries, this`totalSize, this`totalAccessors, this`open, this`ledger
      ensures Valid() && open == old(open) - {a}
      ensures a.id in old(entries) && old(entries[a.id].accessors) > 0
      ensures last <==> old(entries[a.id].lockState == Unlocking && entries[a.id].accessors == 1)
      ensures var bytes := old(if a.writing then FileSize((a.id, a.index)) else 0);
        && entries == old(entries)[a.id := Released(old(entries[a.id]), bytes, now)]
        && totalSize == old(totalSize) + bytes
        && (a.writing ==> ledger == old(ledger)[a.id :=
              Drift(old(ledger), a.id) + bytes - Share(files, Busy(open), (a.id, a.index))])
    {
      hide Balanced, OnDisk, Exact, OneWriter, Share, Busy, Drift, Sum, Sizes;
      HasAccessor(View(), a);
      var bytes := if entries[a.id].lockState != Unlocked then FileSize((a.id, a.index)) else 0;
      last := entries[a.id].lockState == Unlocking && entries[a.id].accessors == 1;
      ghost var e := Released(entries[a.id], bytes, now);
      CloseBalanced(View(), a, bytes, now);
      PutTotal(View(), a.id, e);
      EndWriting(a, e, bytes);
      totalAccessors := totalAccessors - 1;
      totalSize := totalSize + bytes;
      entries := entries[a.id := Released(entries[a.id], bytes, now)];
      open := open - {a};
    }

    /** The ledger for a stream that is being closed. */
    ghost method EndWriting(a: DiskCacheAdapter, e: Entry, bytes: nat)
      requires Valid() && a in open && a.id in entries && a.index < entries[a.id].streams
      requires e.streams == entries[a.id].streams && e.size == entries[a.id].size + bytes
      requires bytes == if a.writing then FileSize((a.id, a.index)) else 0
      modifies this`ledger
      ensures ledger == if !a.writing then old(ledger)
        else old(ledger)[a.id := Drift(old(ledger), a.id) + bytes - Share(files, Busy(open - {a}), (a.id, a.index))]
      ensures tidy ==> OnDisk(entries[a.id := e], files, open - {a}, ledger)
      ensures (single ==> OneWriter(open - {a})) && (tidy && single ==> Exact(ledger))
    {
      hide Balanced, OnDisk, Busy;
      if tidy {
        ClosedOnDisk(entries, files, open, ledger, a, e, bytes);
      }
      if a.writing {
        BusyWithout(open, a);
        ledger := ledger[a.id := Drift(ledger, a.id) + bytes - Share(files, Busy(open - {a}), (a.id, a.index))];
      }
    }

    /** What is left of the files when those of an entry are deleted. */
    ghost function Remaining(id: string, n: nat): map<File, nat>
      reads this
    {
      map f | f in files && (f.0 != id || f.1 >= n || f in stuck) :: files[f]
    }

    /** One of the first files of an entry is not deleted. */
    ghost predicate Stuck(id: string, n: nat)
      reads this
    {
      exists i: nat :: i < n && (id, i) in files && (id, i) in stuck
    }

    /** False: the entry is in use, and nothing has happened; or it is gone, but one of its files is not. */
    method DeleteResource(id: string) returns (success: bool)
      requires Valid()
      modifies this`entries, this`files, this`totalSize, this`ledger, this`tidy
      ensures Valid()
      ensures old(id in entries && entries[id].lockState == Unlocked && entries[id].accessors == 0) ==>
        && entries == old(entries) - {id} && totalSize == old(totalSize) - old(entries[id].size)
        && files == old(Remaining(id, entries[id].streams)) && tidy == (old(tidy) && success)
        && (success <==> !old(Stuck(id, entries[id].streams)))
      ensures !old(id in entries && entries[id].lockState == Unlocked && entries[id].accessors == 0) ==>
        && entries == old(entries) && files == old(files) && totalSize == old(totalSize) && tidy == old(tidy)
        && (success <==> id !in entries)
    {
      hide Balanced, OnDisk;
      if id !in entries {
        return true;
      }
      if entries[id].lockState != Unlocked || entries[id].accessors > 0 {
        return false;
      }
      ghost var before := files;
      success := DeleteFiles(id, entries[id].streams);
      EraseBalanced(View(), id);
      if tidy && success {
        ErasedOnDisk(entries, before, open, ledger, files, id, View());
      }
      tidy := tidy && success;
      totalSize := totalSize - entries[id].size;
      entries := entries - {id};
      ledger := ledger - {id};
    }

    method DeleteFiles(id: string, streams: nat) returns (success: bool)
      modifies this`files
      ensures files == old(Remaining(id, streams)) && (success <==> !old(Stuck(id, streams)))
    {
      success := true;
      var index := 0;
      while index < streams
        invariant index <= streams && files == old(Remaining(id, index))
        invariant success <==> !old(Stuck(id, index))
      {
        if (id, index) in files {
          if (id, index) in stuck {
            success := false;
          } else {
            files := files - {(id, index)};
          }
        }
        index := index + 1;
      }
    }

    /** The entries, in the order of the map. */
    method List() returns (order: seq<string>)
      ensures Lists(order, entries) && order == TheOrder(entries)
    {
      hide Listed, Lists, TheOrder;
      order := [];
      var rest := entries.Keys;
      ListedNone(entries);
      while rest != {}
        invariant Listed(order, rest, entries)
        decreases |rest|
      {
        SomeLeast(rest);
        var id: string :| id in rest && forall other <- rest :: other == id || Less(id, other);
        ListedNext(order, rest, entries, id);
        order, rest := order + [id], rest - {id};
      }
      ListedAll(order, entries);
      OneOrder(order, TheOrder(entries), entries);
    }

    /** The scan for a victim: none, past the end of the map, or the victim, which may be in use. */
    method Scan(order: seq<string>) returns (pastTheEnd: bool, victim: Option<string>)
      requires Lists(order, entries)
      ensures var first := FirstFree(entries, order, 0);
        && (pastTheEnd <==> first + 1 == |order|)
        && victim == if first + 1 < |order| then Some(Victim(entries, order)) else None
    {
      assert forall id <- order :: id in entries;
      hide Lists, FirstFree, Oldest;
      var first := ScanForFree(order);
      if first == |order| {
        return false, None;
      }
      if first + 1 == |order| {
        // The loop goes on to compare times with the entry behind the last one.
        return true, None;
      }
      var oldest := ScanForOldest(order, first);
      return false, Some(order[oldest]);
    }

    method ScanForFree(order: seq<string>) returns (first: nat)
      requires forall id <- order :: id in entries
      ensures first == FirstFree(entries, order, 0)
    {
      hide Evictable;
      first := 0;
      while first < |order| && !Evictable(entries[order[first]])
        invariant first <= |order| && FirstFree(entries, order, first) == FirstFree(entries, order, 0)
      {
        first := first + 1;
      }
    }

    method ScanForOldest(order: seq<string>, first: nat) returns (oldest: nat)
      requires first + 1 < |order| && forall id <- order :: id in entries
      ensures oldest == Oldest(entries, order, first, first + 1)
    {
      var it := first;
      oldest := first + 1;
      while it < |order|
        invariant first <= it <= |order| && first <= oldest < |order|
        invariant Oldest(entries, order, it, oldest) == Oldest(entries, order, first, first + 1)
      {
        if entries[order[it]].lastModified < entries[order[oldest]].lastModified {
          oldest := it;
        }
        it := it + 1;
      }
    }

    /** One round of CheckLimit over the limit; None if it has deleted the victim. */
    method Round() returns (outcome: Option<Outcome>, ghost victim: string)
      requires Valid() && totalSize > maxCache
      modifies this`entries, this`files, this`totalSize, this`ledger, this`tidy
      ensures Valid() && tidy == (old(tidy) && (outcome.Some? ==> !outcome.value.FileStays?))
      ensures outcome.Some? && outcome.value.FileStays? ==> SticksIn(old(files), stuck, outcome.value.victim)
      ensures forall f <- files :: f in old(files)
      ensures var order := TheOrder(old(entries));
        if outcome.Some? && !outcome.value.FileStays? then
          && Judge(old(entries), order, true) == outcome && entries == old(entries) && files == old(files)
          && totalSize == old(totalSize)
        else
          && Judge(old(entries), order, true) == None && victim in old(entries) && Evictable(old(entries)[victim])
          && FirstFree(old(entries), order, 0) + 1 < |order| && Victim(old(entries), order) == victim
          && entries == old(entries) - {victim} && totalSize == old(totalSize) - old(entries)[victim].size
          && (outcome.Some? ==> outcome.value.victim == victim)
    {
      hide Balanced, OnDisk, Exact, Judge, Victim, FirstFree, Lists;
      var order := List();
      victim := "";
      JudgeIs(entries, order);
      var pastTheEnd, oldest := Scan(order);
      if pastTheEnd {
        return Some(PastTheEnd), victim;
      }
      if oldest == None {
        return Some(AllInUse), victim;
      }
      victim := oldest.value;
      var deleted := DeleteResource(oldest.value);
      if !deleted {
        return Some(if oldest.value in entries then InUse(oldest.value) else FileStays(oldest.value)), victim;
      }
      return None, victim;
    }

    /**
     Deletes entries while the total is over the limit. Only an entry that is neither locked nor open goes, and each
     round lets one go, so that there is an end, unless the scan goes past the end of the map. Which entries go, and how
     it ends, is what the rounds come to on the entries before, unless a file cannot be deleted.
     */
    method CheckLimit() returns (outcome: Outcome, ghost victims: seq<string>)
      requires Valid()
      modifies this`entries, this`files, this`totalSize, this`ledger, this`tidy
      ensures Valid() && Evicted(old(entries), entries) && totalSize <= old(totalSize)
      ensures tidy == (old(tidy) && !outcome.FileStays?) && entries == Without(old(entries), victims)
      ensures var rounds := Rounds(old(entries), old(totalSize), maxCache);
        if outcome.FileStays? then victims != [] && victims <= rounds.1 && outcome.victim == victims[|victims| - 1]
        else rounds == (outcome, victims)
      ensures outcome.FileStays? ==> SticksIn(old(files), stuck, outcome.victim)
      ensures !outcome.FileStays? ==> Judge(entries, TheOrder(entries), totalSize > maxCache) == Some(outcome)
      ensures old(totalSize) <= maxCache ==>
        outcome == Within && entries == old(entries) && files == old(files) && totalSize == old(totalSize)
    {
      hide Judge, Victim, FirstFree, Lists, TheOrder, Rounds, Without, Valid, Evicted, Evictable;
      victims := [];
      WithoutFirst(entries, []);
      NoneEvicted(entries);
      WithinAtOnce(entries, totalSize, maxCache);
      ghost var all := Rounds(entries, totalSize, maxCache);
      assert [] + all.1 == all.1;
      while totalSize > maxCache
        invariant Valid() && Evicted(old(entries), entries) && tidy == old(tidy) && totalSize <= old(totalSize)
        invariant entries == Without(old(entries), victims) && forall f <- files :: f in old(files)
        invariant all.0 == Rounds(entries, totalSize, maxCache).0
        invariant all.1 == victims + Rounds(entries, totalSize, maxCache).1
        invariant old(totalSize) <= maxCache ==> files == old(files) && totalSize == old(totalSize)
        decreases |entries|
      {
        var result;
        ghost var filesBefore := files;
        result, victims := NextRound(old(entries), victims, all);
        if result.Some? {
          if result.value.FileStays? {
            SticksBefore(old(files), filesBefore, stuck, result.value.victim);
          }
          return result.value, victims;
        }
      }
      JudgeIs(entries, TheOrder(entries));
      WithinAtOnce(entries, totalSize, maxCache);
      assert all.1 == victims + [] == victims;
      return Within, victims;
    }

    /** A round behind others, of which `all` is what they come to together. */
    method NextRound(ghost first: Entries, ghost victims: seq<string>, ghost all: (Outcome, seq<string>))
      returns (outcome: Option<Outcome>, ghost more: seq<string>)
      requires Valid() && totalSize > maxCache && Evicted(first, entries) && entries == Without(first, victims)
      requires all.0 == Rounds(entries, totalSize, maxCache).0
      requires all.1 == victims + Rounds(entries, totalSize, maxCache).1
      modifies this`entries, this`files, this`totalSize, this`ledger, this`tidy
      ensures Valid() && Evicted(first, entries) && entries == Without(first, more) && totalSize <= old(totalSize)
      ensures tidy == (old(tidy) && (outcome.Some? ==> !outcome.value.FileStays?))
      ensures forall f <- files :: f in old(files)
      ensures match outcome
        case None =>
          && |entries| < |old(entries)| && all.0 == Rounds(entries, totalSize, maxCache).0
          && all.1 == more + Rounds(entries, totalSize, maxCache).1
        case Some(FileStays(victim)) =>
          && SticksIn(old(files), stuck, victim) && more <= all.1 && more != [] && more[|more| - 1] == victim
        case Some(other) => all == (other, more) && Judge(entries, TheOrder(entries), totalSize > maxCache) == outcome
    {
      hide Judge, Victim, FirstFree, Lists, TheOrder, Rounds, Without, Valid, Evicted, Evictable;
      RoundsOnce(entries, totalSize, maxCache);
      ghost var before, total := entries, totalSize;
      ghost var victim;
      outcome, victim := Round();
      if outcome.Some? && !outcome.value.FileStays? {
        assert all.1 == victims + [] == victims;
        more := victims;
        return;
      }
      OneMoreGone(first, victims, before, total, maxCache, victim);
      more := victims + [victim];
    }

    /** Purge: the entries go with their files, but what they held stays in the total size. */
    method Purge(purges: bool) returns (ok: bool)
      requires Valid()
      modifies this`entries, this`files, this`purged, this`ledger
      ensures Valid() && totalSize == old(totalSize) && (ok <==> old(open) == {} && purges)
      ensures if ok then old(open) == {} && entries == map[] && files == map[] && purged == totalSize
              else entries == old(entries) && files == old(files) && purged == old(purged)
    {
      if totalAccessors > 0 {
        return false;
      }
      if !purges {
        return false;
      }
      files := map[];
      entries := map[];
      purged, ledger := totalSize, map[];
      assert Sizes(entries) == map[];
      return true;
    }
  }

  /** A lock for a scope, with rollback unless it is committed. */
  class CacheLock {
    const cache: DiskCache
    const id: string
    var rollback: bool
    var locked: bool

    /** The entry had been evicted when it was locked. */
    ghost var dangling: bool

    constructor (cache: DiskCache, id: string, rollback: bool, now: int)
      requires cache.Valid()
      modifies cache
      ensures cache.Valid() && this.cache == cache && this.id == id && this.rollback == rollback
      ensures cache.open == old(cache.open) && cache.stuck == old(cache.stuck)
      ensures locked && !dangling ==> id in cache.entries && cache.entries[id].lockState == Locked
      ensures old(id in cache.entries && cache.entries[id].lockState == Locked) ==> !locked
      ensures old(id in cache.entries && cache.entries[id].lockState == Unlocked && cache.entries[id].accessors > 0) ==>
        !locked
      ensures old(cache.totalSize <= cache.maxCache) && !locked ==>
        old(id in cache.entries && (cache.entries[id].lockState == Locked || cache.entries[id].accessors > 0))
      ensures dangling <==> locked && id !in cache.entries
      ensures cache.tidy ==>
        var (end, evicted) := Rounds(old(cache.WithEntry(id, now)), old(cache.totalSize), cache.maxCache);
        dangling <==> !old(cache.Taken(id)) && end == Within && id in evicted
    {
      hide Balanced, OnDisk, Exact, Rounds, Without;
      this.cache, this.id, this.rollback, locked, dangling := cache, id, rollback, false, false;
      new;
      ghost var outcome;
      locked, outcome, dangling := cache.LockResource(id, now);
    }

    method Commit()
      modifies this`rollback
      ensures !rollback
    {
      rollback := false;
    }

    /**
     The destructor. A resource that is rolled back is gone, provided that its streams have been closed before; with
     a writer still open it is only marked for unlocking, and what has been written stays. If another caller has
     unlocked the entry, a rollback deletes it all the same unless it is in use; if there is no entry, the code
     dereferences null.
     */
    method Destroy(now: int) returns (ghost crashes: bool, ghost outcome: Outcome)
      requires cache.Valid()
      modifies cache
      ensures cache.Valid() && (crashes <==> locked && id !in old(cache.entries))
      ensures !locked || crashes ==> cache.entries == old(cache.entries) && cache.files == old(cache.files)
      ensures locked && !crashes && old(cache.entries[id].lockState) != Locked ==>
        cache.entries == if rollback && Evictable(old(cache.entries[id])) then old(cache.entries) - {id}
                         else old(cache.entries)
      ensures locked && !crashes && old(cache.entries[id].lockState == Locked && cache.entries[id].accessors > 0) ==>
        && cache.entries == old(cache.entries)[id := old(cache.entries[id]).(lockState := Unlocking)]
        && cache.files == old(cache.files)
      ensures locked && !crashes && old(cache.entries[id].lockState == Locked && cache.entries[id].accessors == 0) ==>
        var unlocked := old(cache.entries)[id := old(cache.entries[id]).(lockState := Unlocked, lastModified := now)];
        var (end, evicted) := Rounds(unlocked, old(cache.totalSize), cache.maxCache);
        && Evicted(unlocked - {id}, cache.entries - {id}) && (rollback ==> id !in cache.entries)
        && (if outcome.FileStays?
            then outcome.victim in evicted && SticksIn(old(cache.files), cache.stuck, outcome.victim)
            else outcome == end && cache.entries == Without(unlocked, evicted) - if rollback then {id} else {})
    {
      hide Balanced, OnDisk, Exact, Rounds, Without;
      crashes, outcome := false, Within;
      if locked {
        if id !in cache.entries {
          crashes := true;
          return;
        }
        var unlocked;
        unlocked, outcome := cache.UnlockResource(id, now);
        if rollback {
          var deleted := cache.DeleteResource(id);
        }
      }
    }
  }
}
