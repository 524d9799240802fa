/** The bounded cache of GIS layer files: eviction, reads in flight, and what its byte counter counts.

    Node runs the code between two awaits without interruption, so every method below is one such stretch and
    every sequence of calls is an interleaving of requests. Entries keep the insertion order of the Map. */
module GisCache {
  import opened Wrappers

  const MAX_GIS_CACHE_BYTES := 50 * 1024 * 1024
  const MAX_GIS_CACHE_ENTRIES := 50

  /** A cached file; its content is what byteLength measures. */
  datatype Entry = Entry(path: string, mtime: int, byteLength: nat, lastAccessed: int)

  function Sum(entries: seq<Entry>): nat {
    if entries == [] then 0 else entries[0].byteLength + Sum(entries[1..])
  }

  ghost predicate UniquePaths(entries: seq<Entry>) {
    forall i, j :: 0 <= i < j < |entries| ==> entries[i].path != entries[j].path
  }

  function RemoveAt(entries: seq<Entry>, k: nat): (r: seq<Entry>)
    requires k < |entries|
    ensures |r| == |entries| - 1
    ensures forall i :: 0 <= i < |r| ==> r[i] == entries[if i < k then i else i + 1]
  {
    entries[..k] + entries[k + 1..]
  }

  lemma {:induction false} SumConcat(a: seq<Entry>, b: seq<Entry>)
    ensures Sum(a + b) == Sum(a) + Sum(b)
  {
    if a == [] {
      assert a + b == b;
    } else {
      assert (a + b)[1..] == a[1..] + b;
      SumConcat(a[1..], b);
    }
  }

  lemma SumRemoveAt(entries: seq<Entry>, k: nat)
    requires k < |entries|
    ensures Sum(RemoveAt(entries, k)) == Sum(entries) - entries[k].byteLength
  {
    SumConcat(entries[..k], entries[k + 1..]);
    SumConcat(entries[..k], entries[k..]);
    assert entries[..k] + entries[k..] == entries;
    assert entries[k..][1..] == entries[k + 1..];
  }

  lemma SumReplace(entries: seq<Entry>, k: nat, e: Entry)
    requires k < |entries|
    ensures Sum(entries[k := e]) == Sum(entries) - entries[k].byteLength + e.byteLength
  {
    SumRemoveAt(entries, k);
    SumRemoveAt(entries[k := e], k);
    assert RemoveAt(entries, k) == RemoveAt(entries[k := e], k);
  }

  // ---- Eviction order ----

  /** The entry at i was accessed before the one at j, or at the same time and inserted earlier. */
  predicate Older(entries: seq<Entry>, i: nat, j: nat)
    requires i < |entries| && j < |entries|
  {
    entries[i].lastAccessed < entries[j].lastAccessed || (entries[i].lastAccessed == entries[j].lastAccessed && i < j)
  }

  ghost predicate IsOldest(entries: seq<Entry>, k: nat)
    requires k < |entries|
  {
    forall j :: 0 <= j < |entries| && j != k ==> Older(entries, k, j)
  }

  /** Position of the least recently accessed entry */
  ghost function Oldest(entries: seq<Entry>): (k: nat)
    requires entries != []
    ensures k < |entries|
  {
    OldestExists(entries);
    var k: nat :| k < |entries| && IsOldest(entries, k);
    k
  }

  lemma {:induction false} OldestExists(entries: seq<Entry>)
    requires entries != []
    ensures exists k: nat :: k < |entries| && IsOldest(entries, k)
  {
    var n := |entries| - 1;
    if n == 0 {
      assert IsOldest(entries, 0);
    } else {
      OldestExists(entries[..n]);
      var k: nat :| k < n && IsOldest(entries[..n], k);
      OldestStep(entries, n, k);
    }
  }

  lemma OldestIsOldest(entries: seq<Entry>)
    requires entries != []
    ensures IsOldest(entries, Oldest(entries))
  {
    OldestExists(entries);
  }

  /** How the search moves on to entry n from the oldest of the entries before it */
  lemma OldestStep(entries: seq<Entry>, n: nat, k: nat)
    requires k < n < |entries| && IsOldest(entries[..n], k)
    ensures IsOldest(entries[..n + 1], if entries[n].lastAccessed < entries[k].lastAccessed then n else k)
    ensures n + 1 == |entries| ==> IsOldest(entries, if entries[n].lastAccessed < entries[k].lastAccessed then n else k)
  {
    forall j: nat | j < n
      ensures || entries[k].lastAccessed < entries[j].lastAccessed
              || (entries[k].lastAccessed == entries[j].lastAccessed && k <= j)
    {
      assert entries[..n][j] == entries[j] && entries[..n][k] == entries[k];
      assert j != k ==> Older(entries[..n], k, j);
    }
    if n + 1 == |entries| {
      assert entries[..n + 1] == entries;
    }
  }

  /** All entries from the first to be evicted to the last */
  ghost function EvictionOrder(entries: seq<Entry>): (r: seq<Entry>)
    ensures |r| == |entries|
    decreases |entries|
  {
    if entries == [] then []
    else [entries[Oldest(entries)]] + EvictionOrder(RemoveAt(entries, Oldest(entries)))
  }

  /** What is left after n evictions */
  ghost function Remaining(entries: seq<Entry>, n: nat): (r: seq<Entry>)
    requires n <= |entries|
    ensures |r| == |entries| - n
    decreases n
  {
    if n == 0 then entries else Remaining(RemoveAt(entries, Oldest(entries)), n - 1)
  }

  predicate OverLimit(bytes: int, count: nat, incoming: nat) {
    bytes + incoming > MAX_GIS_CACHE_BYTES || count >= MAX_GIS_CACHE_ENTRIES
  }

  /** How many entries eviction removes to make room */
  ghost function Evictions(entries: seq<Entry>, bytes: int, incoming: nat): (n: nat)
    ensures n <= |entries|
    decreases |entries|
  {
    if OverLimit(bytes, |entries|, incoming) && entries != [] then
      var k := Oldest(entries);
      1 + Evictions(RemoveAt(entries, k), bytes - entries[k].byteLength, incoming)
    else 0
  }

  /** Where an entry of the rest was before entry k was taken out */
  function Shifted(k: nat, p: nat): nat {
    if p < k then p else p + 1
  }

  lemma OlderShifted(entries: seq<Entry>, k: nat, p: nat, q: nat)
    requires k < |entries| && p < |entries| - 1 && q < |entries| - 1 && Older(RemoveAt(entries, k), p, q)
    ensures Older(entries, Shifted(k, p), Shifted(k, q))
    ensures entries[Shifted(k, p)] == RemoveAt(entries, k)[p] && entries[Shifted(k, q)] == RemoveAt(entries, k)[q]
  {
  }

  /** The eviction order runs by last access, and by insertion among equals. */
  lemma {:induction false} EvictionOrderSorted(entries: seq<Entry>, i: nat, j: nat) returns (p: nat, q: nat)
    requires i < j < |entries|
    ensures p < |entries| && q < |entries| && p != q
    ensures EvictionOrder(entries)[i] == entries[p] && EvictionOrder(entries)[j] == entries[q] && Older(entries, p, q)
    decreases |entries|
  {
    if i == 0 {
      p := Oldest(entries);
      q := EvictionOrderMember(entries, j);
      OldestIsOldest(entries);
    } else {
      var k := Oldest(entries);
      var tail := EvictionOrder(RemoveAt(entries, k));
      assert EvictionOrder(entries)[i] == tail[i - 1] && EvictionOrder(entries)[j] == tail[j - 1];
      p, q := EvictionOrderSorted(RemoveAt(entries, k), i - 1, j - 1);
      OlderShifted(entries, k, p, q);
      p, q := Shifted(k, p), Shifted(k, q);
    }
  }

  /** The next entry to go is the first of the least recently accessed ones. */
  lemma OldestByName(entries: seq<Entry>)
    requires entries != []
    ensures var k := Oldest(entries);
            && (forall j :: 0 <= j < |entries| ==> entries[k].lastAccessed <= entries[j].lastAccessed)
            && (forall j :: 0 <= j < k ==> entries[k].lastAccessed < entries[j].lastAccessed)
            && EvictionOrder(entries)[0] == entries[k]
  {
    OldestIsOldest(entries);
    var k := Oldest(entries);
    forall j | 0 <= j < |entries|
      ensures entries[k].lastAccessed <= entries[j].lastAccessed
      ensures j < k ==> entries[k].lastAccessed < entries[j].lastAccessed
    {
      assert j != k ==> Older(entries, k, j);
    }
  }

  lemma {:induction false} EvictionOrderMember(entries: seq<Entry>, i: nat) returns (p: nat)
    requires i < |entries|
    ensures p < |entries| && EvictionOrder(entries)[i] == entries[p]
    ensures i > 0 ==> p != Oldest(entries)
    decreases |entries|
  {
    var k := Oldest(entries);
    if i == 0 {
      p := k;
    } else {
      p := EvictionOrderMember(RemoveAt(entries, k), i - 1);
      p := Shifted(k, p);
    }
  }

  /** n evictions remove the first n of the eviction order and their bytes. */
  lemma {:induction false} RemainingBytes(entries: seq<Entry>, n: nat)
    requires n <= |entries|
    ensures Sum(Remaining(entries, n)) == Sum(entries) - Sum(EvictionOrder(entries)[..n])
    decreases n
  {
    if n > 0 {
      var k := Oldest(entries);
      var rest := RemoveAt(entries, k);
      RemainingBytes(rest, n - 1);
      SumRemoveAt(entries, k);
      assert EvictionOrder(entries)[..n] == [entries[k]] + EvictionOrder(rest)[..n - 1];
    }
  }

  lemma EntriesWithout(entries: seq<Entry>, k: nat)
    requires k < |entries|
    ensures multiset(entries) == multiset(RemoveAt(entries, k)) + multiset{entries[k]}
  {
    assert entries == entries[..k] + ([entries[k]] + entries[k + 1..]);
  }

  lemma EntriesWith(e: Entry, rest: seq<Entry>)
    ensures multiset([e] + rest) == multiset(rest) + multiset{e}
  {
  }

  /** Nothing else is removed, and nothing is added. */
  lemma {:induction false} RemainingEntries(entries: seq<Entry>, n: nat)
    requires n <= |entries|
    ensures multiset(Remaining(entries, n)) + multiset(EvictionOrder(entries)[..n]) == multiset(entries)
    decreases n
  {
    if n > 0 {
      var k := Oldest(entries);
      var rest := RemoveAt(entries, k);
      RemainingEntries(rest, n - 1);
      EntriesWithout(entries, k);
      EntriesWith(entries[k], EvictionOrder(rest)[..n - 1]);
      TakePrepend(entries[k], EvictionOrder(rest), n);
      var (kept, taken) := (multiset(Remaining(rest, n - 1)), multiset(EvictionOrder(rest)[..n - 1]));
      assert multiset(EvictionOrder(entries)[..n]) == taken + multiset{entries[k]};
      AddToTaken(kept, taken, entries[k]);
    } else {
      assert multiset(EvictionOrder(entries)[..0]) == multiset{};
    }
  }

  lemma AddToTaken(kept: multiset<Entry>, taken: multiset<Entry>, e: Entry)
    ensures kept + (taken + multiset{e}) == (kept + taken) + multiset{e}
  {}

  lemma SumPrepend(e: Entry, rest: seq<Entry>)
    ensures Sum([e] + rest) == e.byteLength + Sum(rest)
  {
    assert ([e] + rest)[1..] == rest;
  }

  lemma OrderedBytes(entries: seq<Entry>, m: nat)
    requires 0 < m <= |entries|
    ensures var k := Oldest(entries);
            Sum(EvictionOrder(entries)[..m])
                == entries[k].byteLength + Sum(EvictionOrder(RemoveAt(entries, k))[..m - 1])
  {
    var k := Oldest(entries);
    var tail := EvictionOrder(RemoveAt(entries, k));
    TakePrepend(entries[k], tail, m);
    SumPrepend(entries[k], tail[..m - 1]);
  }

  lemma TakePrepend(e: Entry, tail: seq<Entry>, m: nat)
    requires 0 < m <= |tail| + 1
    ensures ([e] + tail)[..m] == [e] + tail[..m - 1]
  {
  }

  /** Before its last eviction the cache was still over its limits, at every step. */
  lemma {:induction false} OverBefore(entries: seq<Entry>, bytes: int, incoming: nat, m: nat)
    requires m < Evictions(entries, bytes, incoming)
    ensures OverLimit(bytes - Sum(EvictionOrder(entries)[..m]), |entries| - m, incoming)
    decreases m
  {
    if m == 0 {
      assert EvictionOrder(entries)[..0] == [];
    } else {
      var k := Oldest(entries);
      OverBefore(RemoveAt(entries, k), bytes - entries[k].byteLength, incoming, m - 1);
      OrderedBytes(entries, m);
    }
  }

  lemma {:induction false} FitsAfter(entries: seq<Entry>, bytes: int, incoming: nat)
    ensures var n := Evictions(entries, bytes, incoming);
            n == |entries| || !OverLimit(bytes - Sum(EvictionOrder(entries)[..n]), |entries| - n, incoming)
    decreases |entries|
  {
    var n := Evictions(entries, bytes, incoming);
    if n == 0 {
      assert EvictionOrder(entries)[..0] == [];
    } else {
      var k := Oldest(entries);
      FitsAfter(RemoveAt(entries, k), bytes - entries[k].byteLength, incoming);
      OrderedBytes(entries, n);
    }
  }

  /** Eviction removes the shortest prefix of the eviction order after which the incoming bytes and the number of
      entries fit, or empties the cache. */
  lemma ShortestPrefix(entries: seq<Entry>, bytes: int, incoming: nat)
    ensures var n := Evictions(entries, bytes, incoming);
            var order := EvictionOrder(entries);
            && (n == |entries| || !OverLimit(bytes - Sum(order[..n]), |entries| - n, incoming))
            && (forall m :: 0 <= m < n ==> OverLimit(bytes - Sum(order[..m]), |entries| - m, incoming))
    ensures var n := Evictions(entries, bytes, incoming);
            var order := EvictionOrder(entries);
            && (n < |entries| ==> bytes - Sum(order[..n]) + incoming <= 52428800 && |entries| - n < 50)
            && (forall m :: 0 <= m < n ==> bytes - Sum(order[..m]) + incoming > 52428800 || |entries| - m >= 50)
  {
    FitsAfter(entries, bytes, incoming);
    forall m: nat | m < Evictions(entries, bytes, incoming)
      ensures OverLimit(bytes - Sum(EvictionOrder(entries)[..m]), |entries| - m, incoming)
    {
      OverBefore(entries, bytes, incoming, m);
    }
  }

  // ---- Lookups by path ----

  function Find(entries: seq<Entry>, path: string): (k: nat)
    ensures k <= |entries|
    ensures k < |entries| ==> entries[k].path == path
    ensures forall j :: 0 <= j < k ==> entries[j].path != path
  {
    if entries == [] then 0
    else if entries[0].path == path then 0
    else 1 + Find(entries[1..], path)
  }

  predicate Has(entries: seq<Entry>, path: string) {
    Find(entries, path) < |entries|
  }

  lemma {:induction false} RemainingSubset(entries: seq<Entry>, n: nat)
    requires n <= |entries| && UniquePaths(entries)
    ensures UniquePaths(Remaining(entries, n))
    ensures forall e :: e in Remaining(entries, n) ==> e in entries
    decreases n
  {
    if n > 0 {
      RemainingSubset(RemoveAt(entries, Oldest(entries)), n - 1);
    }
  }

  /** Map.set: an existing key keeps its place, a new one goes to the end. */
  function Stored(entries: seq<Entry>, e: Entry): seq<Entry> {
    var k := Find(entries, e.path);
    if k < |entries| then entries[k := e] else entries + [e]
  }

  /** A new path goes to the end; a known one keeps its place. */
  lemma StoredByName(entries: seq<Entry>, e: Entry)
    ensures (forall f :: f in entries ==> f.path != e.path) ==> Stored(entries, e) == entries + [e]
    ensures UniquePaths(entries) ==> forall k :: 0 <= k < |entries| && entries[k].path == e.path ==>
              Stored(entries, e) == entries[k := e]
  {
  }

  function Bytes(stale: Option<nat>): nat {
    if stale.Some? then stale.value else 0
  }

  /** The entries that a finished read leaves before it inserts its own */
  ghost function LeftAfterRead(entries: seq<Entry>, bytes: int, stale: Option<nat>, incoming: nat): seq<Entry> {
    Remaining(entries, Evictions(entries, bytes - Bytes(stale), incoming))
  }

  lemma LeftAfterReadOk(entries: seq<Entry>, bytes: int, stale: Option<nat>, incoming: nat, reduced: int)
    requires UniquePaths(entries) && reduced == bytes - Bytes(stale)
    ensures var left := LeftAfterRead(entries, bytes, stale, incoming);
            var n := Evictions(entries, reduced, incoming);
            && left == Remaining(entries, n)
            && UniquePaths(left) && |left| <= |entries|
            && (forall e :: e in left ==> e in entries)
            && Sum(left) == Sum(entries) - Sum(EvictionOrder(entries)[..n])
  {
    RemainingSubset(entries, Evictions(entries, reduced, incoming));
    RemainingBytes(entries, Evictions(entries, reduced, incoming));
  }

  // ---- The cache ----

  /** A read in flight: the byteLength of the stale entry found when it began, the file's mtime, and whether the
      read is over and only its promise is still listed */
  datatype Read = Read(stale: Option<nat>, mtime: int, over: bool)

  datatype Answer = Cached(entry: Entry) | SharedRead | NewRead

  /** While a read goes on, its path's entry is the stale one it began with or is gone: reads of a path are shared. */
  ghost predicate ReadsOk(entries: seq<Entry>, inFlight: map<string, Read>) {
    forall p :: p in inFlight && !inFlight[p].over && Has(entries, p) ==>
                  inFlight[p].stale == Some(entries[Find(entries, p)].byteLength)
  }

  lemma FinishedReadsOk(before: seq<Entry>, left: seq<Entry>, after: seq<Entry>, inFlight: map<string, Read>,
      path: string)
    requires ReadsOk(before, inFlight) && path in inFlight && UniquePaths(before)
    requires forall e :: e in left ==> e in before
    requires forall p :: p != path && Has(after, p) ==> Has(left, p) && after[Find(after, p)] == left[Find(left, p)]
    ensures ReadsOk(after, inFlight[path := inFlight[path].(over := true)])
  {
    var updated := inFlight[path := inFlight[path].(over := true)];
    forall p | p in updated && !updated[p].over && Has(after, p)
      ensures updated[p].stale == Some(after[Find(after, p)].byteLength)
    {
      FindSubset(before, left, p);
    }
  }

  /** What storing the file that was read does to the sum, the paths and the reads still going on */
  lemma AfterRead(before: seq<Entry>, left: seq<Entry>, inFlight: map<string, Read>, e: Entry)
    requires ReadsOk(before, inFlight) && UniquePaths(before) && UniquePaths(left)
    requires forall f :: f in left ==> f in before
    requires e.path in inFlight && !inFlight[e.path].over
    ensures var after := Stored(left, e);
            && UniquePaths(after)
            && ReadsOk(after, inFlight[e.path := inFlight[e.path].(over := true)])
            && |after| == |left| + (if Has(left, e.path) then 0 else 1)
            && Sum(after) == Sum(left) + e.byteLength - if Has(left, e.path) then Bytes(inFlight[e.path].stale) else 0
  {
    StoredBytes(left, e);
    StoredFind(left, e);
    FinishedReadsOk(before, left, Stored(left, e), inFlight, e.path);
    if Has(left, e.path) {
      FindSubset(before, left, e.path);
    }
  }

  class Cache {
    var entries: seq<Entry>
    var currentCacheBytes: int
    var inFlight: map<string, Read>

    /** Bytes of stale entries that were subtracted a second time since the cache was last cleared */
    ghost var twiceSubtracted: nat

    ghost predicate Valid()
      reads this
    {
      && UniquePaths(entries)
      && |entries| <= MAX_GIS_CACHE_ENTRIES
      && (currentCacheBytes <= MAX_GIS_CACHE_BYTES || |entries| == 1)
      && Sum(entries) - currentCacheBytes == twiceSubtracted
      && ReadsOk(entries, inFlight)
    }

    constructor ()
      ensures Valid() && entries == [] && currentCacheBytes == 0 && inFlight == map[] && twiceSubtracted == 0
    {
      entries, currentCacheBytes, inFlight := [], 0, map[];
      twiceSubtracted := 0;
    }

    /** Reads in flight go on, and keep the stale entry they began with. */
    method Clear()
      requires Valid()
      modifies this
      ensures Valid() && entries == [] && currentCacheBytes == 0 && inFlight == old(inFlight) && twiceSubtracted == 0
    {
      entries := [];
      currentCacheBytes := 0;
      twiceSubtracted := 0;
    }

    /** The scan for the least recently accessed entry; the first one wins a tie. */
    method FindOldest() returns (k: nat)
      requires entries != []
      ensures k == Oldest(entries)
    {
      var oldest: Option<nat> := None;
      for i := 0 to |entries|
        invariant oldest.None? <==> i == 0
        invariant oldest.Some? ==> oldest.value < i && IsOldest(entries[..i], oldest.value)
      {
        if i > 0 {
          OldestStep(entries, i, oldest.value);
        }
        if oldest.None? || entries[i].lastAccessed < entries[oldest.value].lastAccessed {
          oldest := Some(i);
        }
      }
      assert entries[..|entries|] == entries;
      OldestUnique(entries, oldest.value);
      k := oldest.value;
    }

    method EvictOldest()
      requires entries != []
      modifies this`entries, this`currentCacheBytes
      ensures entries == RemoveAt(old(entries), Oldest(old(entries)))
      ensures currentCacheBytes == old(currentCacheBytes) - old(entries)[Oldest(old(entries))].byteLength
      ensures Sum(entries) - currentCacheBytes == Sum(old(entries)) - old(currentCacheBytes)
    {
      var k := FindOldest();
      SumRemoveAt(entries, k);
      currentCacheBytes := currentCacheBytes - entries[k].byteLength;
      entries := RemoveAt(entries, k);
    }

    method EvictIfNecessary(incomingBytes: nat)
      modifies this`entries, this`currentCacheBytes
      ensures var n := Evictions(old(entries), old(currentCacheBytes), incomingBytes);
              && entries == Remaining(old(entries), n)
              && currentCacheBytes == old(currentCacheBytes) - Sum(EvictionOrder(old(entries))[..n])
      ensures entries == [] || !OverLimit(currentCacheBytes, |entries|, incomingBytes)
      ensures entries == [] || (currentCacheBytes + incomingBytes <= 52428800 && |entries| < 50)
    {
      ghost var n := Evictions(entries, currentCacheBytes, incomingBytes);
      ghost var target := Remaining(entries, n);
      ghost var lag := Sum(entries) - currentCacheBytes;
      RemainingBytes(entries, n);
      while (currentCacheBytes + incomingBytes > MAX_GIS_CACHE_BYTES || |entries| >= MAX_GIS_CACHE_ENTRIES)
          && |entries| > 0
        invariant n <= |entries| && n == Evictions(entries, currentCacheBytes, incomingBytes)
        invariant Remaining(entries, n) == target
        invariant Sum(entries) - currentCacheBytes == lag
        decreases |entries|
      {
        ghost var (before, bytes) := (entries, currentCacheBytes);
        EvictOldest();
        EvictOne(before, bytes, incomingBytes, entries, currentCacheBytes);
        n := n - 1;
      }
    }

    /** From the stat of the file to the next await: a hit, a read already in flight, or a new read. */
    method Lookup(path: string, mtime: int, now: int) returns (answer: Answer)
      requires Valid()
      modifies this
      ensures Valid()
      ensures answer.Cached? <==> Has(old(entries), path) && old(entries)[Find(old(entries), path)].mtime == mtime
      ensures answer.SharedRead? <==> !answer.Cached? && path in old(inFlight)
      ensures answer.Cached? ==>
                && inFlight == old(inFlight)
                && entries == old(entries)[Find(old(entries), path) := answer.entry]
                && answer.entry == old(entries)[Find(old(entries), path)].(lastAccessed := now)
      ensures !answer.Cached? ==> entries == old(entries)
      ensures answer.SharedRead? ==> inFlight == old(inFlight)
      ensures answer.NewRead? ==>
                var stale := if Has(entries, path) then Some(entries[Find(entries, path)].byteLength) else None;
                inFlight == old(inFlight)[path := Read(stale, mtime, false)]
      ensures currentCacheBytes == old(currentCacheBytes) && twiceSubtracted == old(twiceSubtracted)
    {
      var k := Find(entries, path);
      if k < |entries| && entries[k].mtime == mtime {
        var touched := entries[k].(lastAccessed := now);
        SumReplace(entries, k, touched);
        FindReplaced(entries, k, touched);
        entries := entries[k := touched];
        return Cached(touched);
      }
      if path in inFlight {
        return SharedRead;
      }
      inFlight := inFlight[path := Read(if k < |entries| then Some(entries[k].byteLength) else None, mtime, false)];
      return NewRead;
    }

    /** Subtracts the stale entry and evicts. */
    method MakeRoom(stale: Option<nat>, byteLength: nat)
      requires UniquePaths(entries)
      modifies this`entries, this`currentCacheBytes
      ensures entries == LeftAfterRead(old(entries), old(currentCacheBytes), stale, byteLength)
      ensures UniquePaths(entries) && |entries| <= |old(entries)| && forall e :: e in entries ==> e in old(entries)
      ensures Sum(entries) - currentCacheBytes == Sum(old(entries)) - old(currentCacheBytes) + Bytes(stale)
      ensures entries == [] || !OverLimit(currentCacheBytes, |entries|, byteLength)
    {
      if stale.Some? {
        currentCacheBytes := currentCacheBytes - stale.value;
      }
      LeftAfterReadOk(entries, old(currentCacheBytes), stale, byteLength, currentCacheBytes);
      EvictIfNecessary(byteLength);
    }

    /** The read resumes with the file's bytes: subtract the stale entry, evict, insert. A stale entry that is no
        longer in the cache by then, or that this very eviction removes, is subtracted a second time. */
    method FinishRead(path: string, byteLength: nat, now: int)
      requires Valid() && path in inFlight && !inFlight[path].over
      modifies this
      ensures Valid()
      ensures inFlight == old(inFlight)[path := old(inFlight)[path].(over := true)]
      ensures var read := old(inFlight)[path];
              var left := LeftAfterRead(old(entries), old(currentCacheBytes), read.stale, byteLength);
              && entries == Stored(left, Entry(path, read.mtime, byteLength, now))
              && twiceSubtracted == old(twiceSubtracted) + if Has(left, path) then 0 else Bytes(read.stale)
      ensures (currentCacheBytes <= 52428800 || |entries| == 1) && |entries| <= 50
      ensures |entries| > 1 ==> Sum(entries) <= 52428800 + twiceSubtracted
    {
      var read := inFlight[path];
      MakeRoom(read.stale, byteLength);
      ghost var left := entries;
      AfterRead(old(entries), left, inFlight, Entry(path, read.mtime, byteLength, now));
      entries := Stored(entries, Entry(path, read.mtime, byteLength, now));
      currentCacheBytes := currentCacheBytes + byteLength;
      twiceSubtracted := twiceSubtracted + if Has(left, path) then 0 else Bytes(read.stale);
      inFlight := inFlight[path := read.(over := true)];
    }

    /** The read fails: nothing is subtracted or inserted. */
    method FailRead(path: string)
      requires Valid() && path in inFlight && !inFlight[path].over
      modifies this`inFlight
      ensures Valid() && inFlight == old(inFlight)[path := old(inFlight)[path].(over := true)]
    {
      inFlight := inFlight[path := inFlight[path].(over := true)];
    }

    /** The promise's `finally` */
    method Settle(path: string)
      requires Valid() && path in inFlight && inFlight[path].over
      modifies this`inFlight
      ensures Valid() && inFlight == old(inFlight) - {path}
    {
      inFlight := inFlight - {path};
    }
  }

  lemma EvictOne(entries: seq<Entry>, bytes: int, incoming: nat, rest: seq<Entry>, left: int)
    requires entries != [] && OverLimit(bytes, |entries|, incoming)
    requires rest == RemoveAt(entries, Oldest(entries)) && left == bytes - entries[Oldest(entries)].byteLength
    ensures Evictions(entries, bytes, incoming) == 1 + Evictions(rest, left, incoming)
    ensures Remaining(entries, Evictions(entries, bytes, incoming)) == Remaining(rest, Evictions(rest, left, incoming))
  {
    RemainingOne(entries, Evictions(rest, left, incoming));
  }

  lemma RemainingOne(entries: seq<Entry>, n: nat)
    requires n < |entries|
    ensures Remaining(entries, 1 + n) == Remaining(RemoveAt(entries, Oldest(entries)), n)
  {
  }

  lemma OldestUnique(entries: seq<Entry>, k: nat)
    requires k < |entries| && IsOldest(entries, k)
    ensures k == Oldest(entries)
  {
    OldestIsOldest(entries);
    OnlyOneOldest(entries, k, Oldest(entries));
  }

  lemma OnlyOneOldest(entries: seq<Entry>, k: nat, o: nat)
    requires k < |entries| && IsOldest(entries, k) && o < |entries| && IsOldest(entries, o)
    ensures k == o
  {
    assert k != o ==> Older(entries, k, o);
    assert k != o ==> Older(entries, o, k);
  }

  lemma FindUnique(entries: seq<Entry>, k: nat)
    requires UniquePaths(entries) && k < |entries|
    ensures Find(entries, entries[k].path) == k
  {
  }

  lemma FindReplaced(entries: seq<Entry>, k: nat, e: Entry)
    requires UniquePaths(entries) && k < |entries| && e.path == entries[k].path
    ensures UniquePaths(entries[k := e])
    ensures forall p :: Find(entries[k := e], p) == Find(entries, p)
  {
    assert forall m :: 0 <= m < |entries| ==> entries[k := e][m].path == entries[m].path;
    forall p ensures Find(entries[k := e], p) == Find(entries, p) {
      var i, j := Find(entries[k := e], p), Find(entries, p);
      assert i < |entries| ==> entries[i].path == p;
      assert j < |entries| ==> entries[k := e][j].path == p;
    }
  }

  lemma FindAppended(entries: seq<Entry>, e: Entry)
    requires UniquePaths(entries) && !Has(entries, e.path)
    ensures UniquePaths(entries + [e])
    ensures Find(entries + [e], e.path) == |entries|
    ensures forall p :: p != e.path && Has(entries + [e], p) ==>
                Has(entries, p) && Find(entries + [e], p) == Find(entries, p)
  {
    forall p | p != e.path
      ensures Has(entries + [e], p) ==> Has(entries, p) && Find(entries + [e], p) == Find(entries, p)
    {
      FindOther(entries, e, p);
    }
    var i := Find(entries + [e], e.path);
    assert (entries + [e])[|entries|].path == e.path;
  }

  lemma FindOther(entries: seq<Entry>, e: Entry, p: string)
    requires p != e.path
    ensures Has(entries + [e], p) ==> Has(entries, p) && Find(entries + [e], p) == Find(entries, p)
  {
    var i, j := Find(entries + [e], p), Find(entries, p);
    assert forall m :: 0 <= m < |entries| ==> (entries + [e])[m] == entries[m];
    assert i <= |entries| ==> i < |entries| && entries[i].path == p;
  }

  lemma StoredBytes(entries: seq<Entry>, e: Entry)
    ensures Sum(Stored(entries, e)) == Sum(entries) + e.byteLength
            - if Has(entries, e.path) then entries[Find(entries, e.path)].byteLength else 0
  {
    var k := Find(entries, e.path);
    if k < |entries| {
      SumReplace(entries, k, e);
    } else {
      SumConcat(entries, [e]);
    }
  }

  lemma StoredFind(entries: seq<Entry>, e: Entry)
    requires UniquePaths(entries)
    ensures UniquePaths(Stored(entries, e))
    ensures Has(Stored(entries, e), e.path) && Stored(entries, e)[Find(Stored(entries, e), e.path)] == e
    ensures forall p :: p != e.path && Has(Stored(entries, e), p) ==>
              Has(entries, p) && Stored(entries, e)[Find(Stored(entries, e), p)] == entries[Find(entries, p)]
  {
    var k := Find(entries, e.path);
    if k < |entries| {
      FindReplaced(entries, k, e);
    } else {
      FindAppended(entries, e);
    }
  }

  /** An entry that is still there is the entry that was there. */
  lemma FindSubset(all: seq<Entry>, some: seq<Entry>, path: string)
    requires UniquePaths(all) && (forall e :: e in some ==> e in all) && Has(some, path)
    ensures Has(all, path) && all[Find(all, path)] == some[Find(some, path)]
  {
    var e := some[Find(some, path)];
    assert e in some;
    var k :| 0 <= k < |all| && all[k] == e;
    FindUnique(all, k);
  }

  /** The counter may lag behind: a clear during a reload leaves it 30 MB short, and the cache may then hold that much
      more than its limit. */
  method ClearDuringReload() returns (c: Cache)
    ensures fresh(c) && c.Valid()
    ensures Sum(c.entries) - c.currentCacheBytes == 31457280
  {
    c := new Cache();
    var a := c.Lookup("layer", 1, 1);
    c.FinishRead("layer", 31457280, 2);
    c.Settle("layer");
    a := c.Lookup("layer", 2, 3);
    c.Clear();
    c.FinishRead("layer", 1000, 4);
  }
}
