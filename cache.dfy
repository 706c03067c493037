/**
 * The directory cache as the sync engine saves it: the on-disk form of a
 * snapshot (`CachedFtpItem` lists by remote path), the record kept per
 * repository with its totals, the merge of a partial scan into a saved
 * record, and `BrowseDirectoryAsync`, which answers from the saved record or
 * lists the directory live and merges the answer into the record.
 */
module Cache {
  import opened Text
  import opened Listing
  import opened Planner

  /** `CachedFtpItem`: an entry as the saved record holds it. */
  datatype CachedItem = CachedItem(name: string, fullPath: string, isDirectory: bool, size: int, lastModified: nat)

  /** `DirectoryCache` of a saved record: the cached entries by remote path. */
  type CachedDirectories = map<string, seq<CachedItem>>

  function ToCached(item: Item): CachedItem {
    CachedItem(item.name, item.fullPath, item.isDirectory, item.size, item.lastModified)
  }

  function FromCached(item: CachedItem): Item {
    Item(item.name, item.fullPath, item.isDirectory, item.size, item.lastModified)
  }

  /** `items.Select(item => new CachedFtpItem { … }).ToList()`. */
  function ToCachedList(items: seq<Item>): (r: seq<CachedItem>)
    ensures |r| == |items|
  {
    seq(|items|, i requires 0 <= i < |items| => ToCached(items[i]))
  }

  /** `items.Select(item => new FtpItem { … }).ToList()`. */
  function FromCachedList(items: seq<CachedItem>): (r: seq<Item>)
    ensures |r| == |items|
  {
    seq(|items|, i requires 0 <= i < |items| => FromCached(items[i]))
  }

  /** The saved form of a whole snapshot, path by path. */
  function ToCachedData(cache: Snapshot): CachedDirectories {
    map p | p in cache :: ToCachedList(cache[p])
  }

  /** The snapshot a saved directory cache stands for. */
  function FromCachedData(data: CachedDirectories): Snapshot {
    map p | p in data :: FromCachedList(data[p])
  }

  /** `ConvertCacheToCachedData`: every path of the snapshot, with its entries converted in order. */
  method ConvertCacheToCachedData(cache: Snapshot) returns (result: CachedDirectories)
    ensures result == ToCachedData(cache)
  {
    result := map[];
    var todo := cache.Keys;
    while todo != {}
      invariant todo <= cache.Keys
      invariant result == map p | p in cache.Keys - todo :: ToCachedList(cache[p])
      decreases todo
    {
      var key :| key in todo;
      result := result[key := ToCachedList(cache[key])];
      todo := todo - {key};
    }
  }

  /** `ConvertCachedDataToCache`: every saved path, with its entries converted back in order. */
  method ConvertCachedDataToCache(data: CachedDirectories) returns (cache: Snapshot)
    ensures cache == FromCachedData(data)
  {
    cache := map[];
    var todo := data.Keys;
    while todo != {}
      invariant todo <= data.Keys
      invariant cache == map p | p in data.Keys - todo :: FromCachedList(data[p])
      decreases todo
    {
      var key :| key in todo;
      cache := cache[key := FromCachedList(data[key])];
      todo := todo - {key};
    }
  }

  /** Saving a snapshot and reading it back gives the same paths, the same entries in the same order, field by field. */
  lemma CachedRoundTrip(cache: Snapshot)
    ensures FromCachedData(ToCachedData(cache)) == cache
  {
    forall p | p in cache
      ensures FromCachedList(ToCachedList(cache[p])) == cache[p]
    {
    }
  }

  /** Reading a saved cache and saving it again gives back the saved form. */
  lemma StoredRoundTrip(data: CachedDirectories)
    ensures ToCachedData(FromCachedData(data)) == data
  {
    forall p | p in data
      ensures ToCachedList(FromCachedList(data[p])) == data[p]
    {
    }
  }

  /** `x.Count(i => !i.IsDirectory)`: the entries of a list that are files. */
  function CountFiles(items: seq<CachedItem>): int
    decreases |items|
  {
    if items == [] then 0
    else CountFiles(items[..|items| - 1]) + (if items[|items| - 1].isDirectory then 0 else 1)
  }

  /** `x.Sum(x => x.Size)` over one list. */
  function SumSizes(items: seq<CachedItem>): int
    decreases |items|
  {
    if items == [] then 0 else SumSizes(items[..|items| - 1]) + items[|items| - 1].size
  }

  /** `f` summed over the lists of the paths in `keys`, in any order. */
  ghost function SumOver(data: CachedDirectories, keys: set<string>, f: seq<CachedItem> -> int): int
    requires keys <= data.Keys
    decreases keys
  {
    if keys == {} then 0
    else
      var k :| k in keys;
      f(data[k]) + SumOver(data, keys - {k}, f)
  }

  /** The sum does not depend on which path is taken first. */
  lemma {:induction false} SumOverRemove(data: CachedDirectories, keys: set<string>, f: seq<CachedItem> -> int, k: string)
    requires keys <= data.Keys && k in keys
    ensures SumOver(data, keys, f) == f(data[k]) + SumOver(data, keys - {k}, f)
    decreases keys
  {
    var j :| j in keys && SumOver(data, keys, f) == f(data[j]) + SumOver(data, keys - {j}, f);
    if j != k {
      SumOverRemove(data, keys - {j}, f, k);
      SumOverRemove(data, keys - {k}, f, j);
      assert keys - {j} - {k} == keys - {k} - {j};
    }
  }

  /** The sum over two disjoint sets of paths is the sum of the two sums. */
  lemma {:induction false} SumOverUnion(data: CachedDirectories, a: set<string>, b: set<string>, f: seq<CachedItem> -> int)
    requires a <= data.Keys && b <= data.Keys && a * b == {}
    ensures SumOver(data, a + b, f) == SumOver(data, a, f) + SumOver(data, b, f)
    decreases a
  {
    if a != {} {
      var k :| k in a;
      SumOverRemove(data, a, f, k);
      SumOverRemove(data, a + b, f, k);
      assert (a + b) - {k} == (a - {k}) + b;
      SumOverUnion(data, a - {k}, b, f);
    } else {
      assert a + b == b;
    }
  }

  /** The sum only looks at the lists of the paths summed over. */
  lemma {:induction false} SumOverAgree(d1: CachedDirectories, d2: CachedDirectories, keys: set<string>, f: seq<CachedItem> -> int)
    requires keys <= d1.Keys && keys <= d2.Keys
    requires forall k :: k in keys ==> d1[k] == d2[k]
    ensures SumOver(d1, keys, f) == SumOver(d2, keys, f)
    decreases keys
  {
    if keys != {} {
      var k :| k in keys;
      SumOverRemove(d1, keys, f, k);
      SumOverRemove(d2, keys, f, k);
      SumOverAgree(d1, d2, keys - {k}, f);
    }
  }

  /** `TotalFiles`: the file entries of every cached list. */
  ghost function TotalFiles(data: CachedDirectories): int {
    SumOver(data, data.Keys, CountFiles)
  }

  /** `TotalSizeBytes`: the sizes of every entry of every cached list, directories included. */
  ghost function TotalSize(data: CachedDirectories): int {
    SumOver(data, data.Keys, SumSizes)
  }

  /** A list counts as many files as the planner's walks take from it. */
  lemma {:induction false} CountFilesSpec(items: seq<Item>)
    ensures CountFiles(ToCachedList(items)) == |FilesOf(items)|
    decreases |items|
  {
    if items != [] {
      var init := items[..|items| - 1];
      CountFilesSpec(init);
      assert ToCachedList(items)[..|items| - 1] == ToCachedList(init);
      assert items == init + [items[|items| - 1]];
      WhereSnoc(init, items[|items| - 1], IsFile);
    }
  }

  /** `Where` on a list with one more element. */
  lemma WhereSnoc(items: seq<Item>, x: Item, keep: Item -> bool)
    ensures Where(items + [x], keep) == Where(items, keep) + (if keep(x) then [x] else [])
  {
    assert (items + [x])[..|items|] == items;
  }

  /**
   * The totals of a saved record: `Values.Sum(x => x.Count(i => !i.IsDirectory))`,
   * `Count` and `Values.SelectMany(x => x).Sum(x => x.Size)`, the paths
   * visited in whatever order the dictionary yields them.
   */
  method ComputeTotals(data: CachedDirectories) returns (totalFiles: int, totalDirectories: int, totalSizeBytes: int)
    ensures totalFiles == TotalFiles(data)
    ensures totalDirectories == |data|
    ensures totalSizeBytes == TotalSize(data)
  {
    totalFiles, totalSizeBytes := 0, 0;
    var todo := data.Keys;
    while todo != {}
      invariant todo <= data.Keys
      invariant totalFiles + SumOver(data, todo, CountFiles) == TotalFiles(data)
      invariant totalSizeBytes + SumOver(data, todo, SumSizes) == TotalSize(data)
      decreases todo
    {
      var key :| key in todo;
      SumOverRemove(data, todo, CountFiles, key);
      SumOverRemove(data, todo, SumSizes, key);
      totalFiles := totalFiles + CountFiles(data[key]);
      totalSizeBytes := totalSizeBytes + SumSizes(data[key]);
      todo := todo - {key};
    }
    totalDirectories := |data|;
  }

  /**
   * The merge loop `mergedCache[kvp.Key] = kvp.Value`: every path of the new
   * scan takes its new entries, and every other saved path keeps its own.
   */
  method MergeInto(mergedCache: CachedDirectories, newCacheData: CachedDirectories) returns (result: CachedDirectories)
    ensures result.Keys == mergedCache.Keys + newCacheData.Keys
    ensures forall k :: k in newCacheData ==> result[k] == newCacheData[k]
    ensures forall k :: k in mergedCache && k !in newCacheData ==> result[k] == mergedCache[k]
  {
    result := mergedCache;
    var todo := newCacheData.Keys;
    while todo != {}
      invariant todo <= newCacheData.Keys
      invariant result.Keys == mergedCache.Keys + (newCacheData.Keys - todo)
      invariant forall k :: k in newCacheData && k !in todo ==> result[k] == newCacheData[k]
      invariant forall k :: k in mergedCache && (k !in newCacheData || k in todo) ==> result[k] == mergedCache[k]
      decreases todo
    {
      var key :| key in todo;
      result := result[key := newCacheData[key]];
      todo := todo - {key};
    }
  }

  /** A merge as `MergeInto` describes it is the saved map overridden by the new scan. */
  lemma MergeIsOverride(saved: CachedDirectories, scanned: CachedDirectories, merged: CachedDirectories)
    requires merged.Keys == saved.Keys + scanned.Keys
    requires forall k :: k in scanned ==> merged[k] == scanned[k]
    requires forall k :: k in saved && k !in scanned ==> merged[k] == saved[k]
    ensures merged == saved + scanned
  {
  }

  /**
   * The totals of a merge are those of the paths the new scan left alone
   * plus those of the new scan: an unrelated subtree is neither lost nor
   * counted twice.
   */
  lemma MergedTotals(saved: CachedDirectories, scanned: CachedDirectories, merged: CachedDirectories)
    requires merged.Keys == saved.Keys + scanned.Keys
    requires forall k :: k in scanned ==> merged[k] == scanned[k]
    requires forall k :: k in saved && k !in scanned ==> merged[k] == saved[k]
    ensures TotalFiles(merged) == SumOver(saved, saved.Keys - scanned.Keys, CountFiles) + TotalFiles(scanned)
    ensures TotalSize(merged) == SumOver(saved, saved.Keys - scanned.Keys, SumSizes) + TotalSize(scanned)
    ensures |merged| == |saved.Keys - scanned.Keys| + |scanned|
  {
    var kept := saved.Keys - scanned.Keys;
    assert merged.Keys == kept + scanned.Keys;
    SumOverUnion(merged, kept, scanned.Keys, CountFiles);
    SumOverUnion(merged, kept, scanned.Keys, SumSizes);
    SumOverAgree(merged, saved, kept, CountFiles);
    SumOverAgree(merged, saved, kept, SumSizes);
    SumOverAgree(merged, scanned, scanned.Keys, CountFiles);
    SumOverAgree(merged, scanned, scanned.Keys, SumSizes);
  }

  /** One hour, the lifetime of a saved record, in ticks. */
  const CacheLifetime: nat := 36_000_000_000

  /** `CachedRepositoryData`: the record saved per repository. Times are in ticks. */
  datatype CachedRepositoryData = CachedRepositoryData(
    repositoryId: string,
    repositoryName: string,
    lastScanned: nat,
    expiresAt: nat,
    repositorySnapshot: string,
    directoryCache: CachedDirectories,
    totalFiles: int,
    totalDirectories: int,
    totalSizeBytes: int)

  /** A record has expired once its expiry time is reached. */
  predicate IsExpired(record: CachedRepositoryData, now: nat) {
    record.expiresAt <= now
  }

  /** The totals a record carries are those of its directory cache. */
  ghost predicate Consistent(record: CachedRepositoryData) {
    && record.totalFiles == TotalFiles(record.directoryCache)
    && record.totalDirectories == |record.directoryCache|
    && record.totalSizeBytes == TotalSize(record.directoryCache)
  }

  /** A record written at `now`: scanned now, expiring one lifetime later, with totals computed from its cache. */
  method NewRecord(repositoryId: string, repositoryName: string, snapshot: string, data: CachedDirectories, now: nat)
    returns (record: CachedRepositoryData)
    ensures record.repositoryId == repositoryId && record.repositoryName == repositoryName
    ensures record.repositorySnapshot == snapshot && record.directoryCache == data
    ensures record.lastScanned == now && record.expiresAt == now + CacheLifetime
    ensures Consistent(record) && !IsExpired(record, now)
  {
    var totalFiles, totalDirs, totalSize := ComputeTotals(data);
    record := CachedRepositoryData(repositoryId, repositoryName, now, now + CacheLifetime, snapshot, data,
                                   totalFiles, totalDirs, totalSize);
  }

  /** The saved records, by repository id: what `LoadCache` and `SaveCache` read and write. */
  class CacheStore {
    var records: map<string, CachedRepositoryData>

    /** Every record is filed under its own id and carries its own totals. */
    ghost predicate Valid()
      reads this
    {
      forall id :: id in records ==> records[id].repositoryId == id && Consistent(records[id])
    }

    constructor ()
      ensures records == map[] && Valid()
    {
      records := map[];
    }

    /** `LoadCache(repositoryId)`: the saved record, if any. */
    function Load(repositoryId: string): (r: Option<CachedRepositoryData>)
      reads this
      ensures r.Some? <==> repositoryId in records
      ensures r.Some? ==> r.value == records[repositoryId]
    {
      if repositoryId in records then Some(records[repositoryId]) else None
    }

    /** `SaveCache(record)`: the record replaces any saved under its id. */
    method Save(record: CachedRepositoryData)
      modifies this
      ensures records == old(records)[record.repositoryId := record]
      ensures old(Valid()) && Consistent(record) ==> Valid()
    {
      records := records[record.repositoryId := record];
    }
  }

  /** `FtpBrowseItem`. */
  datatype BrowseItem = BrowseItem(name: string, fullPath: string, isDirectory: bool)

  /** The browse answer from a cached list: its entries other than `.` and `..`, as saved. */
  function CachedBrowseItems(items: seq<CachedItem>): (r: seq<BrowseItem>)
    ensures |r| <= |items|
    decreases |items|
  {
    if items == [] then []
    else
      var last := items[|items| - 1];
      CachedBrowseItems(items[..|items| - 1]) +
        (if IsDots(last.name) then [] else [BrowseItem(last.name, last.fullPath, last.isDirectory)])
  }

  /** The live browse answer: the listed entries other than `.` and `..`, each under `path`. */
  function LiveBrowseItems(path: string, items: seq<Item>): (r: seq<BrowseItem>)
    ensures |r| <= |items|
    decreases |items|
  {
    if items == [] then []
    else
      var last := items[|items| - 1];
      LiveBrowseItems(path, items[..|items| - 1]) +
        (if IsDots(last.name) then [] else [BrowseItem(last.name, ChildPath(path, last.name), last.isDirectory)])
  }

  /** What a live browse saves for `path`: the listed entries other than `.` and `..`, each under `path`. */
  function BrowsedList(path: string, items: seq<Item>): (r: seq<CachedItem>)
    ensures |r| <= |items|
    decreases |items|
  {
    if items == [] then []
    else
      var last := items[|items| - 1];
      BrowsedList(path, items[..|items| - 1]) +
        (if IsDots(last.name) then []
         else [CachedItem(last.name, ChildPath(path, last.name), last.isDirectory, last.size, last.lastModified)])
  }

  /** Answering from what a live browse saved gives the live answer again. */
  lemma {:induction false} BrowsedListAnswers(path: string, items: seq<Item>)
    ensures CachedBrowseItems(BrowsedList(path, items)) == LiveBrowseItems(path, items)
    decreases |items|
  {
    if items != [] {
      var init := items[..|items| - 1];
      BrowsedListAnswers(path, init);
      var saved := BrowsedList(path, items);
      var last := items[|items| - 1];
      if IsDots(last.name) {
        assert saved == BrowsedList(path, init);
      } else {
        assert saved[..|saved| - 1] == BrowsedList(path, init);
      }
    }
  }

  /** Neither answer nor saved list holds `.` or `..`. */
  lemma {:induction false} BrowseHidesDots(path: string, items: seq<Item>, cached: seq<CachedItem>)
    ensures forall k :: 0 <= k < |LiveBrowseItems(path, items)| ==> !IsDots(LiveBrowseItems(path, items)[k].name)
    ensures forall k :: 0 <= k < |CachedBrowseItems(cached)| ==> !IsDots(CachedBrowseItems(cached)[k].name)
    ensures forall k :: 0 <= k < |BrowsedList(path, items)| ==> !IsDots(BrowsedList(path, items)[k].name)
    decreases |items| + |cached|
  {
    if items != [] {
      BrowseHidesDots(path, items[..|items| - 1], cached);
    }
    if cached != [] {
      BrowseHidesDots(path, items, cached[..|cached| - 1]);
    }
  }

  /** The browse loop over a cached list. */
  method BrowseFromCache(cachedItems: seq<CachedItem>) returns (items: seq<BrowseItem>)
    ensures items == CachedBrowseItems(cachedItems)
  {
    items := [];
    var i := 0;
    while i < |cachedItems|
      invariant 0 <= i <= |cachedItems|
      invariant items == CachedBrowseItems(cachedItems[..i])
    {
      var cachedItem := cachedItems[i];
      assert cachedItems[..i + 1][..i] == cachedItems[..i];
      if !IsDots(cachedItem.name) {
        items := items + [BrowseItem(cachedItem.name, cachedItem.fullPath, cachedItem.isDirectory)];
      }
      i := i + 1;
    }
    assert cachedItems[..i] == cachedItems;
  }

  /** The browse loop over a live listing. */
  method BrowseLive(path: string, ftpItems: seq<Item>) returns (items: seq<BrowseItem>)
    ensures items == LiveBrowseItems(path, ftpItems)
  {
    items := [];
    var i := 0;
    while i < |ftpItems|
      invariant 0 <= i <= |ftpItems|
      invariant items == LiveBrowseItems(path, ftpItems[..i])
    {
      var item := ftpItems[i];
      assert ftpItems[..i + 1][..i] == ftpItems[..i];
      if !IsDots(item.name) {
        var fullPath := ChildPath(path, item.name);
        items := items + [BrowseItem(item.name, fullPath, item.isDirectory)];
      }
      i := i + 1;
    }
    assert ftpItems[..i] == ftpItems;
  }

  /** A browse of `path` is answered from the saved record of `repositoryId`. */
  predicate BrowseHit(records: map<string, CachedRepositoryData>, repositoryId: string, path: string, now: nat) {
    && repositoryId != ""
    && repositoryId in records
    && !IsExpired(records[repositoryId], now)
    && path in records[repositoryId].directoryCache
  }

  /** The record a live browse merges into: the saved one while it has not expired. */
  predicate MergesIntoSaved(records: map<string, CachedRepositoryData>, repositoryId: string, now: nat) {
    repositoryId in records && !IsExpired(records[repositoryId], now)
  }

  /**
   * `BrowseDirectoryAsync`: an empty `repositoryId` stands for none.
   * `snapshot` is the fingerprint (the SHA-256 of host, port and user) a
   * new record gets, and `now` the clock.
   */
  method BrowseDirectory(store: CacheStore, remote: Remote, parsers: Parsers, path: string, repositoryId: string,
                         snapshot: string, now: nat)
    returns (items: seq<BrowseItem>)
    modifies store
    ensures BrowseHit(old(store.records), repositoryId, path, now) ==>
      && items == CachedBrowseItems(old(store.records)[repositoryId].directoryCache[path])
      && store.records == old(store.records)
    ensures !BrowseHit(old(store.records), repositoryId, path, now) ==>
      items == LiveBrowseItems(path, LegacyListing(remote, parsers, path))
    ensures !BrowseHit(old(store.records), repositoryId, path, now) && repositoryId == "" ==>
      store.records == old(store.records)
    ensures !BrowseHit(old(store.records), repositoryId, path, now) && repositoryId != "" ==>
      && repositoryId in store.records
      && store.records == old(store.records)[repositoryId := store.records[repositoryId]]
      && var saved := old(store.records);
         var record := store.records[repositoryId];
         var merged := MergesIntoSaved(saved, repositoryId, now);
         && record.directoryCache ==
              (if merged then saved[repositoryId].directoryCache else map[])[path := BrowsedList(path, LegacyListing(remote, parsers, path))]
         && record.repositoryName == (if merged then saved[repositoryId].repositoryName else "Repository_" + repositoryId)
         && record.repositorySnapshot == (if merged then saved[repositoryId].repositorySnapshot else snapshot)
         && record.repositoryId == repositoryId
         && record.lastScanned == now && record.expiresAt == now + CacheLifetime
         && Consistent(record)
    ensures old(store.Valid()) ==> store.Valid()
  {
    if repositoryId != "" {
      var cachedData := store.Load(repositoryId);
      if cachedData.Some? && !IsExpired(cachedData.value, now) {
        if path in cachedData.value.directoryCache {
          items := BrowseFromCache(cachedData.value.directoryCache[path]);
          return;
        }
      }
    }
    var ftpItems := GetDirectoryListing(remote, parsers, path);
    items := BrowseLive(path, ftpItems);
    if repositoryId != "" {
      var existingCache := store.Load(repositoryId);
      var cacheDict: CachedDirectories;
      var repositoryName: string;
      var snapshotOf: string;
      if existingCache.Some? && !IsExpired(existingCache.value, now) {
        cacheDict := existingCache.value.directoryCache;
        repositoryName := existingCache.value.repositoryName;
        snapshotOf := existingCache.value.repositorySnapshot;
      } else {
        cacheDict := map[];
        repositoryName := "Repository_" + repositoryId;
        snapshotOf := snapshot;
      }
      cacheDict := cacheDict[path := BrowsedList(path, ftpItems)];
      var cacheData := NewRecord(repositoryId, repositoryName, snapshotOf, cacheDict, now);
      store.Save(cacheData);
    }
  }

  /**
   * Browsing the same path again before the record expires is answered from
   * the record, with the answer of the live browse.
   */
  lemma BrowseAgainHits(after: map<string, CachedRepositoryData>,
                        remote: Remote, parsers: Parsers, path: string, repositoryId: string, now: nat, later: nat)
    requires repositoryId != "" && repositoryId in after
    requires path in after[repositoryId].directoryCache
    requires after[repositoryId].directoryCache[path] == BrowsedList(path, LegacyListing(remote, parsers, path))
    requires after[repositoryId].expiresAt == now + CacheLifetime && now <= later < now + CacheLifetime
    ensures BrowseHit(after, repositoryId, path, later)
    ensures CachedBrowseItems(after[repositoryId].directoryCache[path]) == LiveBrowseItems(path, LegacyListing(remote, parsers, path))
  {
    BrowsedListAnswers(path, LegacyListing(remote, parsers, path));
  }
}
