/**
 * Where a sync gets its snapshot from: `BuildAndSaveCache` and the cache
 * choice of `DownloadRepositoryAsync`, and the cache choice of
 * `DownloadFolderAsync`, which reuses a saved record, or scans the folder
 * and merges the scan into the record, or scans it afresh.
 */
module Folder {
  import opened Text
  import opened Listing
  import opened Scanner
  import opened Planner
  import opened Local
  import opened Orphans
  import opened Sync
  import opened Cache
  import opened Cancellation

  /** The record saved for `repositoryId` after a scan: its cache is the scan's, merged into `base` when given. */
  ghost predicate SavedScan(record: CachedRepositoryData, repositoryId: string, repositoryName: string, snapshot: string,
                            base: CachedDirectories, cache: Snapshot, now: nat) {
    && record.repositoryId == repositoryId
    && record.repositoryName == repositoryName
    && record.repositorySnapshot == snapshot
    && record.directoryCache == base + ToCachedData(cache)
    && record.lastScanned == now && record.expiresAt == now + CacheLifetime
    && Consistent(record)
  }

  /**
   * `BuildAndSaveCache`: the whole repository is scanned from `/` and saved
   * as its record, `snapshot` being the repository's fingerprint. A scan
   * cancelled through `token` throws before anything is saved.
   */
  method BuildAndSaveCache(store: CacheStore, listing: string -> seq<Item>, ghost answered: set<string>,
                           repositoryId: string, repositoryName: string, snapshot: string, token: Token, now: nat)
    returns (cache: Snapshot, cancelled: bool)
    requires Bounded(listing, answered)
    modifies store
    ensures Fires(token) ==> cancelled
    ensures token.Never? ==> !cancelled
    ensures cancelled ==> store.records == old(store.records)
    ensures !cancelled ==> "/" in cache && Listed(listing, cache) && ClosedSet(listing, cache.Keys)
    ensures !cancelled ==> repositoryId in store.records
    ensures !cancelled ==> store.records == old(store.records)[repositoryId := store.records[repositoryId]]
    ensures !cancelled ==> SavedScan(store.records[repositoryId], repositoryId, repositoryName, snapshot, map[], cache, now)
    ensures old(store.Valid()) ==> store.Valid()
  {
    ghost var scanned;
    var rest;
    cache, scanned, cancelled, rest := BuildDirectoryCache(listing, answered, "/", token);
    if cancelled {
      return;
    }
    var data := ConvertCacheToCachedData(cache);
    assert map[] + data == data;
    var cachedData := NewRecord(repositoryId, repositoryName, snapshot, data, now);
    store.Save(cachedData);
  }

  /**
   * The cache choice of `DownloadRepositoryAsync`: the saved record when it
   * is valid for the repository (`validForRepository`, the answer of
   * `IsValidForRepository`) and no refresh is forced; a new scan, saved,
   * otherwise, unless `token` cancels it.
   */
  method ChooseRepositoryCache(store: CacheStore, listing: string -> seq<Item>, ghost answered: set<string>,
                               repositoryId: string, repositoryName: string, snapshot: string,
                               validForRepository: bool, forceRefresh: bool, token: Token, now: nat)
    returns (cache: Snapshot, cancelled: bool)
    requires Bounded(listing, answered)
    modifies store
    ensures !forceRefresh && repositoryId in old(store.records) && validForRepository ==>
      && !cancelled
      && cache == FromCachedData(old(store.records)[repositoryId].directoryCache)
      && store.records == old(store.records)
    ensures cancelled ==> store.records == old(store.records)
    ensures token.Never? ==> !cancelled
    ensures !(!forceRefresh && repositoryId in old(store.records) && validForRepository) ==> (Fires(token) ==> cancelled)
    ensures !(!forceRefresh && repositoryId in old(store.records) && validForRepository) && !cancelled ==>
      && "/" in cache && Listed(listing, cache) && ClosedSet(listing, cache.Keys)
      && repositoryId in store.records
      && store.records == old(store.records)[repositoryId := store.records[repositoryId]]
      && SavedScan(store.records[repositoryId], repositoryId, repositoryName, snapshot, map[], cache, now)
    ensures old(store.Valid()) ==> store.Valid()
  {
    if !forceRefresh {
      var cachedData := store.Load(repositoryId);
      if cachedData.Some? && validForRepository {
        cache := ConvertCachedDataToCache(cachedData.value.directoryCache);
        cancelled := false;
        return;
      }
    }
    cache, cancelled := BuildAndSaveCache(store, listing, answered, repositoryId, repositoryName, snapshot, token, now);
  }

  /**
   * The test `DownloadFolderAsync` applies before reusing a saved record: a
   * repository id is given, its record has not expired, and the record holds
   * the requested path.
   */
  predicate ReusesCacheAsWritten(records: map<string, CachedRepositoryData>, repositoryId: string, remotePath: string,
                                 now: nat) {
    && repositoryId != ""
    && repositoryId in records
    && !IsExpired(records[repositoryId], now)
    && remotePath in records[repositoryId].directoryCache
  }

  /**
   * The test corrected: the record must also hold the listing of every
   * subdirectory it names, so that the walks below the requested path never
   * run off the cache.
   */
  predicate ReusesCache(records: map<string, CachedRepositoryData>, repositoryId: string, remotePath: string, now: nat) {
    && ReusesCacheAsWritten(records, repositoryId, remotePath, now)
    && Closed(FromCachedData(records[repositoryId].directoryCache))
  }

  /**
   * The cache choice of `DownloadFolderAsync`, with the corrected test: a
   * reusable record is used as it is; otherwise the folder is scanned, and
   * with a repository id the scan is saved, merged into the record while it
   * has not expired, or as a new record named `Unknown` with no fingerprint.
   * `token` is checked first, then by the scan and once more after it; a
   * check that fires throws and nothing is saved.
   */
  method ChooseFolderCache(store: CacheStore, listing: string -> seq<Item>, ghost answered: set<string>,
                           repositoryId: string, remotePath: string, token: Token, now: nat)
    returns (cache: Snapshot, cancelled: bool)
    requires Bounded(listing, answered)
    modifies store
    ensures Fires(token) ==> cancelled
    ensures token.Never? ==> !cancelled
    ensures cancelled ==> store.records == old(store.records)
    ensures ReusesCache(old(store.records), repositoryId, remotePath, now) && !Fires(token) ==>
      && !cancelled
      && cache == FromCachedData(old(store.records)[repositoryId].directoryCache)
      && store.records == old(store.records)
    ensures !ReusesCache(old(store.records), repositoryId, remotePath, now) && !cancelled ==>
      remotePath in cache && Listed(listing, cache) && ClosedSet(listing, cache.Keys)
    ensures !ReusesCache(old(store.records), repositoryId, remotePath, now) && repositoryId == "" ==>
      store.records == old(store.records)
    ensures !ReusesCache(old(store.records), repositoryId, remotePath, now) && repositoryId != "" && !cancelled ==>
      && repositoryId in store.records
      && store.records == old(store.records)[repositoryId := store.records[repositoryId]]
      && var saved := old(store.records);
         if MergesIntoSaved(saved, repositoryId, now) then
           SavedScan(store.records[repositoryId], repositoryId, saved[repositoryId].repositoryName,
                     saved[repositoryId].repositorySnapshot, saved[repositoryId].directoryCache, cache, now)
         else
           SavedScan(store.records[repositoryId], repositoryId, "Unknown", "", map[], cache, now)
    ensures old(store.Valid()) ==> store.Valid()
  {
    if Fires(token) {
      cache, cancelled := map[], true;
      return;
    }
    var rest := Tick(token);
    if repositoryId != "" {
      var existingCache := store.Load(repositoryId);
      if existingCache.Some? && !IsExpired(existingCache.value, now) {
        var existing := existingCache.value;
        var closed := IsClosed(existing.directoryCache);
        if remotePath in existing.directoryCache && closed {
          cache := ConvertCachedDataToCache(existing.directoryCache);
          cancelled := false;
          return;
        }
        cache, cancelled := RescanAndMerge(store, listing, answered, existing, repositoryId, remotePath, rest, now);
      } else {
        cache, cancelled := ScanAndSaveNew(store, listing, answered, repositoryId, remotePath, rest, now);
      }
    } else {
      ghost var scanned;
      cache, scanned, cancelled, rest := BuildDirectoryCache(listing, answered, remotePath, rest);
      cancelled := cancelled || Fires(rest);
    }
  }

  /**
   * The folder is scanned and the scan merged into the unexpired record
   * `existing`; a cancellation during the scan, or seen just after it,
   * throws before the merge.
   */
  method RescanAndMerge(store: CacheStore, listing: string -> seq<Item>, ghost answered: set<string>,
                        existing: CachedRepositoryData, repositoryId: string, remotePath: string, token: Token, now: nat)
    returns (cache: Snapshot, cancelled: bool)
    requires Bounded(listing, answered)
    modifies store
    ensures Fires(token) ==> cancelled
    ensures token.Never? ==> !cancelled
    ensures cancelled ==> store.records == old(store.records)
    ensures !cancelled ==> remotePath in cache && Listed(listing, cache) && ClosedSet(listing, cache.Keys)
    ensures !cancelled ==> repositoryId in store.records
    ensures !cancelled ==> store.records == old(store.records)[repositoryId := store.records[repositoryId]]
    ensures !cancelled ==> SavedScan(store.records[repositoryId], repositoryId, existing.repositoryName,
                                     existing.repositorySnapshot, existing.directoryCache, cache, now)
    ensures old(store.Valid()) ==> store.Valid()
  {
    ghost var scanned;
    var rest;
    cache, scanned, cancelled, rest := BuildDirectoryCache(listing, answered, remotePath, token);
    if cancelled || Fires(rest) {
      cancelled := true;
      return;
    }
    var newCacheData := ConvertCacheToCachedData(cache);
    var mergedCache := MergeInto(existing.directoryCache, newCacheData);
    MergeIsOverride(existing.directoryCache, newCacheData, mergedCache);
    var cachedData := NewRecord(repositoryId, existing.repositoryName, existing.repositorySnapshot, mergedCache, now);
    store.Save(cachedData);
  }

  /**
   * The folder is scanned and saved as a new record named `Unknown`, with no
   * fingerprint; a cancellation during the scan, or seen just after it,
   * throws before the save.
   */
  method ScanAndSaveNew(store: CacheStore, listing: string -> seq<Item>, ghost answered: set<string>,
                        repositoryId: string, remotePath: string, token: Token, now: nat)
    returns (cache: Snapshot, cancelled: bool)
    requires Bounded(listing, answered)
    modifies store
    ensures Fires(token) ==> cancelled
    ensures token.Never? ==> !cancelled
    ensures cancelled ==> store.records == old(store.records)
    ensures !cancelled ==> remotePath in cache && Listed(listing, cache) && ClosedSet(listing, cache.Keys)
    ensures !cancelled ==> repositoryId in store.records
    ensures !cancelled ==> store.records == old(store.records)[repositoryId := store.records[repositoryId]]
    ensures !cancelled ==> SavedScan(store.records[repositoryId], repositoryId, "Unknown", "", map[], cache, now)
    ensures old(store.Valid()) ==> store.Valid()
  {
    ghost var scanned;
    var rest;
    cache, scanned, cancelled, rest := BuildDirectoryCache(listing, answered, remotePath, token);
    if cancelled || Fires(rest) {
      cancelled := true;
      return;
    }
    var newCacheData := ConvertCacheToCachedData(cache);
    assert map[] + newCacheData == newCacheData;
    var cachedData := NewRecord(repositoryId, "Unknown", "", newCacheData, now);
    store.Save(cachedData);
  }

  /** Whether every subdirectory named in a saved cache has its own listing there. */
  method IsClosed(data: CachedDirectories) returns (closed: bool)
    ensures closed == Closed(FromCachedData(data))
  {
    var snapshot := ConvertCachedDataToCache(data);
    closed := true;
    var todo := snapshot.Keys;
    while todo != {}
      invariant todo <= snapshot.Keys
      invariant closed == forall p, i :: p in snapshot.Keys - todo && 0 <= i < |SubdirsOf(snapshot[p])| ==>
                                         SubdirsOf(snapshot[p])[i].fullPath in snapshot
      decreases todo
    {
      var path :| path in todo;
      var subdirs := SubdirsOf(snapshot[path]);
      var i := 0;
      var inside := true;
      while i < |subdirs|
        invariant 0 <= i <= |subdirs|
        invariant inside == forall j :: 0 <= j < i ==> subdirs[j].fullPath in snapshot
      {
        inside := inside && subdirs[i].fullPath in snapshot;
        i := i + 1;
      }
      closed := closed && inside;
      todo := todo - {path};
    }
  }

  /**
   * With the corrected test, a reused record plans the same sync as a new
   * scan of the folder would, as long as the server still lists the cached
   * paths as cached: the same files to the same local paths, and the same
   * expected directories.
   */
  lemma ReusedCachePlansLikeAScan(records: map<string, CachedRepositoryData>, repositoryId: string, remotePath: string,
                                  now: nat, listing: string -> seq<Item>, scan: Snapshot,
                                  r1: map<string, nat>, r2: map<string, nat>, dest: LocalPath)
    requires ReusesCache(records, repositoryId, remotePath, now)
    requires Listed(listing, FromCachedData(records[repositoryId].directoryCache))
    requires remotePath in scan && Listed(listing, scan) && ClosedSet(listing, scan.Keys)
    requires Ranked(FromCachedData(records[repositoryId].directoryCache), r1) && Ranked(scan, r2)
    ensures var saved := FromCachedData(records[repositoryId].directoryCache);
      && Collected(saved, r1, remotePath, dest) == Collected(scan, r2, remotePath, dest)
      && ExpectedDirs(saved, r1, remotePath, dest) == ExpectedDirs(scan, r2, remotePath, dest)
  {
    var saved := FromCachedData(records[repositoryId].directoryCache);
    ScanClosed(listing, scan);
    CollectedAgree(saved, r1, scan, r2, remotePath, dest);
  }

  /** A mod folder with one subdirectory holding one file. */
  const ModsPath: string := "/mods"
  const CbaPath: string := "/mods/@cba"
  const CbaFolder: Item := Item("@cba", CbaPath, true, 0, Unknown)
  const CbaFile: Item := Item("cba.pbo", "/mods/@cba/cba.pbo", false, 10, Unknown)

  /** What a browse of `/mods` caches: its listing and nothing below it. */
  const Browsed: Snapshot := map[ModsPath := [CbaFolder]]

  /** What a scan of `/mods` caches. */
  const Scanned: Snapshot := map[ModsPath := [CbaFolder], CbaPath := [CbaFile]]

  /** The record a browse of `/mods` for repository `r1` leaves at time 0. */
  const BrowsedRecords: map<string, CachedRepositoryData> :=
    map["r1" := CachedRepositoryData("r1", "Repository_r1", 0, CacheLifetime, "", ToCachedData(Browsed), 0, 1, 0)]

  /** The local mirror: `C:/Arma 3/@cba/cba.pbo`, up to date. */
  const Dest: LocalPath := ["C:", "Arma 3"]
  const Pbo: LocalPath := ["C:", "Arma 3", "@cba", "cba.pbo"]
  const Mirror: Disk := Disk(map[Pbo := LocalFile(10, 5)], {["C:"], Dest, Dest + ["@cba"]})

  /** The test as written takes the browsed record; the corrected test does not, since `/mods/@cba` is missing. */
  lemma BrowsedRecordReused()
    ensures ReusesCacheAsWritten(BrowsedRecords, "r1", ModsPath, 0)
    ensures FromCachedData(BrowsedRecords["r1"].directoryCache) == Browsed
    ensures !ReusesCache(BrowsedRecords, "r1", ModsPath, 0)
  {
    CachedRoundTrip(Browsed);
    assert SubdirsOf([CbaFolder]) == [CbaFolder];
    assert SubdirsOf(Browsed[ModsPath])[0].fullPath !in Browsed;
  }

  /** The walks over the browsed record collect nothing, since `/mods/@cba` has no listing there. */
  lemma BrowsedCollectsNothing()
    ensures Ranked(Browsed, map[ModsPath := 0])
    ensures Collected(Browsed, map[ModsPath := 0], ModsPath, Dest) == []
  {
    var rank := map[ModsPath := 0];
    assert SubdirsOf([CbaFolder]) == [CbaFolder];
    assert FilesOf([CbaFolder]) == [];
    assert Ranked(Browsed, rank);
    assert CollectedUnder(Browsed, rank, ModsPath, 1, Dest) == [];
  }

  /** The walks over the scan of `/mods` collect the file below `@cba`. */
  lemma ScannedCollectsFile()
    ensures Ranked(Scanned, map[ModsPath := 1, CbaPath := 0])
    ensures Collected(Scanned, map[ModsPath := 1, CbaPath := 0], ModsPath, Dest) == [(CbaFile, Pbo)]
  {
    var rank := map[ModsPath := 1, CbaPath := 0];
    assert SubdirsOf([CbaFolder]) == [CbaFolder];
    assert FilesOf([CbaFolder]) == [];
    assert SubdirsOf([CbaFile]) == [];
    assert FilesOf([CbaFile]) == [CbaFile];
    assert Ranked(Scanned, rank);
    assert Child(Child(Dest, "@cba"), "cba.pbo") == Pbo;
    assert FileTargets([CbaFile], Child(Dest, "@cba")) == [(CbaFile, Pbo)] by {
      assert [CbaFile][..0] == [];
    }
    assert Collected(Scanned, rank, CbaPath, Child(Dest, "@cba")) == [(CbaFile, Pbo)];
    assert CollectedUnder(Scanned, rank, ModsPath, 1, Dest) == [(CbaFile, Pbo)];
  }

  /** The local mirror is a well-formed disk on which the file is up to date. */
  lemma MirrorUpToDate()
    ensures Valid(Mirror) && !ShouldDownloadFile(Mirror, Pbo, CbaFile.size)
  {
    assert Pbo[..1] == ["C:"] && Pbo[..2] == Dest && Pbo[..3] == Dest + ["@cba"];
    assert (Dest + ["@cba"])[..1] == ["C:"] && (Dest + ["@cba"])[..2] == Dest && Dest[..1] == ["C:"];
  }

  /**
   * The test as written reuses a record left by a browse of `/mods`. The
   * walks then stop at `/mods/@cba`, which the record does not hold, so
   * nothing is collected below it and the orphan scan deletes the local
   * copy of `cba.pbo` although it is up to date. The corrected test refuses
   * the record; a scan of the folder collects the file, which the orphan
   * scan then keeps.
   */
  lemma AsWrittenDeletesUpToDateFile(dirs: set<LocalPath>)
    ensures ReusesCacheAsWritten(BrowsedRecords, "r1", ModsPath, 0) && !ReusesCache(BrowsedRecords, "r1", ModsPath, 0)
    ensures Valid(Mirror) && !ShouldDownloadFile(Mirror, Pbo, CbaFile.size)
    ensures var browsed := FromCachedData(BrowsedRecords["r1"].directoryCache);
      var rank := map[ModsPath := 0];
      && Ranked(browsed, rank)
      && Pbo !in AfterOrphanScan(Mirror, Dest, Collected(browsed, rank, ModsPath, Dest), dirs, {}).files
    ensures var rank := map[ModsPath := 1, CbaPath := 0];
      && Ranked(Scanned, rank)
      && Pbo in AfterOrphanScan(Mirror, Dest, Collected(Scanned, rank, ModsPath, Dest), dirs, {}).files
  {
    BrowsedRecordReused();
    BrowsedCollectsNothing();
    ScannedCollectsFile();
    MirrorUpToDate();
    assert Orphan(Dest, Keys([]), {}, Pbo);
    CollectedFileSurvives(Mirror, Dest, [(CbaFile, Pbo)], dirs, {}, 0);
  }
}
