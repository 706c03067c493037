/**
 * Planning a sync from a directory cache: `CollectFilesToDownload` pairs
 * every remote file below a path with the local path it mirrors to,
 * `ShouldDownloadFile` decides which of them to fetch, and
 * `BuildExpectedFileSet` gathers the local files and directories the mirror
 * should hold, which the orphan scan keeps.
 *
 * The source recurses through the cache without any guard against a
 * subdirectory entry that leads back to a path above it. The walks here are
 * defined for caches ranked by a ghost `rank` map that strictly decreases
 * from a directory to each of its cached subdirectories.
 */
module Planner {
  import opened Text
  import opened Listing
  import opened Scanner
  import opened Local

  /** The directory cache: each scanned remote path mapped to its listing. */
  type Snapshot = map<string, seq<Item>>

  /** A remote file paired with the local path it mirrors to. */
  type Target = (Item, LocalPath)

  /** `items.Where(keep)`, in order. */
  function Where(items: seq<Item>, keep: Item -> bool): (r: seq<Item>)
    ensures |r| <= |items|
    decreases |items|
  {
    if items == [] then []
    else
      var last := items[|items| - 1];
      Where(items[..|items| - 1], keep) + (if keep(last) then [last] else [])
  }

  /** The filter keeps exactly the entries that pass it. */
  lemma {:induction false} WhereSpec(items: seq<Item>, keep: Item -> bool)
    ensures forall x :: x in Where(items, keep) <==> x in items && keep(x)
    decreases |items|
  {
    if items != [] {
      var init := items[..|items| - 1];
      WhereSpec(init, keep);
      assert items == init + [items[|items| - 1]];
    }
  }

  predicate IsFile(item: Item) {
    !item.isDirectory
  }

  /** `files` in the walks: the entries that are not directories. */
  function FilesOf(items: seq<Item>): seq<Item> {
    Where(items, IsFile)
  }

  /** `subdirectories` in the walks: the directories other than `.` and `..`. */
  function SubdirsOf(items: seq<Item>): seq<Item> {
    Where(items, IsSubdir)
  }

  /**
   * `rank` strictly decreases from every cached directory to each of its
   * cached subdirectories, so the walks below reach every cached path in
   * finitely many steps.
   */
  ghost predicate Ranked(cache: Snapshot, rank: map<string, nat>) {
    && cache.Keys <= rank.Keys
    && forall p, i :: p in cache && 0 <= i < |SubdirsOf(cache[p])| && SubdirsOf(cache[p])[i].fullPath in cache
         ==> rank[SubdirsOf(cache[p])[i].fullPath] < rank[p]
  }

  ghost function Height(cache: Snapshot, rank: map<string, nat>, p: string): nat {
    if p in cache && p in rank then rank[p] + 1 else 0
  }

  /**
   * Every name the cache lists is a plain name, which `Path.Combine` appends
   * as one new segment (`Local.PlainChild`).
   */
  predicate PlainNames(cache: Snapshot) {
    forall p, x :: p in cache && x in cache[p] ==> PlainName(x.name)
  }

  /** `path` lies beneath `dest`, and every segment below `dest` is a plain name. */
  predicate Inside(dest: LocalPath, path: LocalPath) {
    Beneath(dest, path) && forall j :: |dest| <= j < |path| ==> PlainName(path[j])
  }

  /** Each file paired with its local path under `dest`, in order. */
  function FileTargets(files: seq<Item>, dest: LocalPath): (r: seq<Target>)
    ensures |r| == |files|
    decreases |files|
  {
    if files == [] then []
    else
      var last := files[|files| - 1];
      FileTargets(files[..|files| - 1], dest) + [(last, Child(dest, last.name))]
  }

  /**
   * What `CollectFilesToDownload(cache, current, dest)` adds to its bag: the
   * files of `current`, each under `dest`, then for each subdirectory what
   * the walk collects from its full path under `dest` plus its name. A path
   * the cache does not hold contributes nothing.
   */
  ghost function Collected(cache: Snapshot, rank: map<string, nat>, current: string, dest: LocalPath): seq<Target>
    requires Ranked(cache, rank)
    decreases Height(cache, rank, current), 1, 0
  {
    if current !in cache then []
    else
      var items := cache[current];
      FileTargets(FilesOf(items), dest) + CollectedUnder(cache, rank, current, |SubdirsOf(items)|, dest)
  }

  /** What the walk collects from the first `n` subdirectories of `parent`. */
  ghost function CollectedUnder(cache: Snapshot, rank: map<string, nat>, parent: string, n: nat, dest: LocalPath): seq<Target>
    requires Ranked(cache, rank) && parent in cache && n <= |SubdirsOf(cache[parent])|
    decreases Height(cache, rank, parent), 0, n
  {
    if n == 0 then []
    else
      var d := SubdirsOf(cache[parent])[n - 1];
      CollectedUnder(cache, rank, parent, n - 1, dest) + Collected(cache, rank, d.fullPath, Child(dest, d.name))
  }

  /**
   * `CollectFilesToDownload`: adds to `bag` every file the walk from
   * `currentPath` collects, each paired with its local path.
   */
  method CollectFilesToDownload(cache: Snapshot, ghost rank: map<string, nat>, currentPath: string,
                                destinationPath: LocalPath, bag: seq<Target>)
    returns (filled: seq<Target>)
    requires Ranked(cache, rank) && PlainNames(cache)
    ensures filled == bag + Collected(cache, rank, currentPath, destinationPath)
    decreases Height(cache, rank, currentPath)
  {
    if currentPath !in cache {
      return bag;
    }
    var items := cache[currentPath];
    var subdirectories := SubdirsOf(items);
    var files := FilesOf(items);
    var own := PairFiles(files, destinationPath);
    filled := bag + own;
    ghost var head := filled;
    var j := 0;
    while j < |subdirectories|
      invariant 0 <= j <= |subdirectories|
      invariant filled == head + CollectedUnder(cache, rank, currentPath, j, destinationPath)
    {
      var dir := subdirectories[j];
      ghost var before := filled;
      ChildHeight(cache, rank, currentPath, j);
      filled := CollectFilesToDownload(cache, rank, dir.fullPath, Child(destinationPath, dir.name), filled);
      CollectStep(cache, rank, currentPath, j, dir, destinationPath, head, before, filled);
      j := j + 1;
    }
    CollectFinish(cache, rank, currentPath, destinationPath, bag, head, filled);
  }

  /** After the subdirectory loop, the bag holds the directory's own files followed by the walks below it. */
  lemma CollectFinish(cache: Snapshot, rank: map<string, nat>, current: string, dest: LocalPath,
                      bag: seq<Target>, head: seq<Target>, filled: seq<Target>)
    requires Ranked(cache, rank) && current in cache
    requires head == bag + FileTargets(FilesOf(cache[current]), dest)
    requires filled == head + CollectedUnder(cache, rank, current, |SubdirsOf(cache[current])|, dest)
    ensures filled == bag + Collected(cache, rank, current, dest)
  {
    var own := FileTargets(FilesOf(cache[current]), dest);
    var under := CollectedUnder(cache, rank, current, |SubdirsOf(cache[current])|, dest);
    assert bag + own + under == bag + (own + under);
  }

  /** One round of the subdirectory loop of `CollectFilesToDownload` keeps its invariant. */
  lemma CollectStep(cache: Snapshot, rank: map<string, nat>, parent: string, j: nat, d: Item, dest: LocalPath,
                    head: seq<Target>, bag: seq<Target>, bag': seq<Target>)
    requires Ranked(cache, rank) && parent in cache && j < |SubdirsOf(cache[parent])|
    requires d == SubdirsOf(cache[parent])[j]
    requires bag == head + CollectedUnder(cache, rank, parent, j, dest)
    requires bag' == bag + Collected(cache, rank, d.fullPath, Child(dest, d.name))
    ensures bag' == head + CollectedUnder(cache, rank, parent, j + 1, dest)
  {
    var under := CollectedUnder(cache, rank, parent, j, dest);
    var below := Collected(cache, rank, d.fullPath, Child(dest, d.name));
    UnderNext(cache, rank, parent, j, dest);
    assert head + under + below == head + (under + below);
  }

  lemma FileTargetsNext(files: seq<Item>, i: nat, dest: LocalPath)
    requires i < |files|
    ensures FileTargets(files[..i + 1], dest) == FileTargets(files[..i], dest) + [(files[i], Child(dest, files[i].name))]
  {
    assert files[..i + 1][..i] == files[..i];
  }

  /** One more subdirectory: the walk below it is appended, and its rank is lower. */
  lemma UnderNext(cache: Snapshot, rank: map<string, nat>, parent: string, n: nat, dest: LocalPath)
    requires Ranked(cache, rank) && parent in cache && n < |SubdirsOf(cache[parent])|
    ensures Height(cache, rank, SubdirsOf(cache[parent])[n].fullPath) < Height(cache, rank, parent)
    ensures CollectedUnder(cache, rank, parent, n + 1, dest)
         == CollectedUnder(cache, rank, parent, n, dest)
            + Collected(cache, rank, SubdirsOf(cache[parent])[n].fullPath, Child(dest, SubdirsOf(cache[parent])[n].name))
    ensures ExpectedDirsUnder(cache, rank, parent, n + 1, dest)
         == ExpectedDirsUnder(cache, rank, parent, n, dest)
            + {Fold(Child(dest, SubdirsOf(cache[parent])[n].name))}
            + ExpectedDirs(cache, rank, SubdirsOf(cache[parent])[n].fullPath, Child(dest, SubdirsOf(cache[parent])[n].name))
  {
  }

  /** The keys the case-insensitive hash set holds for the local paths of `ts`. */
  function Keys(ts: seq<Target>): (r: set<LocalPath>)
    decreases |ts|
  {
    if ts == [] then {} else Keys(ts[..|ts| - 1]) + {Fold(ts[|ts| - 1].1)}
  }

  lemma KeysSnoc(ts: seq<Target>, t: Target)
    ensures Keys(ts + [t]) == Keys(ts) + {Fold(t.1)}
  {
    assert (ts + [t])[..|ts|] == ts;
  }

  /** The keys of a concatenation are the keys of its parts. */
  lemma {:induction false} KeysAppend(a: seq<Target>, b: seq<Target>)
    ensures Keys(a + b) == Keys(a) + Keys(b)
    decreases |b|
  {
    if b != [] {
      var init, last := b[..|b| - 1], b[|b| - 1];
      KeysAppend(a, init);
      assert a + b == (a + init) + [last];
      KeysSnoc(a + init, last);
      KeysSnoc(init, last);
      assert init + [last] == b;
    } else {
      assert a + b == a;
    }
  }

  /** A path has a key in the set exactly when some target mirrors to a path with that key. */
  lemma {:induction false} KeysSpec(ts: seq<Target>, key: LocalPath)
    ensures key in Keys(ts) <==> exists k :: 0 <= k < |ts| && Fold(ts[k].1) == key
    decreases |ts|
  {
    if ts != [] {
      var init := ts[..|ts| - 1];
      KeysSpec(init, key);
      if key in Keys(init) {
        var k :| 0 <= k < |init| && Fold(init[k].1) == key;
        assert ts[k] == init[k];
      }
      if exists k :: 0 <= k < |ts| && Fold(ts[k].1) == key {
        var k :| 0 <= k < |ts| && Fold(ts[k].1) == key;
        if k < |init| {
          assert init[k] == ts[k];
        }
      }
    }
  }

  /**
   * The keys `BuildExpectedFileSet(cache, current, dest)` adds to `ftpDirs`:
   * each subdirectory's local path, then those of the walk below it.
   */
  ghost function ExpectedDirs(cache: Snapshot, rank: map<string, nat>, current: string, dest: LocalPath): set<LocalPath>
    requires Ranked(cache, rank)
    decreases Height(cache, rank, current), 1, 0
  {
    if current !in cache then {}
    else ExpectedDirsUnder(cache, rank, current, |SubdirsOf(cache[current])|, dest)
  }

  ghost function ExpectedDirsUnder(cache: Snapshot, rank: map<string, nat>, parent: string, n: nat, dest: LocalPath): set<LocalPath>
    requires Ranked(cache, rank) && parent in cache && n <= |SubdirsOf(cache[parent])|
    decreases Height(cache, rank, parent), 0, n
  {
    if n == 0 then {}
    else
      var d := SubdirsOf(cache[parent])[n - 1];
      ExpectedDirsUnder(cache, rank, parent, n - 1, dest)
      + {Fold(Child(dest, d.name))}
      + ExpectedDirs(cache, rank, d.fullPath, Child(dest, d.name))
  }

  /** The first loop of `CollectFilesToDownload`: each file of the directory paired with its local path, in order. */
  method PairFiles(files: seq<Item>, destinationPath: LocalPath) returns (pairs: seq<Target>)
    ensures pairs == FileTargets(files, destinationPath)
  {
    pairs := [];
    var i := 0;
    while i < |files|
      invariant 0 <= i <= |files|
      invariant pairs == FileTargets(files[..i], destinationPath)
    {
      FileTargetsNext(files, i, destinationPath);
      pairs := pairs + [(files[i], Child(destinationPath, files[i].name))];
      i := i + 1;
    }
    assert files[..|files|] == files;
  }

  /** The first loop of `BuildExpectedFileSet`: the key of each file's local path goes into the set. */
  method AddFileKeys(files: seq<Item>, destinationPath: LocalPath, ftpFiles: set<LocalPath>) returns (keys: set<LocalPath>)
    ensures keys == ftpFiles + Keys(FileTargets(files, destinationPath))
  {
    keys := ftpFiles;
    var i := 0;
    while i < |files|
      invariant 0 <= i <= |files|
      invariant keys == ftpFiles + Keys(FileTargets(files[..i], destinationPath))
    {
      var localPath := Child(destinationPath, files[i].name);
      FileTargetsNext(files, i, destinationPath);
      KeysSnoc(FileTargets(files[..i], destinationPath), (files[i], localPath));
      keys := keys + {Fold(localPath)};
      i := i + 1;
    }
    assert files[..|files|] == files;
  }

  /**
   * `BuildExpectedFileSet`: the case-insensitive sets gain the keys of
   * exactly the local paths `CollectFilesToDownload` mirrors the files to,
   * and of every subdirectory on the way.
   */
  method BuildExpectedFileSet(cache: Snapshot, ghost rank: map<string, nat>, currentPath: string,
                              destinationPath: LocalPath, ftpFiles: set<LocalPath>, ftpDirs: set<LocalPath>)
    returns (files: set<LocalPath>, dirs: set<LocalPath>)
    requires Ranked(cache, rank) && PlainNames(cache)
    ensures files == ftpFiles + Keys(Collected(cache, rank, currentPath, destinationPath))
    ensures dirs == ftpDirs + ExpectedDirs(cache, rank, currentPath, destinationPath)
    decreases Height(cache, rank, currentPath)
  {
    if currentPath !in cache {
      return ftpFiles, ftpDirs;
    }
    var items := cache[currentPath];
    var subdirectories := SubdirsOf(items);
    var fileItems := FilesOf(items);
    files := AddFileKeys(fileItems, destinationPath, ftpFiles);
    dirs := ftpDirs;
    ghost var base := files;
    var j := 0;
    while j < |subdirectories|
      invariant 0 <= j <= |subdirectories|
      invariant files == base + Keys(CollectedUnder(cache, rank, currentPath, j, destinationPath))
      invariant dirs == ftpDirs + ExpectedDirsUnder(cache, rank, currentPath, j, destinationPath)
    {
      var dir := subdirectories[j];
      var localPath := Child(destinationPath, dir.name);
      ghost var files0, dirs0 := files, dirs;
      ChildHeight(cache, rank, currentPath, j);
      dirs := dirs + {Fold(localPath)};
      files, dirs := BuildExpectedFileSet(cache, rank, dir.fullPath, localPath, files, dirs);
      ExpectedStep(cache, rank, currentPath, j, dir, destinationPath, base, ftpDirs, files0, dirs0, files, dirs);
      j := j + 1;
    }
    KeysAppend(FileTargets(fileItems, destinationPath), CollectedUnder(cache, rank, currentPath, j, destinationPath));
  }

  /** A cached subdirectory has a lower rank than its parent. */
  lemma ChildHeight(cache: Snapshot, rank: map<string, nat>, parent: string, n: nat)
    requires Ranked(cache, rank) && parent in cache && n < |SubdirsOf(cache[parent])|
    ensures Height(cache, rank, SubdirsOf(cache[parent])[n].fullPath) < Height(cache, rank, parent)
  {
  }

  /** One round of the subdirectory loop of `BuildExpectedFileSet` keeps its invariant. */
  lemma ExpectedStep(cache: Snapshot, rank: map<string, nat>, parent: string, j: nat, d: Item, dest: LocalPath,
                     base: set<LocalPath>, ftpDirs: set<LocalPath>,
                     files: set<LocalPath>, dirs: set<LocalPath>, files': set<LocalPath>, dirs': set<LocalPath>)
    requires Ranked(cache, rank) && parent in cache && j < |SubdirsOf(cache[parent])|
    requires files == base + Keys(CollectedUnder(cache, rank, parent, j, dest))
    requires dirs == ftpDirs + ExpectedDirsUnder(cache, rank, parent, j, dest)
    requires d == SubdirsOf(cache[parent])[j]
    requires files' == files + Keys(Collected(cache, rank, d.fullPath, Child(dest, d.name)))
    requires dirs' == dirs + {Fold(Child(dest, d.name))} + ExpectedDirs(cache, rank, d.fullPath, Child(dest, d.name))
    ensures files' == base + Keys(CollectedUnder(cache, rank, parent, j + 1, dest))
    ensures dirs' == ftpDirs + ExpectedDirsUnder(cache, rank, parent, j + 1, dest)
  {
    var local := Child(dest, d.name);
    UnderNext(cache, rank, parent, j, dest);
    KeysAppend(CollectedUnder(cache, rank, parent, j, dest), Collected(cache, rank, d.fullPath, local));
  }

  /**
   * `ShouldDownloadFile`: a file is fetched when nothing is at its local path
   * or the local file's length differs from the remote size; timestamps are
   * not compared.
   */
  predicate ShouldDownloadFile(disk: Disk, localPath: LocalPath, remoteSize: int) {
    localPath !in disk.files || disk.files[localPath].length != remoteSize
  }

  /** The collected files that need downloading, in collection order. */
  function Scheduled(ts: seq<Target>, disk: Disk): (r: seq<Target>)
    ensures |r| <= |ts|
    decreases |ts|
  {
    if ts == [] then []
    else
      var last := ts[|ts| - 1];
      Scheduled(ts[..|ts| - 1], disk) + (if ShouldDownloadFile(disk, last.1, last.0.size) then [last] else [])
  }

  /** The collected files that are up to date: the ones counted as skipped. */
  function UpToDate(ts: seq<Target>, disk: Disk): seq<Target>
    decreases |ts|
  {
    if ts == [] then []
    else
      var last := ts[|ts| - 1];
      UpToDate(ts[..|ts| - 1], disk) + (if ShouldDownloadFile(disk, last.1, last.0.size) then [] else [last])
  }

  /** A collected file is scheduled exactly when it needs downloading. */
  lemma {:induction false} ScheduledSpec(ts: seq<Target>, disk: Disk)
    ensures forall t :: t in Scheduled(ts, disk) <==> t in ts && ShouldDownloadFile(disk, t.1, t.0.size)
    decreases |ts|
  {
    if ts != [] {
      var init := ts[..|ts| - 1];
      ScheduledSpec(init, disk);
      assert ts == init + [ts[|ts| - 1]];
    }
  }

  /** Every collected file is either scheduled or skipped, so the skipped count is collected minus scheduled. */
  lemma {:induction false} SkippedCount(ts: seq<Target>, disk: Disk)
    ensures |Scheduled(ts, disk)| + |UpToDate(ts, disk)| == |ts|
    decreases |ts|
  {
    if ts != [] {
      SkippedCount(ts[..|ts| - 1], disk);
    }
  }

  /** Nothing is scheduled exactly when every collected file is present locally with its remote size. */
  lemma NothingScheduled(ts: seq<Target>, disk: Disk)
    ensures Scheduled(ts, disk) == [] <==>
      forall i :: 0 <= i < |ts| ==> ts[i].1 in disk.files && disk.files[ts[i].1].length == ts[i].0.size
  {
    ScheduledSpec(ts, disk);
    if Scheduled(ts, disk) != [] {
      var t := Scheduled(ts, disk)[0];
      assert t in Scheduled(ts, disk);
    } else {
      forall i | 0 <= i < |ts|
        ensures ts[i].1 in disk.files && disk.files[ts[i].1].length == ts[i].0.size
      {
        assert ts[i] in ts;
      }
    }
  }

  /** Every subdirectory entry of every cached listing has its own listing in the cache. */
  predicate Closed(cache: Snapshot) {
    forall p, i :: p in cache && 0 <= i < |SubdirsOf(cache[p])| ==> SubdirsOf(cache[p])[i].fullPath in cache
  }

  /** A cache the scanner built is closed. */
  lemma ScanClosed(listing: string -> seq<Item>, cache: Snapshot)
    requires Listed(listing, cache) && ClosedSet(listing, cache.Keys)
    ensures Closed(cache)
  {
    forall p, i | p in cache && 0 <= i < |SubdirsOf(cache[p])|
      ensures SubdirsOf(cache[p])[i].fullPath in cache
    {
      var items := cache[p];
      var d := SubdirsOf(items)[i];
      WhereSpec(items, IsSubdir);
      assert d in SubdirsOf(items);
      var k :| 0 <= k < |items| && items[k] == d;
      SubdirPathOf(items, k);
      assert ChildOf(listing, p, d.fullPath);
    }
  }

  /**
   * Two closed caches that agree on every path they both hold plan the same
   * sync below any path they both hold: the same files to the same local
   * paths, and the same expected directories.
   */
  lemma {:induction false} CollectedAgree(c1: Snapshot, r1: map<string, nat>, c2: Snapshot, r2: map<string, nat>,
                                          p: string, dest: LocalPath)
    requires Ranked(c1, r1) && Ranked(c2, r2) && Closed(c1) && Closed(c2)
    requires forall q :: q in c1 && q in c2 ==> c1[q] == c2[q]
    requires p in c1 && p in c2
    ensures Collected(c1, r1, p, dest) == Collected(c2, r2, p, dest)
    ensures ExpectedDirs(c1, r1, p, dest) == ExpectedDirs(c2, r2, p, dest)
    decreases Height(c1, r1, p), 1, 0
  {
    CollectedUnderAgree(c1, r1, c2, r2, p, |SubdirsOf(c1[p])|, dest);
  }

  lemma {:induction false} CollectedUnderAgree(c1: Snapshot, r1: map<string, nat>, c2: Snapshot, r2: map<string, nat>,
                                               p: string, n: nat, dest: LocalPath)
    requires Ranked(c1, r1) && Ranked(c2, r2) && Closed(c1) && Closed(c2)
    requires forall q :: q in c1 && q in c2 ==> c1[q] == c2[q]
    requires p in c1 && p in c2 && n <= |SubdirsOf(c1[p])|
    ensures CollectedUnder(c1, r1, p, n, dest) == CollectedUnder(c2, r2, p, n, dest)
    ensures ExpectedDirsUnder(c1, r1, p, n, dest) == ExpectedDirsUnder(c2, r2, p, n, dest)
    decreases Height(c1, r1, p), 0, n
  {
    if n > 0 {
      var d := SubdirsOf(c1[p])[n - 1];
      ChildHeight(c1, r1, p, n - 1);
      CollectedUnderAgree(c1, r1, c2, r2, p, n - 1, dest);
      CollectedAgree(c1, r1, c2, r2, d.fullPath, Child(dest, d.name));
    }
  }

  /**
   * With plain names, every file the walk collects goes to a path inside
   * `dest`, one plain segment per level, which is where `Path.Combine`
   * level by level puts it.
   */
  lemma {:induction false} CollectedInside(cache: Snapshot, rank: map<string, nat>, p: string, dest: LocalPath)
    requires Ranked(cache, rank) && PlainNames(cache)
    ensures forall k :: 0 <= k < |Collected(cache, rank, p, dest)| ==> Inside(dest, Collected(cache, rank, p, dest)[k].1)
    decreases Height(cache, rank, p), 1, 0
  {
    if p in cache {
      var files := FilesOf(cache[p]);
      WhereSpec(cache[p], IsFile);
      forall i | 0 <= i < |files| ensures PlainName(files[i].name) {
        assert files[i] in files;
      }
      FileTargetsInside(files, dest);
      CollectedUnderInside(cache, rank, p, |SubdirsOf(cache[p])|, dest);
    }
  }

  lemma {:induction false} CollectedUnderInside(cache: Snapshot, rank: map<string, nat>, p: string, n: nat, dest: LocalPath)
    requires Ranked(cache, rank) && PlainNames(cache) && p in cache && n <= |SubdirsOf(cache[p])|
    ensures forall k :: 0 <= k < |CollectedUnder(cache, rank, p, n, dest)| ==> Inside(dest, CollectedUnder(cache, rank, p, n, dest)[k].1)
    decreases Height(cache, rank, p), 0, n
  {
    if n > 0 {
      var d := SubdirsOf(cache[p])[n - 1];
      WhereSpec(cache[p], IsSubdir);
      assert d in SubdirsOf(cache[p]);
      ChildHeight(cache, rank, p, n - 1);
      CollectedUnderInside(cache, rank, p, n - 1, dest);
      var sub := Child(dest, d.name);
      CollectedInside(cache, rank, d.fullPath, sub);
      forall path | Inside(sub, path) ensures Inside(dest, path) {
        assert path[|dest|] == sub[|dest|];
        assert path[..|dest|] == sub[..|dest|];
      }
    }
  }

  lemma {:induction false} FileTargetsInside(files: seq<Item>, dest: LocalPath)
    requires forall i :: 0 <= i < |files| ==> PlainName(files[i].name)
    ensures forall k :: 0 <= k < |FileTargets(files, dest)| ==> Inside(dest, FileTargets(files, dest)[k].1)
    decreases |files|
  {
    if files != [] {
      FileTargetsInside(files[..|files| - 1], dest);
    }
  }
}
