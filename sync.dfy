/**
 * The sync engine's state and its local side: the counters of a sync run
 * (`_downloadedFiles`, `_skippedFiles`, `_deletedFiles`), the orphan scan
 * that deletes what the server no longer has, the transfers that bring in
 * what it has, and the plan that ties them together in
 * `DownloadDirectoryFromCache`.
 */
module Sync {
  import opened Text
  import opened Listing
  import opened Scanner
  import opened Planner
  import opened Local
  import opened Orphans
  import opened Cancellation

  /** The directories beneath `root`: what is left for the orphan scan to walk. */
  ghost function DirsBeneath(disk: Disk, root: LocalPath): set<LocalPath> {
    set d | d in disk.dirs && Beneath(root, d)
  }

  /** Taking `x` off the to-do list adds it to what is done. */
  lemma OneMoreDone<T>(all: set<T>, todo: set<T>, x: T)
    requires x in todo
    ensures all - (todo - {x}) == (all - todo) + (if x in all then {x} else {})
  {
  }

  /** Walking a child `c` of `root` leaves strictly fewer directories to walk. */
  lemma DescendShrinks(disk: Disk, cur: Disk, root: LocalPath, c: LocalPath)
    requires cur.dirs <= disk.dirs && c in disk.dirs
    requires |c| == |root| + 1 && c[..|root|] == root
    ensures DirsBeneath(cur, c) < DirsBeneath(disk, root)
  {
    forall d | d in DirsBeneath(cur, c)
      ensures d in DirsBeneath(disk, root)
    {
      ThroughChild(root, c, d);
    }
    assert c in DirsBeneath(disk, root) && c !in DirsBeneath(cur, c);
  }

  /**
   * The last loop of `ScanAndDeleteOrphanedFiles`: each child of `root` that
   * is not an expected directory and has no file anywhere beneath it is
   * deleted with everything beneath it. Each child first checks `token`; a
   * check that fires stops the loop with the children before it handled.
   */
  method RemoveUnexpectedDirs(cur: Disk, root: LocalPath, localDirs: set<LocalPath>, ftpDirs: set<LocalPath>, token: Token)
    returns (next: Disk, cancelled: bool, rest: Token)
    requires Valid(cur)
    requires forall c :: c in localDirs ==> |c| == |root| + 1 && c[..|root|] == root
    ensures next.files == cur.files && next.dirs <= cur.dirs && Valid(next)
    ensures forall d :: d in cur.dirs && d !in next.dirs ==> PrunedUnder(root, ftpDirs, next.files, d)
    ensures !cancelled ==> forall d :: d in next.dirs <==>
      d in cur.dirs && !(|d| > |root| && d[..|root| + 1] in localDirs &&
                         Fold(d[..|root| + 1]) !in ftpDirs && NoFileBeneath(cur.files, d[..|root| + 1]))
    ensures cancelled ==> Fires(rest)
    ensures token.Never? ==> !cancelled && rest.Never?
  {
    next, cancelled, rest := cur, false, token;
    var todo := localDirs;
    while todo != {} && !cancelled
      invariant todo <= localDirs
      invariant next.files == cur.files && Valid(next)
      invariant forall d :: d in next.dirs <==>
        d in cur.dirs && !(|d| > |root| && d[..|root| + 1] in localDirs - todo &&
                           Fold(d[..|root| + 1]) !in ftpDirs && NoFileBeneath(cur.files, d[..|root| + 1]))
      invariant cancelled ==> Fires(rest)
      invariant token.Never? ==> !cancelled && rest.Never?
      decreases todo, !cancelled
    {
      var dir :| dir in todo;
      if Fires(rest) {
        cancelled := true;
      } else {
        rest := Tick(rest);
        if Fold(dir) !in ftpDirs {
          if NoFileBeneath(next.files, dir) {
            PruneValid(next, dir);
            next := next.(dirs := set d | d in next.dirs && !AtOrBeneath(dir, d));
          }
        }
        todo := todo - {dir};
      }
    }
    forall d | d in cur.dirs && d !in next.dirs
      ensures PrunedUnder(root, ftpDirs, next.files, d)
    {
      var k := |root| + 1;
      PrefixOfPrefix(d, k, |root|);
      assert Fold(d[..k]) !in ftpDirs && NoFileBeneath(next.files, d[..k]);
    }
  }

  /** Removing a directory with no file beneath it, and everything beneath it, keeps the disk well formed. */
  lemma PruneValid(disk: Disk, dir: LocalPath)
    requires Valid(disk) && NoFileBeneath(disk.files, dir)
    ensures Valid(disk.(dirs := set d | d in disk.dirs && !AtOrBeneath(dir, d)))
  {
    var next := disk.(dirs := set d | d in disk.dirs && !AtOrBeneath(dir, d));
    forall f, k | f in next.files && 0 < k < |f|
      ensures f[..k] in next.dirs
    {
      if |dir| <= k {
        PrefixOfPrefix(f, k, |dir|);
      }
      assert !AtOrBeneath(dir, f[..k]);
    }
    forall d, k | d in next.dirs && 0 < k < |d|
      ensures d[..k] in next.dirs
    {
      if |dir| <= k {
        PrefixOfPrefix(d, k, |dir|);
      }
      assert !AtOrBeneath(dir, d[..k]);
    }
  }

  /**
   * How a walk of the orphan scan ends: it ran to the end, or it threw;
   * `OperationCanceledException` when `cancellation`, otherwise another
   * exception (a directory that cannot be listed, or a nested walk that
   * threw and reached its parent through `Wait()`).
   */
  datatype Stop = Ran | Threw(cancellation: bool)

  /**
   * How the transfer of one scheduled file ends: the whole stream was written
   * (`length` bytes); another error ended it, before the local file was
   * created (`None`) or after `written` bytes went into it; the sync was
   * cancelled while it ran; or the sync was cancelled before it started, at
   * the semaphore or the cancellation check (`dirsMade` false) or once the
   * parent directories had been made, as `Task.Run` is handed the token
   * (`dirsMade` true).
   */
  datatype Outcome = Completed(length: nat) | Failed(written: Option<nat>) | Cancelled | NotStarted(dirsMade: bool)

  /** The outcome cancels the sync, whether the transfer had started or not. */
  predicate Stops(o: Outcome) {
    o.Cancelled? || o.NotStarted?
  }

  /** The proper ancestors of `path`, which `Directory.CreateDirectory` makes sure exist. */
  function Ancestors(path: LocalPath): set<LocalPath> {
    set k | 0 < k < |path| :: path[..k]
  }

  /**
   * The transfer to `path` cannot reach its file: the path is a directory
   * (`File.Create` throws) or one of its ancestors is a file
   * (`Directory.CreateDirectory` throws). Either way the transfer fails
   * without changing the disk.
   */
  predicate Blocked(disk: Disk, path: LocalPath) {
    path in disk.dirs || exists k :: 0 < k < |path| && path[..k] in disk.files
  }

  /** The last-write time of a completed file: the server's timestamp, or the time of writing when that is unknown. */
  function Stamp(remote: nat, now: nat): nat {
    if remote != Unknown then remote else now
  }

  /**
   * The disk after one transfer, as the download task and
   * `DownloadFileWithProgress` leave it: the parent directories are created,
   * then the file is created (truncated) and written; a cancelled transfer
   * deletes whatever file is at the path, and one cancelled before it started
   * leaves the file as it was. `now` is the clock at that moment.
   */
  function Transfer(disk: Disk, t: Target, o: Outcome, now: nat): Disk {
    if Blocked(disk, t.1) then disk
    else
      var made := disk.(dirs := disk.dirs + Ancestors(t.1));
      match o
      case Completed(n) => made.(files := made.files[t.1 := LocalFile(n, Stamp(t.0.lastModified, now))])
      case Failed(w) => if w.Some? then made.(files := made.files[t.1 := LocalFile(w.value, now)]) else made
      case Cancelled => made.(files := made.files - {t.1})
      case NotStarted(dirsMade) => if dirsMade then made else disk
  }

  /** Where the transfers stand: the disk, how many completed, and whether the sync was cancelled. */
  datatype Progress = Progress(disk: Disk, downloaded: nat, cancelled: bool)

  /** One more transfer: only a completed one that reached its file is counted; a cancelled or unstarted one cancels the sync. */
  function Step(p: Progress, t: Target, o: Outcome, now: nat): Progress {
    Progress(Transfer(p.disk, t, o, now),
             p.downloaded + (if o.Completed? && !Blocked(p.disk, t.1) then 1 else 0),
             Stops(o))
  }

  /**
   * The transfers of `ts` in order, `os[i]` being how the i-th ends; after a
   * cancellation no further transfer starts.
   */
  function Run(disk: Disk, ts: seq<Target>, os: seq<Outcome>, now: nat): Progress
    requires |os| == |ts|
    decreases |ts|
  {
    if ts == [] then Progress(disk, 0, false)
    else
      var p := Run(disk, ts[..|ts| - 1], os[..|os| - 1], now);
      if p.cancelled then p else Step(p, ts[|ts| - 1], os[|os| - 1], now)
  }

  /** A transfer keeps the disk well formed: its file never lands on a directory nor beneath a file. */
  lemma TransferValid(disk: Disk, t: Target, o: Outcome, now: nat)
    requires Valid(disk)
    ensures Valid(Transfer(disk, t, o, now))
  {
    if !Blocked(disk, t.1) {
      var path := t.1;
      var made := disk.(dirs := disk.dirs + Ancestors(path));
      forall d, k | d in made.dirs && 0 < k < |d|
        ensures d[..k] in made.dirs
      {
        if d !in disk.dirs {
          var j :| 0 < j < |path| && d == path[..j];
          assert d[..k] == path[..k];
        }
      }
      assert Valid(made);
      forall f, k | f == path && 0 < k < |f|
        ensures f[..k] in made.dirs
      {
        assert f[..k] in Ancestors(path);
      }
      assert path !in Ancestors(path);
    }
  }

  /** Every run keeps the disk well formed. */
  lemma {:induction false} RunValid(disk: Disk, ts: seq<Target>, os: seq<Outcome>, now: nat)
    requires |os| == |ts| && Valid(disk)
    ensures Valid(Run(disk, ts, os, now).disk)
    decreases |ts|
  {
    if ts != [] {
      var p := Run(disk, ts[..|ts| - 1], os[..|os| - 1], now);
      RunValid(disk, ts[..|ts| - 1], os[..|os| - 1], now);
      if !p.cancelled {
        TransferValid(p.disk, ts[|ts| - 1], os[|os| - 1], now);
      }
    }
  }

  /**
   * The sync ends cancelled exactly when some transfer was cancelled,
   * started or not: a failed transfer is reported and the others go on.
   */
  lemma {:induction false} RunCancelled(disk: Disk, ts: seq<Target>, os: seq<Outcome>, now: nat)
    requires |os| == |ts|
    ensures Run(disk, ts, os, now).cancelled <==> exists i :: 0 <= i < |os| && Stops(os[i])
    decreases |ts|
  {
    if ts != [] {
      var init := os[..|os| - 1];
      RunCancelled(disk, ts[..|ts| - 1], init, now);
      if exists i :: 0 <= i < |init| && Stops(init[i]) {
        var i :| 0 <= i < |init| && Stops(init[i]);
        assert os[i] == init[i];
      }
      if exists i :: 0 <= i < |os| && Stops(os[i]) {
        var i :| 0 <= i < |os| && Stops(os[i]);
        if i < |init| {
          assert init[i] == os[i];
        }
      }
    }
  }

  /**
   * At most one count per transfer, and every transfer counted only when
   * every one of them completed.
   */
  lemma {:induction false} RunCount(disk: Disk, ts: seq<Target>, os: seq<Outcome>, now: nat)
    requires |os| == |ts|
    ensures Run(disk, ts, os, now).downloaded <= |ts|
    ensures Run(disk, ts, os, now).downloaded == |ts| ==> forall i :: 0 <= i < |os| ==> os[i].Completed?
    decreases |ts|
  {
    if ts != [] {
      var init := os[..|os| - 1];
      RunCount(disk, ts[..|ts| - 1], init, now);
      if Run(disk, ts, os, now).downloaded == |ts| {
        forall i | 0 <= i < |os|
          ensures os[i].Completed?
        {
          if i < |init| {
            assert init[i] == os[i];
          }
        }
      }
    }
  }

  /** Once cancelled after the first `i` transfers, the run stays where it stopped. */
  lemma {:induction false} RunStaysCancelled(disk: Disk, ts: seq<Target>, os: seq<Outcome>, now: nat, i: nat)
    requires |os| == |ts| && i <= |ts|
    requires Run(disk, ts[..i], os[..i], now).cancelled
    ensures Run(disk, ts, os, now) == Run(disk, ts[..i], os[..i], now)
    decreases |ts|
  {
    if i < |ts| {
      var ts', os' := ts[..|ts| - 1], os[..|os| - 1];
      assert ts'[..i] == ts[..i] && os'[..i] == os[..i];
      RunStaysCancelled(disk, ts', os', now, i);
    } else {
      assert ts[..i] == ts && os[..i] == os;
    }
  }

  /** A path no transfer of the run targets keeps its file, or its absence, as it was. */
  lemma {:induction false} RunUntouched(disk: Disk, ts: seq<Target>, os: seq<Outcome>, now: nat, f: LocalPath)
    requires |os| == |ts|
    requires forall k :: 0 <= k < |ts| ==> ts[k].1 != f
    ensures f in Run(disk, ts, os, now).disk.files <==> f in disk.files
    ensures f in disk.files ==> Run(disk, ts, os, now).disk.files[f] == disk.files[f]
    decreases |ts|
  {
    if ts != [] {
      var ts' := ts[..|ts| - 1];
      assert forall k :: 0 <= k < |ts'| ==> ts'[k] == ts[k];
      RunUntouched(disk, ts', os[..|os| - 1], now, f);
    }
  }

  /**
   * Failures are isolated: a transfer that completed and reached its file
   * leaves that file, with the server's timestamp when known, whatever
   * happens to the transfers after it to other paths.
   */
  lemma {:induction false} CompletedPresent(disk: Disk, ts: seq<Target>, os: seq<Outcome>, now: nat, j: nat)
    requires |os| == |ts| && j < |ts| && os[j].Completed?
    requires !Run(disk, ts[..j], os[..j], now).cancelled
    requires !Blocked(Run(disk, ts[..j], os[..j], now).disk, ts[j].1)
    requires forall k :: j < k < |ts| ==> ts[k].1 != ts[j].1
    ensures ts[j].1 in Run(disk, ts, os, now).disk.files
    ensures Run(disk, ts, os, now).disk.files[ts[j].1] == LocalFile(os[j].length, Stamp(ts[j].0.lastModified, now))
    decreases |ts|
  {
    var ts', os' := ts[..|ts| - 1], os[..|os| - 1];
    if j < |ts| - 1 {
      assert ts'[..j] == ts[..j] && os'[..j] == os[..j];
      CompletedPresent(disk, ts', os', now, j);
    } else {
      assert ts' == ts[..j] && os' == os[..j];
    }
  }

  /**
   * A cancelled transfer leaves no partial file behind: the file at its path
   * is deleted and no later transfer starts.
   */
  lemma CancelLeavesNoFile(disk: Disk, ts: seq<Target>, os: seq<Outcome>, now: nat, j: nat)
    requires |os| == |ts| && j < |ts| && os[j].Cancelled? && Valid(disk)
    requires !Run(disk, ts[..j], os[..j], now).cancelled
    ensures Run(disk, ts, os, now).cancelled
    ensures ts[j].1 !in Run(disk, ts, os, now).disk.files
  {
    var ts', os' := ts[..j + 1], os[..j + 1];
    assert ts'[..j] == ts[..j] && os'[..j] == os[..j];
    var p := Run(disk, ts[..j], os[..j], now);
    RunValid(disk, ts[..j], os[..j], now);
    assert Run(disk, ts', os', now) == Step(p, ts[j], os[j], now);
    RunStaysCancelled(disk, ts, os, now, j + 1);
  }

  /**
   * A transfer cancelled before it started leaves the file at its path as it
   * was, whether or not its directories had been made, and no later transfer
   * starts; when the directories had not been made the disk is untouched.
   */
  lemma NotStartedKeepsFile(disk: Disk, ts: seq<Target>, os: seq<Outcome>, now: nat, j: nat)
    requires |os| == |ts| && j < |ts| && os[j].NotStarted?
    requires !Run(disk, ts[..j], os[..j], now).cancelled
    ensures Run(disk, ts, os, now).cancelled
    ensures Run(disk, ts, os, now).disk.files == Run(disk, ts[..j], os[..j], now).disk.files
    ensures !os[j].dirsMade ==> Run(disk, ts, os, now).disk == Run(disk, ts[..j], os[..j], now).disk
    ensures Run(disk, ts, os, now).downloaded == Run(disk, ts[..j], os[..j], now).downloaded
  {
    var ts', os' := ts[..j + 1], os[..j + 1];
    assert ts'[..j] == ts[..j] && os'[..j] == os[..j];
    var p := Run(disk, ts[..j], os[..j], now);
    assert Run(disk, ts', os', now) == Step(p, ts[j], os[j], now);
    RunStaysCancelled(disk, ts, os, now, j + 1);
  }

  /** The disk after `DeleteOrphanedFiles` with the expected file keys of `all` and the expected directory keys `dirs`. */
  ghost function AfterOrphanScan(disk: Disk, dest: LocalPath, all: seq<Target>, dirs: set<LocalPath>,
                                 undeletable: set<LocalPath>): Disk {
    if dest in disk.dirs then Cleaned(disk, dest, Keys(all), dirs, undeletable) else disk
  }

  class FtpManager {
    var skippedFiles: int
    var downloadedFiles: int
    var deletedFiles: int

    constructor ()
      ensures skippedFiles == 0 && downloadedFiles == 0 && deletedFiles == 0
    {
      skippedFiles := 0;
      downloadedFiles := 0;
      deletedFiles := 0;
    }

    /**
     * The first loop of `ScanAndDeleteOrphanedFiles`: every file directly in
     * `dir` whose key is not expected is deleted and counted; a file that
     * refuses deletion is reported and stays. Each file first checks
     * `token`; a check that fires stops the loop with the files before it
     * handled.
     */
    method DeleteOrphanFilesIn(disk: Disk, dir: LocalPath, ftpFiles: set<LocalPath>, undeletable: set<LocalPath>,
                               token: Token)
      returns (next: Disk, cancelled: bool, rest: Token)
      modifies this
      ensures next.dirs == disk.dirs
      ensures forall f :: f in next.files ==> f in disk.files && next.files[f] == disk.files[f]
      ensures forall f :: f in disk.files && f !in next.files ==> f in LocalOrphans(disk, dir, ftpFiles, undeletable)
      ensures deletedFiles == old(deletedFiles) + |disk.files.Keys - next.files.Keys|
      ensures !cancelled ==>
        forall f :: f in next.files <==> f in disk.files && f !in LocalOrphans(disk, dir, ftpFiles, undeletable)
      ensures !cancelled ==> deletedFiles == old(deletedFiles) + |LocalOrphans(disk, dir, ftpFiles, undeletable)|
      ensures cancelled ==> Fires(rest)
      ensures token.Never? ==> !cancelled && rest.Never?
      ensures downloadedFiles == old(downloadedFiles) && skippedFiles == old(skippedFiles)
    {
      next, cancelled, rest := disk, false, token;
      var localFiles := FilesIn(disk, dir);
      var todo := localFiles;
      ghost var deleted: set<LocalPath> := {};
      while todo != {} && !cancelled
        invariant todo <= localFiles
        invariant next.dirs == disk.dirs
        invariant forall f :: f in deleted <==> f in localFiles && f !in todo && Fold(f) !in ftpFiles && f !in undeletable
        invariant forall f :: f in next.files <==> f in disk.files && f !in deleted
        invariant forall f :: f in next.files ==> next.files[f] == disk.files[f]
        invariant deletedFiles == old(deletedFiles) + |deleted|
        invariant cancelled ==> Fires(rest)
        invariant token.Never? ==> !cancelled && rest.Never?
        invariant downloadedFiles == old(downloadedFiles) && skippedFiles == old(skippedFiles)
        decreases todo, !cancelled
      {
        var file :| file in todo;
        if Fires(rest) {
          cancelled := true;
        } else {
          rest := Tick(rest);
          if Fold(file) !in ftpFiles {
            if file !in undeletable {
              next := next.(files := next.files - {file});
              deletedFiles := deletedFiles + 1;
              deleted := deleted + {file};
            }
          }
          todo := todo - {file};
        }
      }
      assert deleted == disk.files.Keys - next.files.Keys;
      if !cancelled {
        assert deleted == LocalOrphans(disk, dir, ftpFiles, undeletable);
      }
    }

    /**
     * The middle loop of `ScanAndDeleteOrphanedFiles`: the walk recurses into
     * every child directory of `root`, the ones listed before the first
     * directory was walked. Each child first checks `token`, which throws
     * the cancellation itself; a child walk that throws anything reaches
     * here through `Wait()` wrapped in an `AggregateException`, which is no
     * longer a cancellation.
     */
    method ScanChildren(ghost disk: Disk, cur: Disk, root: LocalPath, localDirs: set<LocalPath>, ftpFiles: set<LocalPath>,
                        ftpDirs: set<LocalPath>, undeletable: set<LocalPath>, unreadable: set<LocalPath>, token: Token)
      returns (next: Disk, stop: Stop, rest: Token)
      requires Valid(disk) && Valid(cur) && localDirs == DirsIn(disk, root)
      requires Swept(disk, cur, root, {}, ftpFiles, ftpDirs, undeletable)
      modifies this
      ensures Valid(next)
      ensures PartlyCleaned(disk, next, root, ftpFiles, ftpDirs, undeletable)
      ensures next.files.Keys <= cur.files.Keys
      ensures deletedFiles == old(deletedFiles) + |cur.files.Keys - next.files.Keys|
      ensures stop.Ran? ==> Swept(disk, next, root, localDirs, ftpFiles, ftpDirs, undeletable)
      ensures stop.Ran? ==>
        (deletedFiles - old(deletedFiles) == |SweptOrphans(disk, root, localDirs, ftpFiles, undeletable)|
                                             - |SweptOrphans(disk, root, {}, ftpFiles, undeletable)|)
      ensures token.Never? ==> rest.Never? && stop != Threw(true)
      ensures token.Never? && unreadable == {} ==> stop.Ran?
      ensures downloadedFiles == old(downloadedFiles) && skippedFiles == old(skippedFiles)
      decreases DirsBeneath(disk, root), 1
    {
      next, stop, rest := cur, Ran, token;
      var todo := localDirs;
      SweptPartly(disk, cur, root, {}, ftpFiles, ftpDirs, undeletable);
      assert localDirs - todo == {};
      while todo != {} && stop.Ran?
        invariant todo <= localDirs
        invariant Valid(next)
        invariant PartlyCleaned(disk, next, root, ftpFiles, ftpDirs, undeletable)
        invariant next.files.Keys <= cur.files.Keys
        invariant deletedFiles == old(deletedFiles) + |cur.files.Keys - next.files.Keys|
        invariant stop.Ran? ==> Swept(disk, next, root, localDirs - todo, ftpFiles, ftpDirs, undeletable)
        invariant stop.Ran? ==>
          (deletedFiles - old(deletedFiles) == |SweptOrphans(disk, root, localDirs - todo, ftpFiles, undeletable)|
                                               - |SweptOrphans(disk, root, {}, ftpFiles, undeletable)|)
        invariant token.Never? ==> rest.Never? && stop != Threw(true)
        invariant token.Never? && unreadable == {} ==> stop.Ran?
        invariant downloadedFiles == old(downloadedFiles) && skippedFiles == old(skippedFiles)
        decreases todo, stop.Ran?
      {
        var dir :| dir in todo;
        ghost var before := next;
        next, stop, rest := WalkChild(disk, next, root, localDirs - todo, dir, ftpFiles, ftpDirs, undeletable, unreadable, rest);
        DeletedCount(cur.files.Keys, before.files.Keys, next.files.Keys);
        if stop.Ran? {
          OneMoreDone(localDirs, todo, dir);
          todo := todo - {dir};
        }
      }
      if stop.Ran? {
        assert localDirs - todo == localDirs;
      }
    }

    /**
     * One turn of the middle loop: the check of `token`, then the walk of
     * the child `c`, whose failure of any kind reaches the loop through
     * `Wait()` as an `AggregateException`.
     */
    method WalkChild(ghost disk: Disk, cur: Disk, root: LocalPath, ghost done: set<LocalPath>, c: LocalPath,
                     ftpFiles: set<LocalPath>, ftpDirs: set<LocalPath>, undeletable: set<LocalPath>,
                     unreadable: set<LocalPath>, token: Token)
      returns (next: Disk, stop: Stop, rest: Token)
      requires Valid(disk) && Valid(cur) && c in DirsIn(disk, root) && c !in done
      requires Swept(disk, cur, root, done, ftpFiles, ftpDirs, undeletable)
      requires PartlyCleaned(disk, cur, root, ftpFiles, ftpDirs, undeletable)
      modifies this
      ensures Valid(next)
      ensures PartlyCleaned(disk, next, root, ftpFiles, ftpDirs, undeletable)
      ensures next.files.Keys <= cur.files.Keys
      ensures deletedFiles == old(deletedFiles) + |cur.files.Keys - next.files.Keys|
      ensures stop.Ran? ==> Swept(disk, next, root, done + {c}, ftpFiles, ftpDirs, undeletable)
      ensures stop.Ran? ==>
        (deletedFiles - old(deletedFiles) == |SweptOrphans(disk, root, done + {c}, ftpFiles, undeletable)|
                                             - |SweptOrphans(disk, root, done, ftpFiles, undeletable)|)
      ensures Fires(token) ==> stop == Threw(true) && next == cur
      ensures token.Never? ==> rest.Never? && stop != Threw(true)
      ensures token.Never? && unreadable == {} ==> stop.Ran?
      ensures downloadedFiles == old(downloadedFiles) && skippedFiles == old(skippedFiles)
      decreases DirsBeneath(disk, root), 0
    {
      if Fires(token) {
        return cur, Threw(true), token;
      }
      rest := Tick(token);
      SweepChild(disk, cur, root, done, c, ftpFiles, ftpDirs, undeletable);
      DescendShrinks(disk, cur, root, c);
      next, stop, rest := ScanAndDeleteOrphanedFiles(cur, c, ftpFiles, ftpDirs, undeletable, unreadable, rest);
      PartlyCleanedThen(disk, cur, next, root, c, ftpFiles, ftpDirs, undeletable);
      if stop.Ran? {
        SweepStep(disk, cur, root, done, c, next, ftpFiles, ftpDirs, undeletable);
      } else {
        stop := Threw(false);
      }
    }

    /**
     * `ScanAndDeleteOrphanedFiles(localPath, ftpFiles, ftpDirs)`: a path that
     * is not a directory is left alone; otherwise the walk deletes and counts
     * orphans until it finishes, leaving the disk `Cleaned`, or stops, with
     * the cancellation when a check of `token` fires or with another
     * exception when a directory it lists is in `unreadable`. However it
     * ends, the disk is part-way through the walk and every deleted file is
     * counted.
     */
    method ScanAndDeleteOrphanedFiles(disk: Disk, localPath: LocalPath, ftpFiles: set<LocalPath>, ftpDirs: set<LocalPath>,
                                      undeletable: set<LocalPath>, unreadable: set<LocalPath>, token: Token)
      returns (after: Disk, stop: Stop, rest: Token)
      requires Valid(disk)
      modifies this
      ensures Valid(after)
      ensures PartlyCleaned(disk, after, localPath, ftpFiles, ftpDirs, undeletable)
      ensures after.files.Keys <= disk.files.Keys
      ensures deletedFiles == old(deletedFiles) + |disk.files.Keys - after.files.Keys|
      ensures localPath !in disk.dirs ==> after == disk && deletedFiles == old(deletedFiles)
      ensures Fires(token) ==> stop == Threw(true) && after == disk
      ensures stop.Ran? && localPath in disk.dirs ==>
        && after == Cleaned(disk, localPath, ftpFiles, ftpDirs, undeletable)
        && deletedFiles == old(deletedFiles) + |OrphanFiles(disk, localPath, ftpFiles, undeletable)|
      ensures token.Never? ==> rest.Never? && stop != Threw(true)
      ensures token.Never? && unreadable == {} ==> stop.Ran?
      ensures downloadedFiles == old(downloadedFiles) && skippedFiles == old(skippedFiles)
      decreases DirsBeneath(disk, localPath), 2
    {
      if Fires(token) {
        return disk, Threw(true), token;
      }
      rest := Tick(token);
      if localPath !in disk.dirs {
        return disk, Ran, rest;
      }
      if localPath in unreadable {
        return disk, Threw(false), rest;
      }
      var cur, cancelled;
      cur, cancelled, rest := DeleteOrphanFilesIn(disk, localPath, ftpFiles, undeletable, rest);
      assert PartlyCleaned(disk, cur, localPath, ftpFiles, ftpDirs, undeletable);
      if cancelled {
        return cur, Threw(true), rest;
      }
      SweepStart(disk, cur, localPath, ftpFiles, ftpDirs, undeletable);
      var localDirs := DirsIn(cur, localPath);
      assert localDirs == DirsIn(disk, localPath);
      ghost var mid := cur;
      cur, stop, rest := ScanChildren(disk, cur, localPath, localDirs, ftpFiles, ftpDirs, undeletable, unreadable, rest);
      DeletedCount(disk.files.Keys, mid.files.Keys, cur.files.Keys);
      if !stop.Ran? {
        return cur, stop, rest;
      }
      after, cancelled, rest := RemoveUnexpectedDirs(cur, localPath, localDirs, ftpDirs, rest);
      WalkPruned(disk, cur, after, localPath, ftpFiles, ftpDirs, undeletable, !cancelled);
      if cancelled {
        stop := Threw(true);
      }
    }

    /**
     * The download tasks of `DownloadDirectoryFromCache`, one after another:
     * each completed transfer that reached its file is counted as
     * downloaded; a cancellation stops the rest.
     */
    method DownloadAll(disk: Disk, filesToDownload: seq<Target>, outcomes: seq<Outcome>, now: nat)
      returns (after: Disk, cancelled: bool)
      requires |outcomes| == |filesToDownload|
      modifies this
      ensures after == Run(disk, filesToDownload, outcomes, now).disk
      ensures cancelled == Run(disk, filesToDownload, outcomes, now).cancelled
      ensures downloadedFiles == old(downloadedFiles) + Run(disk, filesToDownload, outcomes, now).downloaded
      ensures skippedFiles == old(skippedFiles) && deletedFiles == old(deletedFiles)
    {
      after, cancelled := disk, false;
      var i := 0;
      while i < |filesToDownload| && !cancelled
        invariant 0 <= i <= |filesToDownload|
        invariant after == Run(disk, filesToDownload[..i], outcomes[..i], now).disk
        invariant cancelled == Run(disk, filesToDownload[..i], outcomes[..i], now).cancelled
        invariant downloadedFiles == old(downloadedFiles) + Run(disk, filesToDownload[..i], outcomes[..i], now).downloaded
        invariant skippedFiles == old(skippedFiles) && deletedFiles == old(deletedFiles)
      {
        var fileInfo, outcome := filesToDownload[i], outcomes[i];
        if outcome.Completed? && !Blocked(after, fileInfo.1) {
          downloadedFiles := downloadedFiles + 1;
        }
        after := Transfer(after, fileInfo, outcome, now);
        cancelled := Stops(outcome);
        assert filesToDownload[..i + 1][..i] == filesToDownload[..i];
        assert outcomes[..i + 1][..i] == outcomes[..i];
        i := i + 1;
      }
      if cancelled {
        RunStaysCancelled(disk, filesToDownload, outcomes, now, i);
      } else {
        assert filesToDownload[..i] == filesToDownload && outcomes[..i] == outcomes;
      }
    }

    /**
     * The download tasks and `Task.WhenAll`: with `token` already fired,
     * every task throws at its wait for a slot and the sync is cancelled,
     * unless there was nothing to download; otherwise the tasks run as in
     * `DownloadAll`. A path no task targets is left as it was.
     */
    method DownloadTasks(disk: Disk, filesToDownload: seq<Target>, outcomes: seq<Outcome>, now: nat, token: Token)
      returns (after: Disk, cancelled: bool)
      requires |outcomes| == |filesToDownload| && Valid(disk)
      modifies this
      ensures Valid(after)
      ensures Fires(token) ==>
        after == disk && cancelled == (filesToDownload != []) && downloadedFiles == old(downloadedFiles)
      ensures !Fires(token) ==>
        && after == Run(disk, filesToDownload, outcomes, now).disk
        && cancelled == Run(disk, filesToDownload, outcomes, now).cancelled
        && downloadedFiles == old(downloadedFiles) + Run(disk, filesToDownload, outcomes, now).downloaded
      ensures forall f :: f in disk.files && (forall k :: 0 <= k < |filesToDownload| ==> filesToDownload[k].1 != f) ==>
        f in after.files && after.files[f] == disk.files[f]
      ensures skippedFiles == old(skippedFiles) && deletedFiles == old(deletedFiles)
    {
      if Fires(token) {
        return disk, filesToDownload != [];
      }
      after, cancelled := DownloadAll(disk, filesToDownload, outcomes, now);
      RunValid(disk, filesToDownload, outcomes, now);
      forall f | f in disk.files && forall k :: 0 <= k < |filesToDownload| ==> filesToDownload[k].1 != f
        ensures f in after.files && after.files[f] == disk.files[f]
      {
        RunUntouched(disk, filesToDownload, outcomes, now, f);
      }
    }

    /**
     * `DeleteOrphanedFiles`: after a check of `token`, nothing happens when
     * the destination is not a directory; otherwise the expected keys are
     * collected from the cache and the destination is walked against them.
     * A cancellation of the walk is passed on; any other exception it
     * throws is reported and swallowed, the deletions made so far staying.
     */
    method DeleteOrphanedFiles(cache: Snapshot, ghost rank: map<string, nat>, currentPath: string,
                               destinationPath: LocalPath, disk: Disk, undeletable: set<LocalPath>,
                               unreadable: set<LocalPath>, token: Token)
      returns (after: Disk, cancelled: bool, rest: Token)
      requires Ranked(cache, rank) && PlainNames(cache) && Valid(disk)
      modifies this
      ensures Valid(after)
      ensures PartlyCleaned(disk, after, destinationPath, Keys(Collected(cache, rank, currentPath, destinationPath)),
                            ExpectedDirs(cache, rank, currentPath, destinationPath), undeletable)
      ensures deletedFiles == old(deletedFiles) + |disk.files.Keys - after.files.Keys|
      ensures Fires(token) ==> cancelled && after == disk
      ensures token.Never? ==> !cancelled && rest.Never?
      ensures token.Never? && unreadable == {} ==>
        && after == AfterOrphanScan(disk, destinationPath, Collected(cache, rank, currentPath, destinationPath),
                                    ExpectedDirs(cache, rank, currentPath, destinationPath), undeletable)
        && deletedFiles == old(deletedFiles) +
             (if destinationPath in disk.dirs
              then |OrphanFiles(disk, destinationPath, Keys(Collected(cache, rank, currentPath, destinationPath)), undeletable)|
              else 0)
      ensures downloadedFiles == old(downloadedFiles) && skippedFiles == old(skippedFiles)
    {
      ghost var keys, dirs := Keys(Collected(cache, rank, currentPath, destinationPath)),
                              ExpectedDirs(cache, rank, currentPath, destinationPath);
      if Fires(token) {
        UncleanedPartly(disk, destinationPath, keys, dirs, undeletable);
        return disk, true, token;
      }
      rest := Tick(token);
      if destinationPath !in disk.dirs {
        UncleanedPartly(disk, destinationPath, keys, dirs, undeletable);
        return disk, false, rest;
      }
      var ftpFiles, ftpDirs := BuildExpectedFileSet(cache, rank, currentPath, destinationPath, {}, {});
      assert ftpFiles == keys && ftpDirs == dirs;
      var stop;
      after, stop, rest := ScanAndDeleteOrphanedFiles(disk, destinationPath, ftpFiles, ftpDirs, undeletable, unreadable, rest);
      cancelled := stop == Threw(true);
    }

    /**
     * `DownloadDirectoryFromCache`: the files of the cached tree are
     * collected and the ones that need downloading picked out, against the
     * disk as it was before the orphan scan; then the orphans are deleted and
     * the picked files transferred, `outcomes[i]` saying how the i-th ends.
     * `token` is checked before the collection, before the orphan scan and
     * within it; a token that fired inside the scan and was swallowed there
     * cancels every transfer at its wait for a slot. The up-to-date files
     * are counted as skipped unless the sync was cancelled.
     */
    method DownloadDirectoryFromCache(cache: Snapshot, ghost rank: map<string, nat>, currentPath: string,
                                      destinationPath: LocalPath, disk: Disk, undeletable: set<LocalPath>,
                                      unreadable: set<LocalPath>, token: Token, outcomes: seq<Outcome>, now: nat)
      returns (after: Disk, cancelled: bool)
      requires Ranked(cache, rank) && PlainNames(cache) && Valid(disk)
      requires |outcomes| == |Scheduled(Collected(cache, rank, currentPath, destinationPath), disk)|
      modifies this
      ensures Valid(after)
      ensures token.After? && token.passes <= 2 ==>
        && after == disk && cancelled
        && downloadedFiles == old(downloadedFiles) && skippedFiles == old(skippedFiles)
        && deletedFiles == old(deletedFiles)
      ensures token.Never? && unreadable == {} ==>
        var all := Collected(cache, rank, currentPath, destinationPath);
        var run := Run(AfterOrphanScan(disk, destinationPath, all, ExpectedDirs(cache, rank, currentPath, destinationPath),
                                       undeletable), Scheduled(all, disk), outcomes, now);
        && after == run.disk && cancelled == run.cancelled
        && downloadedFiles == old(downloadedFiles) + run.downloaded
        && deletedFiles == old(deletedFiles) +
             (if destinationPath in disk.dirs then |OrphanFiles(disk, destinationPath, Keys(all), undeletable)| else 0)
      ensures skippedFiles == old(skippedFiles) +
        (if cancelled then 0 else |UpToDate(Collected(cache, rank, currentPath, destinationPath), disk)|)
      ensures var all := Collected(cache, rank, currentPath, destinationPath);
        var plan := Scheduled(all, disk);
        forall f :: f in disk.files && f !in OrphanFiles(disk, destinationPath, Keys(all), undeletable) &&
                    (forall k :: 0 <= k < |plan| ==> plan[k].1 != f) ==>
                    f in after.files && after.files[f] == disk.files[f]
    {
      if Fires(token) {
        return disk, true;
      }
      var t := Tick(token);
      assert token.After? ==> t.passes == token.passes - 1;
      var allFilesToDownload := CollectFilesToDownload(cache, rank, currentPath, destinationPath, []);
      assert allFilesToDownload == Collected(cache, rank, currentPath, destinationPath);
      var filesToDownload := Scheduled(allFilesToDownload, disk);
      if Fires(t) {
        return disk, true;
      }
      t := Tick(t);
      assert token.After? ==> t.passes == token.passes - 2;
      var swept;
      swept, cancelled, t := DeleteOrphanedFiles(cache, rank, currentPath, destinationPath, disk, undeletable, unreadable, t);
      if cancelled {
        return swept, true;
      }
      after, cancelled := DownloadTasks(swept, filesToDownload, outcomes, now, t);
      if !cancelled {
        SkippedCount(allFilesToDownload, disk);
        skippedFiles := skippedFiles + (|allFilesToDownload| - |filesToDownload|);
      }
    }
  }

  /** No two targets mirror to the same local path. */
  predicate DistinctPaths(ts: seq<Target>) {
    forall a, b :: 0 <= a < b < |ts| ==> ts[a].1 != ts[b].1
  }

  /** No transfer of the run finds its path blocked when it starts. */
  ghost predicate Unblocked(disk: Disk, ts: seq<Target>, os: seq<Outcome>, now: nat)
    requires |os| == |ts|
  {
    forall j :: 0 <= j < |ts| ==> !Blocked(Run(disk, ts[..j], os[..j], now).disk, ts[j].1)
  }

  /** The orphan scan never deletes the local copy of a collected file. */
  lemma CollectedFileSurvives(disk: Disk, dest: LocalPath, all: seq<Target>, dirs: set<LocalPath>,
                              undeletable: set<LocalPath>, i: nat)
    requires i < |all| && all[i].1 in disk.files
    ensures var swept := AfterOrphanScan(disk, dest, all, dirs, undeletable);
      all[i].1 in swept.files && swept.files[all[i].1] == disk.files[all[i].1]
  {
    KeysSpec(all, Fold(all[i].1));
  }

  /** After a run, every file was on the disk before it or is the path of one of its targets. */
  lemma {:induction false} RunFiles(disk: Disk, ts: seq<Target>, os: seq<Outcome>, now: nat, f: LocalPath)
    requires |os| == |ts| && f in Run(disk, ts, os, now).disk.files
    ensures f in disk.files || exists k :: 0 <= k < |ts| && ts[k].1 == f
    decreases |ts|
  {
    if ts != [] {
      var ts' := ts[..|ts| - 1];
      var p := Run(disk, ts', os[..|os| - 1], now);
      if f in p.disk.files {
        RunFiles(disk, ts', os[..|os| - 1], now, f);
        if !(f in disk.files) {
          var k :| 0 <= k < |ts'| && ts'[k].1 == f;
          assert ts[k] == ts'[k];
        }
      } else {
        assert ts[|ts| - 1].1 == f;
      }
    }
  }

  /**
   * After a sync, however its transfers end, no file beneath the destination
   * is left whose key the server does not expect, except those that refused
   * deletion.
   */
  lemma SyncLeavesNoOrphans(disk: Disk, dest: LocalPath, all: seq<Target>, dirs: set<LocalPath>,
                            undeletable: set<LocalPath>, os: seq<Outcome>, now: nat)
    requires Valid(disk) && dest != [] && |os| == |Scheduled(all, disk)|
    ensures OrphanFiles(Run(AfterOrphanScan(disk, dest, all, dirs, undeletable), Scheduled(all, disk), os, now).disk,
                        dest, Keys(all), undeletable) == {}
  {
    var swept := AfterOrphanScan(disk, dest, all, dirs, undeletable);
    var plan := Scheduled(all, disk);
    var after := Run(swept, plan, os, now).disk;
    if dest in disk.dirs {
      CleanedIdempotent(disk, dest, Keys(all), dirs, undeletable);
    }
    ScheduledSpec(all, disk);
    forall f | f in after.files && Orphan(dest, Keys(all), undeletable, f)
      ensures false
    {
      RunFiles(swept, plan, os, now, f);
      if f !in swept.files {
        var k :| 0 <= k < |plan| && plan[k].1 == f;
        assert plan[k] in all;
        var i :| 0 <= i < |all| && all[i] == plan[k];
        KeysSpec(all, Fold(f));
      }
    }
  }

  /** Picking the files to download keeps the paths distinct. */
  lemma {:induction false} ScheduledDistinct(ts: seq<Target>, disk: Disk)
    requires DistinctPaths(ts)
    ensures DistinctPaths(Scheduled(ts, disk))
    decreases |ts|
  {
    if ts != [] {
      var init, last := ts[..|ts| - 1], ts[|ts| - 1];
      ScheduledDistinct(init, disk);
      ScheduledSpec(init, disk);
      var s := Scheduled(init, disk);
      forall a | 0 <= a < |s|
        ensures s[a].1 != last.1
      {
        assert s[a] in init;
      }
    }
  }

  /** When every transfer completes and finds its path clear, each one's file is there at the end. */
  lemma AllCompletedPresent(disk: Disk, ts: seq<Target>, os: seq<Outcome>, now: nat, j: nat)
    requires |os| == |ts| && j < |ts| && DistinctPaths(ts)
    requires forall k :: 0 <= k < |os| ==> os[k].Completed?
    requires Unblocked(disk, ts, os, now)
    ensures ts[j].1 in Run(disk, ts, os, now).disk.files
    ensures Run(disk, ts, os, now).disk.files[ts[j].1].length == os[j].length
  {
    RunCancelled(disk, ts[..j], os[..j], now);
    CompletedPresent(disk, ts, os, now, j);
  }

  /** A collected file that was up to date is still there, untouched, after the sync. */
  lemma UpToDateKept(disk: Disk, dest: LocalPath, all: seq<Target>, dirs: set<LocalPath>,
                     undeletable: set<LocalPath>, os: seq<Outcome>, now: nat, i: nat)
    requires DistinctPaths(all) && |os| == |Scheduled(all, disk)|
    requires i < |all| && !ShouldDownloadFile(disk, all[i].1, all[i].0.size)
    ensures var after := Run(AfterOrphanScan(disk, dest, all, dirs, undeletable), Scheduled(all, disk), os, now).disk;
      all[i].1 in after.files && after.files[all[i].1] == disk.files[all[i].1]
  {
    var swept := AfterOrphanScan(disk, dest, all, dirs, undeletable);
    var plan := Scheduled(all, disk);
    ScheduledSpec(all, disk);
    CollectedFileSurvives(disk, dest, all, dirs, undeletable, i);
    forall k | 0 <= k < |plan|
      ensures plan[k].1 != all[i].1
    {
      assert plan[k] in all;
      var a :| 0 <= a < |all| && all[a] == plan[k];
    }
    RunUntouched(swept, plan, os, now, all[i].1);
  }

  /** After such a sync, every collected file is present with its listed size. */
  lemma SyncedFile(disk: Disk, dest: LocalPath, all: seq<Target>, dirs: set<LocalPath>,
                   undeletable: set<LocalPath>, os: seq<Outcome>, now: nat, i: nat)
    requires DistinctPaths(all)
    requires |os| == |Scheduled(all, disk)|
    requires forall j :: 0 <= j < |os| ==> os[j].Completed? && os[j].length == Scheduled(all, disk)[j].0.size
    requires Unblocked(AfterOrphanScan(disk, dest, all, dirs, undeletable), Scheduled(all, disk), os, now)
    requires i < |all|
    ensures var after := Run(AfterOrphanScan(disk, dest, all, dirs, undeletable), Scheduled(all, disk), os, now).disk;
      all[i].1 in after.files && after.files[all[i].1].length == all[i].0.size
  {
    var plan := Scheduled(all, disk);
    var t := all[i];
    if ShouldDownloadFile(disk, t.1, t.0.size) {
      ScheduledSpec(all, disk);
      ScheduledDistinct(all, disk);
      assert t in plan;
      var j :| 0 <= j < |plan| && plan[j] == t;
      AllCompletedPresent(AfterOrphanScan(disk, dest, all, dirs, undeletable), plan, os, now, j);
    } else {
      UpToDateKept(disk, dest, all, dirs, undeletable, os, now, i);
    }
  }

  /**
   * A sync whose transfers all completed with the listed sizes and found
   * their paths clear leaves nothing to download: the same filter, run
   * again on the result, schedules no file.
   */
  lemma SyncLeavesNothingToDo(disk: Disk, dest: LocalPath, all: seq<Target>, dirs: set<LocalPath>,
                              undeletable: set<LocalPath>, os: seq<Outcome>, now: nat)
    requires DistinctPaths(all)
    requires |os| == |Scheduled(all, disk)|
    requires forall j :: 0 <= j < |os| ==> os[j].Completed? && os[j].length == Scheduled(all, disk)[j].0.size
    requires Unblocked(AfterOrphanScan(disk, dest, all, dirs, undeletable), Scheduled(all, disk), os, now)
    ensures Scheduled(all, Run(AfterOrphanScan(disk, dest, all, dirs, undeletable), Scheduled(all, disk), os, now).disk) == []
  {
    var after := Run(AfterOrphanScan(disk, dest, all, dirs, undeletable), Scheduled(all, disk), os, now).disk;
    forall i | 0 <= i < |all|
      ensures all[i].1 in after.files && after.files[all[i].1].length == all[i].0.size
    {
      SyncedFile(disk, dest, all, dirs, undeletable, os, now, i);
    }
    NothingScheduled(all, after);
  }
}
