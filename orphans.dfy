/**
 * What the orphan scan leaves on the local disk. `ScanAndDeleteOrphanedFiles`
 * walks a local directory tree: in each directory it deletes the files whose
 * case-folded path is not in the expected file set, recurses into each
 * subdirectory, and then removes each subdirectory that is not in the
 * expected directory set and has no file left anywhere beneath it.
 *
 * `Cleaned` states the outcome of the whole walk at once; the walk itself is
 * `Sync.FtpManager.ScanAndDeleteOrphanedFiles`. A file that `File.Delete`
 * refuses to delete (locked, read-only) is in the parameter `undeletable`.
 */
module Orphans {
  import opened Text
  import opened Local

  /** A file the walk from `root` deletes: beneath it, not expected, and deletable. */
  predicate Orphan(root: LocalPath, ftpFiles: set<LocalPath>, undeletable: set<LocalPath>, f: LocalPath) {
    Beneath(root, f) && Fold(f) !in ftpFiles && f !in undeletable
  }

  /** `f` is `a` or lies beneath it. */
  predicate AtOrBeneath(a: LocalPath, f: LocalPath) {
    |a| <= |f| && f[..|a|] == a
  }

  /** The files that remain once every orphan is deleted. */
  ghost function Remaining(files: map<LocalPath, LocalFile>, root: LocalPath, ftpFiles: set<LocalPath>,
                           undeletable: set<LocalPath>): map<LocalPath, LocalFile> {
    map f | f in files && !Orphan(root, ftpFiles, undeletable, f) :: files[f]
  }

  /** The orphans themselves: the files the walk deletes and counts. */
  ghost function OrphanFiles(disk: Disk, root: LocalPath, ftpFiles: set<LocalPath>, undeletable: set<LocalPath>): set<LocalPath> {
    set f | f in disk.files && Orphan(root, ftpFiles, undeletable, f)
  }

  /**
   * `d` lies beneath `root` and goes with some directory on its way down
   * from `root` (itself included) that is not expected and has no remaining
   * file beneath it.
   */
  ghost predicate PrunedUnder(root: LocalPath, ftpDirs: set<LocalPath>, files: map<LocalPath, LocalFile>, d: LocalPath) {
    Beneath(root, d) && exists k :: |root| < k <= |d| && Fold(d[..k]) !in ftpDirs && NoFileBeneath(files, d[..k])
  }

  /** The disk after the orphan scan of `root`. */
  ghost function Cleaned(disk: Disk, root: LocalPath, ftpFiles: set<LocalPath>, ftpDirs: set<LocalPath>,
                         undeletable: set<LocalPath>): Disk {
    var files := Remaining(disk.files, root, ftpFiles, undeletable);
    Disk(files, set d | d in disk.dirs && !PrunedUnder(root, ftpDirs, files, d))
  }

  /** A prefix of a prefix. */
  lemma PrefixOfPrefix(f: LocalPath, k: nat, j: nat)
    requires j <= k <= |f|
    ensures f[..k][..j] == f[..j]
  {
  }

  /** Beneath a child `c` of `root` is beneath `root`, and the path passes through `c`. */
  lemma ThroughChild(root: LocalPath, c: LocalPath, f: LocalPath)
    requires |c| == |root| + 1 && c[..|root|] == root && Beneath(c, f)
    ensures Beneath(root, f) && |f| > |root| + 1 && f[..|root| + 1] == c
  {
    PrefixOfPrefix(f, |c|, |root|);
  }

  /** The scan keeps the disk consistent: no file or directory is left without its parent directories. */
  lemma CleanedValid(disk: Disk, root: LocalPath, ftpFiles: set<LocalPath>, ftpDirs: set<LocalPath>,
                     undeletable: set<LocalPath>)
    requires Valid(disk)
    ensures Valid(Cleaned(disk, root, ftpFiles, ftpDirs, undeletable))
  {
    var c := Cleaned(disk, root, ftpFiles, ftpDirs, undeletable);
    forall f, k | f in c.files && 0 < k < |f|
      ensures f[..k] in c.dirs
    {
      FileNotPruned(root, ftpDirs, c.files, f, k);
    }
    forall d, k | d in c.dirs && 0 < k < |d|
      ensures d[..k] in c.dirs
    {
      PrunedPrefix(root, ftpDirs, c.files, d, k);
    }
  }

  /** No directory on the way down to a remaining file is pruned. */
  lemma FileNotPruned(root: LocalPath, ftpDirs: set<LocalPath>, files: map<LocalPath, LocalFile>, f: LocalPath, k: nat)
    requires f in files && 0 < k < |f|
    ensures !PrunedUnder(root, ftpDirs, files, f[..k])
  {
    forall j | |root| < j <= k
      ensures !NoFileBeneath(files, f[..k][..j])
    {
      PrefixOfPrefix(f, k, j);
      assert Beneath(f[..j], f);
    }
  }

  /** A directory beneath a pruned one is pruned with it. */
  lemma PrunedPrefix(root: LocalPath, ftpDirs: set<LocalPath>, files: map<LocalPath, LocalFile>, d: LocalPath, k: nat)
    requires 0 < k < |d|
    ensures PrunedUnder(root, ftpDirs, files, d[..k]) ==> PrunedUnder(root, ftpDirs, files, d)
  {
    if PrunedUnder(root, ftpDirs, files, d[..k]) {
      var j :| |root| < j <= k && Fold(d[..k][..j]) !in ftpDirs && NoFileBeneath(files, d[..k][..j]);
      PrefixOfPrefix(d, k, j);
      PrefixOfPrefix(d, k, |root|);
    }
  }

  /** A directory the scan removes has no file left anywhere beneath it. */
  lemma RemovedDirHoldsNoFile(disk: Disk, root: LocalPath, ftpFiles: set<LocalPath>, ftpDirs: set<LocalPath>,
                              undeletable: set<LocalPath>, d: LocalPath)
    requires d in disk.dirs && d !in Cleaned(disk, root, ftpFiles, ftpDirs, undeletable).dirs
    ensures Beneath(root, d)
    ensures NoFileBeneath(Cleaned(disk, root, ftpFiles, ftpDirs, undeletable).files, d)
  {
    var files := Cleaned(disk, root, ftpFiles, ftpDirs, undeletable).files;
    var k :| |root| < k <= |d| && Fold(d[..k]) !in ftpDirs && NoFileBeneath(files, d[..k]);
    forall f | f in files
      ensures !Beneath(d, f)
    {
      if Beneath(d, f) {
        PrefixOfPrefix(f, |d|, k);
        assert false;
      }
    }
  }

  /** A directory with a file left beneath it is kept, expected or not. */
  lemma DirWithFileKept(disk: Disk, root: LocalPath, ftpFiles: set<LocalPath>, ftpDirs: set<LocalPath>,
                        undeletable: set<LocalPath>, d: LocalPath)
    requires d in disk.dirs
    requires !NoFileBeneath(Cleaned(disk, root, ftpFiles, ftpDirs, undeletable).files, d)
    ensures d in Cleaned(disk, root, ftpFiles, ftpDirs, undeletable).dirs
  {
    if d !in Cleaned(disk, root, ftpFiles, ftpDirs, undeletable).dirs {
      RemovedDirHoldsNoFile(disk, root, ftpFiles, ftpDirs, undeletable, d);
    }
  }

  /**
   * A directory is kept when it and every directory between it and `root`
   * are expected: the walk only removes directories it does not expect.
   */
  lemma ExpectedChainKept(disk: Disk, root: LocalPath, ftpFiles: set<LocalPath>, ftpDirs: set<LocalPath>,
                          undeletable: set<LocalPath>, d: LocalPath)
    requires d in disk.dirs
    requires forall k :: |root| < k <= |d| ==> Fold(d[..k]) in ftpDirs
    ensures d in Cleaned(disk, root, ftpFiles, ftpDirs, undeletable).dirs
  {
  }

  /**
   * Scanning again deletes nothing more: every orphan is gone and every
   * removed directory is gone, so a second scan of the result leaves it as
   * it is.
   */
  lemma CleanedIdempotent(disk: Disk, root: LocalPath, ftpFiles: set<LocalPath>, ftpDirs: set<LocalPath>,
                          undeletable: set<LocalPath>)
    ensures var once := Cleaned(disk, root, ftpFiles, ftpDirs, undeletable);
      Cleaned(once, root, ftpFiles, ftpDirs, undeletable) == once
      && OrphanFiles(once, root, ftpFiles, undeletable) == {}
  {
    var once := Cleaned(disk, root, ftpFiles, ftpDirs, undeletable);
    assert Remaining(once.files, root, ftpFiles, undeletable) == once.files;
    var twice := Cleaned(once, root, ftpFiles, ftpDirs, undeletable);
    assert twice.dirs == once.dirs;
  }

  // The walk, one child of the root at a time.

  /**
   * `f` has been dealt with once the children in `done` have been walked:
   * it sits directly in `root` or beneath one of them.
   */
  predicate Handled(root: LocalPath, done: set<LocalPath>, f: LocalPath) {
    |f| == |root| + 1 || (|f| > |root| + 1 && f[..|root| + 1] in done)
  }

  /**
   * `cur` is `disk` after the files directly in `root` have been checked and
   * the children in `done` have been walked (but not yet removed).
   */
  ghost predicate Swept(disk: Disk, cur: Disk, root: LocalPath, done: set<LocalPath>, ftpFiles: set<LocalPath>,
                        ftpDirs: set<LocalPath>, undeletable: set<LocalPath>) {
    && (forall f :: f in cur.files <==>
         f in disk.files && !(Orphan(root, ftpFiles, undeletable, f) && Handled(root, done, f)))
    && (forall f :: f in cur.files ==> cur.files[f] == disk.files[f])
    && (forall d :: d in cur.dirs <==>
         d in disk.dirs && !(|d| > |root| + 1 && d[..|root| + 1] in done &&
                             PrunedUnder(d[..|root| + 1], ftpDirs, Remaining(disk.files, root, ftpFiles, undeletable), d)))
  }

  /** The orphans deleted so far. */
  ghost function SweptOrphans(disk: Disk, root: LocalPath, done: set<LocalPath>, ftpFiles: set<LocalPath>,
                              undeletable: set<LocalPath>): set<LocalPath> {
    set f | f in disk.files && Orphan(root, ftpFiles, undeletable, f) && Handled(root, done, f)
  }

  /** The orphans directly in `dir`: what the first loop of the walk deletes. */
  ghost function LocalOrphans(disk: Disk, dir: LocalPath, ftpFiles: set<LocalPath>, undeletable: set<LocalPath>): set<LocalPath> {
    set f | f in FilesIn(disk, dir) && Fold(f) !in ftpFiles && f !in undeletable
  }

  /** After the first loop nothing has been walked yet. */
  lemma SweepStart(disk: Disk, cur: Disk, root: LocalPath, ftpFiles: set<LocalPath>, ftpDirs: set<LocalPath>,
                   undeletable: set<LocalPath>)
    requires cur.dirs == disk.dirs
    requires forall f :: f in cur.files <==> f in disk.files && f !in LocalOrphans(disk, root, ftpFiles, undeletable)
    requires forall f :: f in cur.files ==> cur.files[f] == disk.files[f]
    ensures Swept(disk, cur, root, {}, ftpFiles, ftpDirs, undeletable)
    ensures SweptOrphans(disk, root, {}, ftpFiles, undeletable) == LocalOrphans(disk, root, ftpFiles, undeletable)
  {
  }

  /** Whether a directory beneath `c` holds no file depends only on the files beneath `c`. */
  lemma NoFileAgree(c: LocalPath, a: LocalPath, f1: map<LocalPath, LocalFile>, f2: map<LocalPath, LocalFile>)
    requires AtOrBeneath(c, a)
    requires forall f :: Beneath(c, f) ==> (f in f1 <==> f in f2)
    ensures NoFileBeneath(f1, a) <==> NoFileBeneath(f2, a)
  {
    forall f | Beneath(a, f)
      ensures Beneath(c, f)
    {
      PrefixOfPrefix(f, |a|, |c|);
    }
  }

  /** Whether a directory beneath `c` is removed depends only on the files beneath `c`. */
  lemma PrunedAgree(c: LocalPath, ftpDirs: set<LocalPath>, f1: map<LocalPath, LocalFile>, f2: map<LocalPath, LocalFile>,
                    d: LocalPath)
    requires forall f :: Beneath(c, f) ==> (f in f1 <==> f in f2)
    ensures PrunedUnder(c, ftpDirs, f1, d) <==> PrunedUnder(c, ftpDirs, f2, d)
  {
    if Beneath(c, d) {
      forall k | |c| < k <= |d|
        ensures NoFileBeneath(f1, d[..k]) <==> NoFileBeneath(f2, d[..k])
      {
        PrefixOfPrefix(d, k, |c|);
        NoFileAgree(c, d[..k], f1, f2);
      }
    }
  }

  /** Removal below `root` splits into the child on the way and what lies below that child. */
  lemma PrunedSplit(root: LocalPath, ftpDirs: set<LocalPath>, files: map<LocalPath, LocalFile>, d: LocalPath)
    requires Beneath(root, d)
    ensures PrunedUnder(root, ftpDirs, files, d) <==>
      (Fold(d[..|root| + 1]) !in ftpDirs && NoFileBeneath(files, d[..|root| + 1]))
      || (|d| > |root| + 1 && PrunedUnder(d[..|root| + 1], ftpDirs, files, d))
  {
    var c := d[..|root| + 1];
    if |d| > |root| + 1 {
      PrefixOfPrefix(d, |d|, |root| + 1);
      assert Beneath(c, d);
    }
  }

  /** Walking one more child `c` of `root` keeps the sweep's account of the files. */
  lemma SweepStepFiles(disk: Disk, cur: Disk, root: LocalPath, done: set<LocalPath>, c: LocalPath, next: Disk,
                       ftpFiles: set<LocalPath>, ftpDirs: set<LocalPath>, undeletable: set<LocalPath>)
    requires Swept(disk, cur, root, done, ftpFiles, ftpDirs, undeletable)
    requires |c| == |root| + 1 && c[..|root|] == root && c !in done
    requires next.files == Remaining(cur.files, c, ftpFiles, undeletable)
    ensures forall f :: f in next.files <==>
      f in disk.files && !(Orphan(root, ftpFiles, undeletable, f) && Handled(root, done + {c}, f))
    ensures forall f :: f in next.files ==> next.files[f] == disk.files[f]
    ensures SweptOrphans(disk, root, done + {c}, ftpFiles, undeletable)
      == SweptOrphans(disk, root, done, ftpFiles, undeletable) + OrphanFiles(cur, c, ftpFiles, undeletable)
    ensures SweptOrphans(disk, root, done, ftpFiles, undeletable) !! OrphanFiles(cur, c, ftpFiles, undeletable)
  {
    forall f | Beneath(c, f)
      ensures Beneath(root, f) && |f| > |root| + 1 && f[..|root| + 1] == c
    {
      ThroughChild(root, c, f);
    }
  }

  /** The files below `c` that remain after walking `c` are the ones the whole scan keeps. */
  lemma RemainingBelowChild(disk: Disk, cur: Disk, root: LocalPath, done: set<LocalPath>, c: LocalPath,
                            ftpFiles: set<LocalPath>, ftpDirs: set<LocalPath>, undeletable: set<LocalPath>)
    requires Swept(disk, cur, root, done, ftpFiles, ftpDirs, undeletable)
    requires |c| == |root| + 1 && c[..|root|] == root && c !in done
    ensures forall f :: Beneath(c, f) ==>
      (f in Remaining(cur.files, c, ftpFiles, undeletable) <==> f in Remaining(disk.files, root, ftpFiles, undeletable))
  {
    forall f | Beneath(c, f)
      ensures Beneath(root, f) && |f| > |root| + 1 && f[..|root| + 1] == c
    {
      ThroughChild(root, c, f);
    }
  }

  /** Walking one more child `c` of `root` keeps the sweep's account of the directories. */
  lemma SweepStepDirs(disk: Disk, cur: Disk, root: LocalPath, done: set<LocalPath>, c: LocalPath, next: Disk,
                      ftpFiles: set<LocalPath>, ftpDirs: set<LocalPath>, undeletable: set<LocalPath>)
    requires Swept(disk, cur, root, done, ftpFiles, ftpDirs, undeletable)
    requires |c| == |root| + 1 && c[..|root|] == root && c !in done
    requires next.dirs == Cleaned(cur, c, ftpFiles, ftpDirs, undeletable).dirs
    ensures forall d :: d in next.dirs <==>
      d in disk.dirs && !(|d| > |root| + 1 && d[..|root| + 1] in done + {c} &&
                          PrunedUnder(d[..|root| + 1], ftpDirs, Remaining(disk.files, root, ftpFiles, undeletable), d))
  {
    var rest := Remaining(disk.files, root, ftpFiles, undeletable);
    var below := Remaining(cur.files, c, ftpFiles, undeletable);
    RemainingBelowChild(disk, cur, root, done, c, ftpFiles, ftpDirs, undeletable);
    forall d
      ensures d in next.dirs <==>
        d in disk.dirs && !(|d| > |root| + 1 && d[..|root| + 1] in done + {c} && PrunedUnder(d[..|root| + 1], ftpDirs, rest, d))
    {
      if Beneath(c, d) {
        ThroughChild(root, c, d);
        PrunedAgree(c, ftpDirs, below, rest, d);
      }
    }
  }

  /** Once every child is walked, the files are the ones the scan keeps and every orphan is counted. */
  lemma SweepFinishFiles(disk: Disk, cur: Disk, root: LocalPath, ftpFiles: set<LocalPath>, ftpDirs: set<LocalPath>,
                         undeletable: set<LocalPath>)
    requires Valid(disk)
    requires Swept(disk, cur, root, DirsIn(disk, root), ftpFiles, ftpDirs, undeletable)
    ensures cur.files == Remaining(disk.files, root, ftpFiles, undeletable)
    ensures SweptOrphans(disk, root, DirsIn(disk, root), ftpFiles, undeletable) == OrphanFiles(disk, root, ftpFiles, undeletable)
  {
    forall f | f in disk.files && Beneath(root, f)
      ensures Handled(root, DirsIn(disk, root), f)
    {
      if |f| > |root| + 1 {
        PrefixOfPrefix(f, |root| + 1, |root|);
      }
    }
  }

  /**
   * Once every child is walked and the last loop has removed the children
   * that are unexpected and hold no file, the disk is `Cleaned`.
   */
  lemma SweepFinishDirs(disk: Disk, cur: Disk, root: LocalPath, after: Disk, ftpFiles: set<LocalPath>,
                        ftpDirs: set<LocalPath>, undeletable: set<LocalPath>)
    requires Valid(disk)
    requires Swept(disk, cur, root, DirsIn(disk, root), ftpFiles, ftpDirs, undeletable)
    requires cur.files == Remaining(disk.files, root, ftpFiles, undeletable)
    requires after.files == cur.files
    requires forall d :: d in after.dirs <==>
      d in cur.dirs && !(|d| > |root| && d[..|root| + 1] in DirsIn(disk, root) &&
                         Fold(d[..|root| + 1]) !in ftpDirs && NoFileBeneath(cur.files, d[..|root| + 1]))
    ensures after == Cleaned(disk, root, ftpFiles, ftpDirs, undeletable)
  {
    var rest := Remaining(disk.files, root, ftpFiles, undeletable);
    var children := DirsIn(disk, root);
    forall d
      ensures d in after.dirs <==> d in disk.dirs && !PrunedUnder(root, ftpDirs, rest, d)
    {
      if d in disk.dirs && Beneath(root, d) {
        PrunedSplit(root, ftpDirs, rest, d);
        var c := d[..|root| + 1];
        PrefixOfPrefix(d, |root| + 1, |root|);
        if |d| == |root| + 1 {
          assert c == d;
        }
        assert c in children;
      } else if |d| > |root| && d[..|root| + 1] in children {
        PrefixOfPrefix(d, |root| + 1, |root|);
      }
    }
  }

  /** A child of `root` is never removed while the children are walked, and no directory is added. */
  lemma SweepChild(disk: Disk, cur: Disk, root: LocalPath, done: set<LocalPath>, c: LocalPath,
                   ftpFiles: set<LocalPath>, ftpDirs: set<LocalPath>, undeletable: set<LocalPath>)
    requires Swept(disk, cur, root, done, ftpFiles, ftpDirs, undeletable)
    requires c in DirsIn(disk, root)
    ensures c in cur.dirs && cur.dirs <= disk.dirs
  {
  }

  /** Walking one more child `c` of `root` keeps the sweep's account, and counts the orphans beneath `c`. */
  lemma SweepStep(disk: Disk, cur: Disk, root: LocalPath, done: set<LocalPath>, c: LocalPath, next: Disk,
                  ftpFiles: set<LocalPath>, ftpDirs: set<LocalPath>, undeletable: set<LocalPath>)
    requires Swept(disk, cur, root, done, ftpFiles, ftpDirs, undeletable)
    requires c in DirsIn(disk, root) && c !in done
    requires next == Cleaned(cur, c, ftpFiles, ftpDirs, undeletable)
    ensures Swept(disk, next, root, done + {c}, ftpFiles, ftpDirs, undeletable)
    ensures |SweptOrphans(disk, root, done + {c}, ftpFiles, undeletable)|
      == |SweptOrphans(disk, root, done, ftpFiles, undeletable)| + |OrphanFiles(cur, c, ftpFiles, undeletable)|
  {
    SweepStepFiles(disk, cur, root, done, c, next, ftpFiles, ftpDirs, undeletable);
    SweepStepDirs(disk, cur, root, done, c, next, ftpFiles, ftpDirs, undeletable);
    var a, b := SweptOrphans(disk, root, done, ftpFiles, undeletable), OrphanFiles(cur, c, ftpFiles, undeletable);
    assert a * b == {};
  }

  // A walk stopped part-way.

  /**
   * `after` is `disk` part-way through the orphan scan of `root`: files were
   * only deleted, each of them an orphan, and directories only removed, each
   * lying beneath `root` with a directory on its way down that is not
   * expected and holds no remaining file. A walk stopped by a cancellation or
   * an error leaves such a disk; `Cleaned` is the one a finished walk leaves.
   */
  ghost predicate PartlyCleaned(disk: Disk, after: Disk, root: LocalPath, ftpFiles: set<LocalPath>,
                                ftpDirs: set<LocalPath>, undeletable: set<LocalPath>) {
    && after.dirs <= disk.dirs
    && (forall f :: f in after.files ==> f in disk.files && after.files[f] == disk.files[f])
    && (forall f :: f in disk.files && f !in after.files ==> Orphan(root, ftpFiles, undeletable, f))
    && (forall d :: d in disk.dirs && d !in after.dirs ==> PrunedUnder(root, ftpDirs, after.files, d))
  }

  /** The finished walk is one of the part-way ones. */
  lemma CleanedPartly(disk: Disk, root: LocalPath, ftpFiles: set<LocalPath>, ftpDirs: set<LocalPath>,
                      undeletable: set<LocalPath>)
    ensures PartlyCleaned(disk, Cleaned(disk, root, ftpFiles, ftpDirs, undeletable), root, ftpFiles, ftpDirs, undeletable)
  {
  }

  /** A walk that has not started is one of the part-way ones. */
  lemma UncleanedPartly(disk: Disk, root: LocalPath, ftpFiles: set<LocalPath>, ftpDirs: set<LocalPath>,
                        undeletable: set<LocalPath>)
    ensures PartlyCleaned(disk, disk, root, ftpFiles, ftpDirs, undeletable)
  {
  }

  /** A removal below `sub` is a removal below any directory `sub` lies in. */
  lemma PrunedLift(root: LocalPath, sub: LocalPath, ftpDirs: set<LocalPath>, files: map<LocalPath, LocalFile>, d: LocalPath)
    requires AtOrBeneath(root, sub) && PrunedUnder(sub, ftpDirs, files, d)
    ensures PrunedUnder(root, ftpDirs, files, d)
  {
    PrefixOfPrefix(d, |sub|, |root|);
  }

  /** A removal stays justified as more files are deleted. */
  lemma PrunedFewer(root: LocalPath, ftpDirs: set<LocalPath>, files: map<LocalPath, LocalFile>,
                    fewer: map<LocalPath, LocalFile>, d: LocalPath)
    requires fewer.Keys <= files.Keys && PrunedUnder(root, ftpDirs, files, d)
    ensures PrunedUnder(root, ftpDirs, fewer, d)
  {
  }

  /**
   * Part-way walks compose: a walk of `root` stopped at `mid`, followed by a
   * walk of a directory `sub` at or beneath `root`, is a walk of `root`
   * stopped part-way.
   */
  lemma PartlyCleanedThen(disk: Disk, mid: Disk, after: Disk, root: LocalPath, sub: LocalPath,
                          ftpFiles: set<LocalPath>, ftpDirs: set<LocalPath>, undeletable: set<LocalPath>)
    requires AtOrBeneath(root, sub)
    requires PartlyCleaned(disk, mid, root, ftpFiles, ftpDirs, undeletable)
    requires PartlyCleaned(mid, after, sub, ftpFiles, ftpDirs, undeletable)
    ensures PartlyCleaned(disk, after, root, ftpFiles, ftpDirs, undeletable)
  {
    forall f | f in disk.files && f !in after.files
      ensures Orphan(root, ftpFiles, undeletable, f)
    {
      if f in mid.files {
        PrefixOfPrefix(f, |sub|, |root|);
      }
    }
    forall d | d in disk.dirs && d !in after.dirs
      ensures PrunedUnder(root, ftpDirs, after.files, d)
    {
      if d in mid.dirs {
        PrunedLift(root, sub, ftpDirs, after.files, d);
      } else {
        PrunedFewer(root, ftpDirs, mid.files, after.files, d);
      }
    }
  }

  /** While the children of `root` are walked, the disk is part-way through the walk of `root`. */
  lemma SweptPartly(disk: Disk, cur: Disk, root: LocalPath, done: set<LocalPath>, ftpFiles: set<LocalPath>,
                    ftpDirs: set<LocalPath>, undeletable: set<LocalPath>)
    requires Swept(disk, cur, root, done, ftpFiles, ftpDirs, undeletable)
    requires forall c :: c in done ==> |c| == |root| + 1 && c[..|root|] == root
    ensures PartlyCleaned(disk, cur, root, ftpFiles, ftpDirs, undeletable)
  {
    var rest := Remaining(disk.files, root, ftpFiles, undeletable);
    forall d | d in disk.dirs && d !in cur.dirs
      ensures PrunedUnder(root, ftpDirs, cur.files, d)
    {
      var c := d[..|root| + 1];
      forall f | Beneath(c, f)
        ensures f in rest <==> f in cur.files
      {
        ThroughChild(root, c, f);
      }
      PrunedAgree(c, ftpDirs, rest, cur.files, d);
      PrefixOfPrefix(d, |root| + 1, |root|);
      PrunedLift(root, c, ftpDirs, cur.files, d);
    }
  }

  /**
   * The last loop of the walk of `root` removes directories only as the
   * walk allows; run to the end, it leaves the disk `Cleaned` with every
   * orphan counted.
   */
  lemma WalkPruned(disk: Disk, cur: Disk, after: Disk, root: LocalPath, ftpFiles: set<LocalPath>,
                   ftpDirs: set<LocalPath>, undeletable: set<LocalPath>, finished: bool)
    requires Valid(disk)
    requires Swept(disk, cur, root, DirsIn(disk, root), ftpFiles, ftpDirs, undeletable)
    requires PartlyCleaned(disk, cur, root, ftpFiles, ftpDirs, undeletable)
    requires after.files == cur.files && after.dirs <= cur.dirs
    requires forall d :: d in cur.dirs && d !in after.dirs ==> PrunedUnder(root, ftpDirs, after.files, d)
    requires finished ==> forall d :: d in after.dirs <==>
      d in cur.dirs && !(|d| > |root| && d[..|root| + 1] in DirsIn(disk, root) &&
                         Fold(d[..|root| + 1]) !in ftpDirs && NoFileBeneath(cur.files, d[..|root| + 1]))
    ensures PartlyCleaned(disk, after, root, ftpFiles, ftpDirs, undeletable)
    ensures finished ==> after == Cleaned(disk, root, ftpFiles, ftpDirs, undeletable)
    ensures SweptOrphans(disk, root, DirsIn(disk, root), ftpFiles, undeletable) == OrphanFiles(disk, root, ftpFiles, undeletable)
  {
    SweepFinishFiles(disk, cur, root, ftpFiles, ftpDirs, undeletable);
    PartlyCleanedThen(disk, cur, after, root, root, ftpFiles, ftpDirs, undeletable);
    if finished {
      SweepFinishDirs(disk, cur, root, after, ftpFiles, ftpDirs, undeletable);
    }
  }

  /** The walk deleted as many files as the two disks' file sets differ by. */
  lemma DeletedCount(a: set<LocalPath>, b: set<LocalPath>, c: set<LocalPath>)
    requires c <= b <= a
    ensures |a - c| == |a - b| + |b - c|
  {
    assert a - c == (a - b) + (b - c);
    assert (a - b) !! (b - c);
  }
}
