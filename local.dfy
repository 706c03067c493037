/**
 * The local side of a sync: paths as sequences of segments, the disk as the
 * files and directories it holds, and the case-insensitive keys the sync's
 * hash sets compare paths by.
 */
module Local {
  import opened Text

  /**
   * A local path as its segments, the destination folder's own segments
   * first; `Path.Combine(dir, name)` with a plain name appends one segment.
   */
  type LocalPath = seq<string>

  /** A file on the local disk: its length in bytes and its last-write time (ticks). */
  datatype LocalFile = LocalFile(length: nat, lastWrite: nat)

  /** The local disk: the files by path, and the directories. */
  datatype Disk = Disk(files: map<LocalPath, LocalFile>, dirs: set<LocalPath>)

  /** `Path.Combine(dir, name)` for a name that is a single plain segment. */
  function Child(dir: LocalPath, name: string): LocalPath {
    dir + [name]
  }

  /** The characters a Windows path is separated at. */
  const Separators: set<char> := {'\\', '/'}

  /**
   * A name `Path.Combine` appends as exactly one new segment: not empty, not
   * `.` or `..`, and without a separator or a drive colon.
   */
  predicate PlainName(name: string) {
    name != "" && name != "." && name != ".." && ':' !in name
    && forall i :: 0 <= i < |name| ==> name[i] !in Separators
  }

  /**
   * `dir` after walking the segments `segs` as Windows resolves a path: an
   * empty or `.` segment stays, `..` goes up one level but never above the
   * drive, and any other segment goes down into it.
   */
  function Walk(dir: LocalPath, segs: seq<string>): LocalPath
    decreases |segs|
  {
    if segs == [] then dir
    else
      var s := segs[0];
      var next :=
        if s == "" || s == "." then dir
        else if s == ".." then (if |dir| > 1 then dir[..|dir| - 1] else dir)
        else dir + [s];
      Walk(next, segs[1..])
  }

  /**
   * The file `File.Create(Path.Combine(dir, name))` reaches for any name: the
   * pieces of the name between separators walked from `dir`. A name with a
   * drive colon is absolute, and one that starts with a separator starts
   * from the drive of `dir`.
   */
  function Combine(dir: LocalPath, name: string): LocalPath {
    var segs := Split(name, Separators);
    if ':' in name then Walk([], segs)
    else if name != [] && name[0] in Separators then Walk(dir[..if dir == [] then 0 else 1], segs)
    else Walk(dir, segs)
  }

  /** For a plain name, `Path.Combine` is `Child`: one new segment, beneath `dir`. */
  lemma PlainChild(dir: LocalPath, name: string)
    requires PlainName(name)
    ensures Combine(dir, name) == Child(dir, name)
    ensures Beneath(dir, Combine(dir, name))
  {
    SplitNoSeparator(name, Separators);
    assert Walk(dir + [name], []) == dir + [name];
  }

  /**
   * A remote file named `..\..\x` (`x` a plain name) is written two levels
   * above the destination folder, outside it, when that folder lies at least
   * two levels below its drive.
   */
  lemma CombineEscapes(dir: LocalPath, x: string)
    requires |dir| > 2 && PlainName(x)
    ensures Combine(dir, ".." + "\\" + ".." + "\\" + x) == dir[..|dir| - 2] + [x]
    ensures !Beneath(dir, Combine(dir, ".." + "\\" + ".." + "\\" + x))
  {
    EscapeSplit(x);
    var up := dir[..|dir| - 1];
    WalkUp(dir, [".."] + [x]);
    WalkUp(up, [x]);
    assert up[..|up| - 1] == dir[..|dir| - 2];
    assert Walk(dir[..|dir| - 2], [x]) == Walk(dir[..|dir| - 2] + [x], []);
  }

  /** `..\..\x` is relative, and its pieces are `..`, `..` and `x`. */
  lemma EscapeSplit(x: string)
    requires PlainName(x)
    ensures var name := ".." + "\\" + ".." + "\\" + x;
      ':' !in name && name[0] !in Separators && Split(name, Separators) == [".."] + ([".."] + [x])
  {
    var name := ".." + "\\" + ".." + "\\" + x;
    assert name == ".." + ['\\'] + (".." + ['\\'] + x);
    SplitAtSeparator("..", '\\', ".." + ['\\'] + x, Separators);
    SplitAtSeparator("..", '\\', x, Separators);
    SplitNoSeparator("..", Separators);
    SplitNoSeparator(x, Separators);
    assert ':' !in name by {
      assert forall i :: 0 <= i < 6 ==> name[i] != ':';
      assert forall i :: 6 <= i < |name| ==> name[i] == x[i - 6];
    }
  }

  /** A `..` segment goes up one level from a directory below its drive. */
  lemma WalkUp(d: LocalPath, rest: seq<string>)
    requires |d| > 1
    ensures Walk(d, [".."] + rest) == Walk(d[..|d| - 1], rest)
  {
    assert ([".."] + rest)[1..] == rest;
  }

  /**
   * A remote file named `a\b` and the file `b` of a remote directory `a`
   * (both plain names) are written to the same local file, though `Child`
   * keeps them apart.
   */
  lemma CombineCollides(dir: LocalPath, a: string, b: string)
    requires PlainName(a) && PlainName(b)
    ensures Combine(dir, a + "\\" + b) == Combine(Combine(dir, a), b) == dir + [a, b]
    ensures Child(dir, a + "\\" + b) != Child(Child(dir, a), b)
  {
    NestedSplit(a, b);
    PlainChild(dir, a);
    PlainChild(dir + [a], b);
    assert Walk(dir, [a, b]) == Walk(dir + [a], [b]);
    assert |Child(dir, a + "\\" + b)| != |Child(Child(dir, a), b)|;
  }

  /** `a\b` is relative, and its pieces are `a` and `b`. */
  lemma NestedSplit(a: string, b: string)
    requires PlainName(a) && PlainName(b)
    ensures var name := a + "\\" + b;
      ':' !in name && name[0] !in Separators && Split(name, Separators) == [a, b]
  {
    var name := a + "\\" + b;
    assert name == a + ['\\'] + b;
    SplitAtSeparator(a, '\\', b, Separators);
    SplitNoSeparator(a, Separators);
    SplitNoSeparator(b, Separators);
    assert ':' !in name by {
      assert forall i :: 0 <= i < |a| ==> name[i] == a[i];
      assert forall i :: |a| + 1 <= i < |name| ==> name[i] == b[i - |a| - 1];
    }
    assert name[0] == a[0];
  }

  /**
   * The key the sync's ignore-case hash sets compare a path by: every
   * segment with its ASCII letters in upper case.
   */
  function Fold(p: LocalPath): LocalPath {
    seq(|p|, i requires 0 <= i < |p| => Upper(p[i]))
  }

  /** Two paths name the same entry when the case of ASCII letters is ignored, segment by segment. */
  predicate SamePathIgnoringCase(p: LocalPath, q: LocalPath) {
    |p| == |q| && forall i :: 0 <= i < |p| ==> SameIgnoringCase(p[i], q[i])
  }

  /** Two paths have the same key exactly when they differ at most in the case of ASCII letters. */
  lemma FoldIgnoresCase(p: LocalPath, q: LocalPath)
    ensures Fold(p) == Fold(q) <==> SamePathIgnoringCase(p, q)
  {
    if |p| == |q| {
      forall i | 0 <= i < |p|
        ensures Fold(p)[i] == Fold(q)[i] <==> SameIgnoringCase(p[i], q[i])
      {
        UpperIgnoresCase(p[i], q[i]);
      }
      if SamePathIgnoringCase(p, q) {
        assert Fold(p) == Fold(q);
      }
    } else {
      assert |Fold(p)| != |Fold(q)|;
    }
  }

  /** `b` lies strictly beneath the directory `a`. */
  predicate Beneath(a: LocalPath, b: LocalPath) {
    |a| < |b| && b[..|a|] == a
  }

  /**
   * A disk as the file system keeps it: every proper ancestor of a file or a
   * directory is a directory, and no path is both a file and a directory.
   */
  ghost predicate Valid(disk: Disk) {
    && (forall f, k :: f in disk.files && 0 < k < |f| ==> f[..k] in disk.dirs)
    && (forall d, k :: d in disk.dirs && 0 < k < |d| ==> d[..k] in disk.dirs)
    && (forall f :: f in disk.files ==> f !in disk.dirs)
  }

  /** The files directly inside `dir`: `Directory.GetFiles(dir)`. */
  function FilesIn(disk: Disk, dir: LocalPath): set<LocalPath> {
    set f | f in disk.files && |f| == |dir| + 1 && f[..|dir|] == dir
  }

  /** The directories directly inside `dir`: `Directory.GetDirectories(dir)`. */
  function DirsIn(disk: Disk, dir: LocalPath): set<LocalPath> {
    set d | d in disk.dirs && |d| == |dir| + 1 && d[..|dir|] == dir
  }

  /**
   * The two listings of a directory split what lies beneath it: on a
   * well-formed disk no path is in both, and a file beneath `dir` is either
   * directly in it or beneath exactly one of its directories, which is what
   * lets the orphan scan reach every file by recursing into `DirsIn`.
   */
  lemma ChildrenCover(disk: Disk, dir: LocalPath, f: LocalPath)
    requires Valid(disk)
    ensures FilesIn(disk, dir) !! DirsIn(disk, dir)
    ensures f in disk.files && Beneath(dir, f) ==>
      (f in FilesIn(disk, dir) <==> !exists c :: c in DirsIn(disk, dir) && Beneath(c, f))
    ensures f in disk.files && Beneath(dir, f) && f !in FilesIn(disk, dir) ==>
      f[..|dir| + 1] in DirsIn(disk, dir) && forall c :: c in DirsIn(disk, dir) && Beneath(c, f) ==> c == f[..|dir| + 1]
  {
    if f in disk.files && Beneath(dir, f) && f !in FilesIn(disk, dir) {
      var c := f[..|dir| + 1];
      assert c[..|dir|] == dir;
      assert c in DirsIn(disk, dir) && Beneath(c, f);
      forall c' | c' in DirsIn(disk, dir) && Beneath(c', f)
        ensures c' == c
      {
        assert f[..|c'|] == c';
      }
    }
  }

  /** No file lies anywhere beneath `dir`: `Directory.GetFiles(dir, "*", AllDirectories)` is empty. */
  predicate NoFileBeneath(files: map<LocalPath, LocalFile>, dir: LocalPath) {
    forall f :: f in files ==> !Beneath(dir, f)
  }
}
