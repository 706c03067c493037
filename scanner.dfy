/**
 * `BuildDirectoryCache` and `ScanDirectoryRecursive`: the walk over the remote
 * tree that lists every directory reachable from a starting path and records
 * each listing in the directory cache.
 *
 * The source recurses into subdirectories with `Parallel.ForEach` and claims
 * each path in a concurrent set before listing it. Here the walk is sequential
 * over a set of pending paths taken in any order; the claimed set keeps its
 * role. The listing operation is a parameter: `ListingFor(remote, parsers)`
 * is the listing `GetDirectoryListingOptimized` returns against `remote`.
 */
module Scanner {
  import opened Text
  import opened Listing
  import opened Cancellation

  /** An entry the scan descends into: a directory other than `.` and `..`. */
  predicate IsSubdir(item: Item) {
    item.isDirectory && !IsDots(item.name)
  }

  /** `items.Where(i => i.IsDirectory && i.Name != "." && i.Name != "..")`, as full paths. */
  function SubdirPaths(items: seq<Item>): (r: seq<string>)
    ensures |r| <= |items|
    decreases |items|
  {
    if items == [] then []
    else
      var last := items[|items| - 1];
      SubdirPaths(items[..|items| - 1]) + (if IsSubdir(last) then [last.fullPath] else [])
  }

  /** Each subdirectory path comes from a subdirectory entry of the listing. */
  lemma {:induction false} SubdirPathSource(items: seq<Item>, w: string) returns (k: nat)
    requires w in SubdirPaths(items)
    ensures k < |items| && IsSubdir(items[k]) && items[k].fullPath == w
    decreases |items|
  {
    var init := items[..|items| - 1];
    if w in SubdirPaths(init) {
      k := SubdirPathSource(init, w);
      assert items[k] == init[k];
    } else {
      k := |items| - 1;
    }
  }

  /** Each subdirectory entry of the listing gives a subdirectory path. */
  lemma {:induction false} SubdirPathOf(items: seq<Item>, k: nat)
    requires k < |items| && IsSubdir(items[k])
    ensures items[k].fullPath in SubdirPaths(items)
    decreases |items|
  {
    var init := items[..|items| - 1];
    if k < |init| {
      SubdirPathOf(init, k);
      assert init[k] == items[k];
    }
  }

  /** `w` is the full path of a subdirectory in the listing of `parent`. */
  ghost predicate ChildOf(listing: string -> seq<Item>, parent: string, w: string) {
    w in SubdirPaths(listing(parent))
  }

  /** Every cached listing is the listing the server gives for that path. */
  ghost predicate Listed(listing: string -> seq<Item>, cache: map<string, seq<Item>>) {
    forall p :: p in cache ==> cache[p] == listing(p)
  }

  /** A set of paths that holds every subdirectory of each of its members. */
  ghost predicate ClosedSet(listing: string -> seq<Item>, s: set<string>) {
    forall p, w :: p in s && ChildOf(listing, p, w) ==> w in s
  }

  /** `w` is a subdirectory in the listing of one of the first `i` scanned paths. */
  ghost predicate FoundBefore(listing: string -> seq<Item>, scanned: seq<string>, i: nat, w: string)
    requires i <= |scanned|
    decreases i
  {
    i > 0 && (ChildOf(listing, scanned[i - 1], w) || FoundBefore(listing, scanned, i - 1, w))
  }

  /**
   * The order in which paths were listed starts at `root`, and every later
   * path is a subdirectory found in the listing of an earlier one.
   */
  ghost predicate ScanOrder(listing: string -> seq<Item>, root: string, scanned: seq<string>) {
    |scanned| > 0 && scanned[0] == root
    && forall i {:trigger FoundBefore(listing, scanned, i, scanned[i])} ::
      0 < i < |scanned| ==> FoundBefore(listing, scanned, i, scanned[i])
  }

  predicate NoDuplicates(s: seq<string>) {
    forall i, j :: 0 <= i < j < |s| ==> s[i] != s[j]
  }

  /** Every path the server answers some listing command for. */
  function Answered(remote: Remote): set<string> {
    remote.mlsd.Keys + remote.list.Keys + remote.nlst.Keys
  }

  /** Only the paths in `answered` have non-empty listings. */
  ghost predicate Bounded(listing: string -> seq<Item>, answered: set<string>) {
    forall p :: p !in answered ==> listing(p) == []
  }

  /** The listing of `GetDirectoryListingOptimized` against `remote`. */
  function ListingFor(remote: Remote, parsers: Parsers): string -> seq<Item> {
    p => ListingOf(remote, parsers, p)
  }

  /** A path the server answers no command for has an empty listing. */
  lemma ListingBounded(remote: Remote, parsers: Parsers)
    ensures Bounded(ListingFor(remote, parsers), Answered(remote))
  {
    forall p | p !in Answered(remote)
      ensures ListingOf(remote, parsers, p) == []
    {
      assert Entries(parsers.mlsd, p, []) == [];
      assert Entries(parsers.unix, p, []) == [];
    }
  }

  /**
   * A finite set of paths holding `root` and every subdirectory path of every
   * listing: since only the answered paths have entries, the scan can never
   * reach beyond it.
   */
  lemma FiniteUniverse(listing: string -> seq<Item>, answered: set<string>, root: string)
    returns (u: set<string>)
    requires Bounded(listing, answered)
    ensures root in u
    ensures forall p, w :: ChildOf(listing, p, w) ==> w in u
  {
    u := {root} + set p, k | p in answered && 0 <= k < |listing(p)| :: listing(p)[k].fullPath;
    forall p, w | ChildOf(listing, p, w)
      ensures w in u
    {
      var k := SubdirPathSource(listing(p), w);
      assert p in answered;
    }
  }

  /** The set of the elements of `s`. */
  function Elems(s: seq<string>): (r: set<string>)
    ensures forall w :: w in r <==> w in s
  {
    set w | w in s
  }

  /**
   * What holds between two rounds of the scan: the claimed paths are the
   * cache's keys and the logged listing calls, each listed once and mapped to
   * its listing; the log starts at `root` and every later entry, like every
   * pending path, was found in an earlier listing; and every subdirectory of
   * a listed path is listed or pending.
   */
  ghost predicate ScanInv(listing: string -> seq<Item>, universe: set<string>, root: string,
                          cache: map<string, seq<Item>>, scanned: seq<string>,
                          processed: set<string>, pending: set<string>)
  {
    && processed == cache.Keys && processed <= universe && pending <= universe
    && (forall p :: p in cache <==> p in scanned)
    && NoDuplicates(scanned)
    && Listed(listing, cache)
    && (scanned == [] ==> pending == {root})
    && (scanned != [] ==> scanned[0] == root)
    && (forall i {:trigger FoundBefore(listing, scanned, i, scanned[i])} ::
          0 < i < |scanned| ==> FoundBefore(listing, scanned, i, scanned[i]))
    && (scanned != [] ==> forall w :: w in pending ==> FoundBefore(listing, scanned, |scanned|, w))
    && (forall p, w :: p in cache && ChildOf(listing, p, w) ==> w in cache || w in pending)
  }

  /**
   * `BuildDirectoryCache(currentPath)`: the scan from `root`. Each path is
   * claimed before it is listed and a path already claimed is skipped, so no
   * path is listed twice; every listed path is a key mapped to its listing;
   * every subdirectory of a listed path is listed too; and every key was
   * reached from `root` through subdirectory entries. `scanned` records the
   * listing calls in order.
   *
   * Every path taken up, claimed or not, first checks `token` (the check and
   * the `semaphore.Wait(token)` of `ScanDirectoryRecursive`). A check that
   * fires ends the scan with `OperationCanceledException`: `cancelled` is
   * set and the partial cache is of no use to the caller, which never sees
   * it. `rest` is the token once the scan is over.
   */
  method BuildDirectoryCache(listing: string -> seq<Item>, ghost answered: set<string>, root: string, token: Token)
    returns (cache: map<string, seq<Item>>, ghost scanned: seq<string>, cancelled: bool, rest: Token)
    requires Bounded(listing, answered)
    ensures !cancelled ==> root in cache
    ensures !cancelled ==> Listed(listing, cache)
    ensures !cancelled ==> ClosedSet(listing, cache.Keys)
    ensures !cancelled ==> forall p :: p in cache <==> p in scanned
    ensures !cancelled ==> NoDuplicates(scanned)
    ensures !cancelled ==> ScanOrder(listing, root, scanned)
    ensures cancelled ==> Fires(rest) && token.After?
    ensures Fires(token) ==> cancelled
    ensures token.Never? ==> !cancelled && rest.Never?
  {
    cache := map[];
    scanned := [];
    cancelled, rest := false, token;
    var processedPaths: set<string> := {};
    var pending := {root};
    ghost var universe := FiniteUniverse(listing, answered, root);
    while pending != {} && !cancelled
      invariant ScanInv(listing, universe, root, cache, scanned, processedPaths, pending)
      invariant token.Never? <==> rest.Never?
      invariant cancelled ==> Fires(rest)
      invariant Fires(token) ==> Fires(rest) && (cancelled || scanned == [])
      decreases |universe - processedPaths|, |pending|, !cancelled
    {
      var path :| path in pending;
      if Fires(rest) {
        cancelled := true;
        continue;
      }
      rest := Tick(rest);
      if path in processedPaths {
        SkipStep(listing, universe, root, cache, scanned, processedPaths, pending, path);
        pending := pending - {path};
      } else {
        ClaimShrinks(universe, processedPaths, path);
        ClaimStep(listing, universe, root, cache, scanned, processedPaths, pending, path);
        processedPaths := processedPaths + {path};
        var items := listing(path);
        cache := cache[path := items];
        scanned := scanned + [path];
        var subdirs := Subdirectories(items);
        pending := (pending - {path}) + Elems(subdirs);
      }
    }
  }

  /** Claiming one more path of the universe leaves fewer paths to claim. */
  lemma ClaimShrinks(universe: set<string>, processed: set<string>, path: string)
    requires processed <= universe && path in universe && path !in processed
    ensures |universe - (processed + {path})| < |universe - processed|
  {
    assert universe - (processed + {path}) < universe - processed;
  }

  /** Dropping a pending path that is already claimed keeps the invariant. */
  lemma SkipStep(listing: string -> seq<Item>, universe: set<string>, root: string,
                 cache: map<string, seq<Item>>, scanned: seq<string>,
                 processed: set<string>, pending: set<string>, path: string)
    requires ScanInv(listing, universe, root, cache, scanned, processed, pending)
    requires path in pending && path in processed
    ensures ScanInv(listing, universe, root, cache, scanned, processed, pending - {path})
  {
  }

  /** Claiming, listing and expanding a pending path keeps the invariant. */
  lemma ClaimStep(listing: string -> seq<Item>, universe: set<string>, root: string,
                  cache: map<string, seq<Item>>, scanned: seq<string>,
                  processed: set<string>, pending: set<string>, path: string)
    requires ScanInv(listing, universe, root, cache, scanned, processed, pending)
    requires (forall p, w :: ChildOf(listing, p, w) ==> w in universe)
    requires path in pending && path !in processed
    ensures ScanInv(listing, universe, root, cache[path := listing(path)], scanned + [path],
                    processed + {path}, (pending - {path}) + Elems(SubdirPaths(listing(path))))
  {
    var pending' := (pending - {path}) + Elems(SubdirPaths(listing(path)));
    StepCache(listing, cache, scanned, path, cache[path := listing(path)], scanned + [path]);
    StepPending(listing, universe, pending - {path}, path, pending');
    StepOrder(listing, root, scanned, path, scanned + [path]);
    StepFound(listing, scanned, pending - {path}, path, pending');
    StepClosed(listing, cache, pending - {path}, path, cache[path := listing(path)], pending');
  }

  /** Claiming and listing `path` keeps the cache, the claimed set and the log in step. */
  lemma StepCache(listing: string -> seq<Item>, cache: map<string, seq<Item>>, scanned: seq<string>, path: string,
                  cache': map<string, seq<Item>>, scanned': seq<string>)
    requires forall p :: p in cache <==> p in scanned
    requires NoDuplicates(scanned) && Listed(listing, cache) && path !in cache
    requires cache' == cache[path := listing(path)] && scanned' == scanned + [path]
    ensures cache'.Keys == cache.Keys + {path}
    ensures forall p :: p in cache' <==> p in scanned'
    ensures NoDuplicates(scanned') && Listed(listing, cache')
  {
    forall p
      ensures p in cache' <==> p in scanned'
    {
      assert p in scanned' <==> p in scanned || p == path;
    }
  }

  /** The newly pending paths are subdirectories, so they stay inside the universe. */
  lemma StepPending(listing: string -> seq<Item>, universe: set<string>, pending: set<string>, path: string, pending': set<string>)
    requires forall p, w :: ChildOf(listing, p, w) ==> w in universe
    requires pending <= universe
    requires pending' == pending + Elems(SubdirPaths(listing(path)))
    ensures pending' <= universe
  {
    forall w | w in pending'
      ensures w in universe
    {
      if w !in pending {
        assert ChildOf(listing, path, w);
      }
    }
  }

  /** The scan order stays rooted, and the newly listed path was found in an earlier listing. */
  lemma StepOrder(listing: string -> seq<Item>, root: string, scanned: seq<string>, path: string, scanned': seq<string>)
    requires scanned == [] ==> path == root
    requires scanned != [] ==> scanned[0] == root
    requires forall i {:trigger FoundBefore(listing, scanned, i, scanned[i])} ::
      0 < i < |scanned| ==> FoundBefore(listing, scanned, i, scanned[i])
    requires scanned != [] ==> FoundBefore(listing, scanned, |scanned|, path)
    requires scanned' == scanned + [path]
    ensures scanned'[0] == root
    ensures forall i {:trigger FoundBefore(listing, scanned', i, scanned'[i])} ::
      0 < i < |scanned'| ==> FoundBefore(listing, scanned', i, scanned'[i])
  {
    forall i | 0 < i < |scanned'|
      ensures FoundBefore(listing, scanned', i, scanned'[i])
    {
      if i < |scanned| {
        assert FoundBefore(listing, scanned, i, scanned[i]);
        FoundPrefix(listing, scanned, path, i, scanned[i]);
      } else {
        FoundPrefix(listing, scanned, path, i, path);
      }
    }
  }

  /** Every pending path was found in a listing made so far. */
  lemma StepFound(listing: string -> seq<Item>, scanned: seq<string>, pending: set<string>, path: string,
                  pending': set<string>)
    requires scanned == [] ==> pending == {}
    requires scanned != [] ==> forall w :: w in pending ==> FoundBefore(listing, scanned, |scanned|, w)
    requires pending' == pending + Elems(SubdirPaths(listing(path)))
    ensures forall w :: w in pending' ==> FoundBefore(listing, scanned + [path], |scanned| + 1, w)
  {
    var scanned' := scanned + [path];
    forall w | w in pending'
      ensures FoundBefore(listing, scanned', |scanned'|, w)
    {
      if w !in pending {
        assert ChildOf(listing, scanned'[|scanned'| - 1], w);
      } else {
        assert FoundBefore(listing, scanned, |scanned|, w);
        FoundPrefix(listing, scanned, path, |scanned|, w);
        assert FoundBefore(listing, scanned', |scanned|, w);
      }
    }
  }

  /** Every subdirectory of a listed path is listed or still pending. */
  lemma StepClosed(listing: string -> seq<Item>, cache: map<string, seq<Item>>, pending: set<string>, path: string,
                   cache': map<string, seq<Item>>, pending': set<string>)
    requires forall p, w :: p in cache && ChildOf(listing, p, w) ==> w in cache || w in pending + {path}
    requires cache' == cache[path := listing(path)]
    requires pending' == pending + Elems(SubdirPaths(listing(path)))
    ensures forall p, w :: p in cache' && ChildOf(listing, p, w) ==> w in cache' || w in pending'
  {
  }

  /** Appending to the scan order keeps every earlier discovery. */
  lemma {:induction false} FoundPrefix(listing: string -> seq<Item>, scanned: seq<string>, path: string, i: nat, w: string)
    requires i <= |scanned|
    ensures FoundBefore(listing, scanned, i, w) == FoundBefore(listing, scanned + [path], i, w)
    decreases i
  {
    if i > 0 {
      assert (scanned + [path])[i - 1] == scanned[i - 1];
      FoundPrefix(listing, scanned, path, i - 1, w);
    }
  }

  /** `subdirs` in `ScanDirectoryRecursive`: the subdirectory entries' full paths, in listing order. */
  method Subdirectories(items: seq<Item>) returns (subdirs: seq<string>)
    ensures subdirs == SubdirPaths(items)
  {
    subdirs := [];
    var k := 0;
    while k < |items|
      invariant 0 <= k <= |items|
      invariant subdirs == SubdirPaths(items[..k])
    {
      assert items[..k + 1][..k] == items[..k];
      if items[k].isDirectory && items[k].name != "." && items[k].name != ".." {
        subdirs := subdirs + [items[k].fullPath];
      }
      k := k + 1;
    }
    assert items[..|items|] == items;
  }

  /** A scan order from `root` stays inside every closed set that holds `root`. */
  lemma ScanOrderWithin(listing: string -> seq<Item>, root: string, scanned: seq<string>, s: set<string>)
    requires ScanOrder(listing, root, scanned)
    requires root in s && ClosedSet(listing, s)
    ensures forall i :: 0 <= i < |scanned| ==> scanned[i] in s
  {
    forall i | 0 <= i < |scanned|
      ensures scanned[i] in s
    {
      PrefixWithin(listing, root, scanned, s, i);
    }
  }

  lemma {:induction false} PrefixWithin(listing: string -> seq<Item>, root: string, scanned: seq<string>, s: set<string>, i: nat)
    requires ScanOrder(listing, root, scanned)
    requires root in s && ClosedSet(listing, s)
    requires i < |scanned|
    ensures scanned[i] in s
    decreases i, 1
  {
    if i > 0 {
      assert FoundBefore(listing, scanned, i, scanned[i]);
      FoundWithin(listing, root, scanned, s, i, scanned[i]);
    }
  }

  lemma {:induction false} FoundWithin(listing: string -> seq<Item>, root: string, scanned: seq<string>, s: set<string>, j: nat, w: string)
    requires ScanOrder(listing, root, scanned)
    requires root in s && ClosedSet(listing, s)
    requires j < |scanned| && FoundBefore(listing, scanned, j, w)
    ensures w in s
    decreases j, 0
  {
    PrefixWithin(listing, root, scanned, s, j - 1);
    if !ChildOf(listing, scanned[j - 1], w) {
      FoundWithin(listing, root, scanned, s, j - 1, w);
    }
  }

  /**
   * The cache does not depend on the order the directories are visited in:
   * any two scans from the same root over the same server produce the same
   * cache, namely the least closed set of paths holding `root`, each mapped to
   * its listing. (The parallel scan of the source visits subdirectories in an
   * unspecified order.)
   */
  lemma ScanIsDeterministic(listing: string -> seq<Item>, root: string,
                            c1: map<string, seq<Item>>, s1: seq<string>,
                            c2: map<string, seq<Item>>, s2: seq<string>)
    requires root in c1 && Listed(listing, c1) && ClosedSet(listing, c1.Keys)
    requires forall p :: p in c1 <==> p in s1
    requires ScanOrder(listing, root, s1)
    requires root in c2 && Listed(listing, c2) && ClosedSet(listing, c2.Keys)
    requires forall p :: p in c2 <==> p in s2
    requires ScanOrder(listing, root, s2)
    ensures c1 == c2
  {
    ScanOrderWithin(listing, root, s1, c2.Keys);
    ScanOrderWithin(listing, root, s2, c1.Keys);
    assert c1.Keys == c2.Keys;
  }
}
