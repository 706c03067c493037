/**
 * The launcher's mod lists: the folders the user added (`Modlist`), the mods
 * selected to start with the game (`StartupModsList`), and how a node picked
 * in the folder tree finds the `@` folder of the mod it belongs to.
 */
module Mods {
  import opened Text
  import opened Paths

  /** No path occurs twice. */
  predicate Distinct(s: seq<string>) {
    forall i, j :: 0 <= i < j < |s| ==> s[i] != s[j]
  }

  /** `List.Remove(x)`: the first occurrence of `x` taken out; a list without `x` is returned as it is. */
  function RemoveFirst(s: seq<string>, x: string): (r: seq<string>)
    ensures x !in s ==> r == s
    ensures x in s ==> |r| == |s| - 1
  {
    if s == [] then []
    else if s[0] == x then s[1..]
    else [s[0]] + RemoveFirst(s[1..], x)
  }

  /**
   * Removing the first occurrence, at index `i`, keeps everything before it
   * and everything after it in order.
   */
  lemma {:induction false} RemoveFirstAt(s: seq<string>, x: string, i: nat)
    requires i < |s| && s[i] == x && x !in s[..i]
    ensures RemoveFirst(s, x) == s[..i] + s[i + 1..]
    decreases i
  {
    if i > 0 {
      assert s[0] in s[..i];
      assert s[1..][..i - 1] == s[1..i];
      RemoveFirstAt(s[1..], x, i - 1);
      assert s[1..][i..] == s[i + 1..];
      assert [s[0]] + s[1..i] == s[..i];
    }
  }

  /** In a list without duplicates, removing a path leaves no copy of it and no duplicates. */
  lemma RemoveFirstDistinct(s: seq<string>, x: string)
    requires Distinct(s)
    ensures x !in RemoveFirst(s, x)
    ensures Distinct(RemoveFirst(s, x))
    ensures forall y :: y in RemoveFirst(s, x) <==> y in s && y != x
  {
    if x in s {
      var i :| 0 <= i < |s| && s[i] == x;
      assert x !in s[..i];
      RemoveFirstAt(s, x, i);
      CutMembers(s, i);
      CutDistinct(s, i);
    }
  }

  /** Cutting out index `i` keeps exactly the other elements. */
  lemma CutMembers(s: seq<string>, i: nat)
    requires i < |s| && Distinct(s)
    ensures forall y :: y in s[..i] + s[i + 1..] <==> y in s && y != s[i]
  {
    var r := s[..i] + s[i + 1..];
    forall y
      ensures y in r <==> y in s && y != s[i]
    {
      if y in r {
        var k :| 0 <= k < |r| && r[k] == y;
        if k < i {
          assert y == s[k];
        } else {
          assert y == s[k + 1];
        }
      }
      if y in s && y != s[i] {
        var k :| 0 <= k < |s| && s[k] == y;
        if k < i {
          assert r[k] == y;
        } else {
          assert r[k - 1] == y;
        }
      }
    }
  }

  /** Cutting out one element keeps a list free of duplicates. */
  lemma CutDistinct(s: seq<string>, i: nat)
    requires i < |s| && Distinct(s)
    ensures Distinct(s[..i] + s[i + 1..])
  {
    var r := s[..i] + s[i + 1..];
    forall a, b | 0 <= a < b < |r|
      ensures r[a] != r[b]
    {
      var a', b' := if a < i then a else a + 1, if b < i then b else b + 1;
      assert r[a] == s[a'] && r[b] == s[b'];
    }
  }

  /** Appending a path that is not yet present keeps a list free of duplicates. */
  lemma AppendDistinct(s: seq<string>, x: string)
    requires Distinct(s) && x !in s
    ensures Distinct(s + [x])
  {
    var r := s + [x];
    forall a, b | 0 <= a < b < |r|
      ensures r[a] != r[b]
    {
      if b == |s| {
        assert r[a] == s[a];
      }
    }
  }

  /** The folder name of `path` starts with `@`, the mark of an Arma 3 mod folder. */
  predicate IsModFolder(path: string) {
    StartsWith(GetFileName(path), "@")
  }

  /** A tree node tag that is a path whose folder is a mod folder. */
  predicate IsModTag(tag: Option<string>) {
    tag.Some? && IsModFolder(tag.value)
  }

  /** The nearest of `ancestors[from..]` whose tag marks a mod folder, if any. */
  function NearestModTag(ancestors: seq<Option<string>>, from: nat): (r: Option<string>)
    requires from <= |ancestors|
    ensures r.Some? ==> IsModTag(r)
    decreases |ancestors| - from
  {
    if from == |ancestors| then None
    else if IsModTag(ancestors[from]) then ancestors[from]
    else NearestModTag(ancestors, from + 1)
  }

  /** The tag found is the first mod tag from `from` on; none is found only when there is none. */
  lemma {:induction false} NearestModTagSpec(ancestors: seq<Option<string>>, from: nat)
    requires from <= |ancestors|
    ensures NearestModTag(ancestors, from).Some? ==>
      exists k :: from <= k < |ancestors| && ancestors[k] == NearestModTag(ancestors, from) &&
        forall j :: from <= j < k ==> !IsModTag(ancestors[j])
    ensures NearestModTag(ancestors, from).None? ==> forall k :: from <= k < |ancestors| ==> !IsModTag(ancestors[k])
    decreases |ancestors| - from
  {
    if from < |ancestors| && !IsModTag(ancestors[from]) {
      NearestModTagSpec(ancestors, from + 1);
      if NearestModTag(ancestors, from).Some? {
        var k :| from + 1 <= k < |ancestors| && ancestors[k] == NearestModTag(ancestors, from + 1) &&
          forall j :: from + 1 <= j < k ==> !IsModTag(ancestors[j]);
        assert forall j :: from <= j < k ==> !IsModTag(ancestors[j]);
      }
    }
  }

  class ModManager {
    var modlist: seq<string>
    var startupModsList: seq<string>

    /** Neither list holds a path twice. */
    ghost predicate Valid()
      reads this
    {
      Distinct(modlist) && Distinct(startupModsList)
    }

    constructor ()
      ensures modlist == [] && startupModsList == []
      ensures Valid()
    {
      modlist := [];
      startupModsList := [];
    }

    /** `AddMod`: appends a path that is not yet listed; a listed path leaves the list as it was. */
    method AddMod(modPath: string)
      modifies this
      ensures modPath in old(modlist) ==> modlist == old(modlist)
      ensures modPath !in old(modlist) ==> modlist == old(modlist) + [modPath]
      ensures startupModsList == old(startupModsList)
      ensures old(Valid()) ==> Valid()
    {
      if modPath !in modlist {
        if Distinct(modlist) {
          AppendDistinct(modlist, modPath);
        }
        modlist := modlist + [modPath];
      }
    }

    /** `RemoveMod`: takes a listed path out, keeping the others in order; an unlisted path changes nothing. */
    method RemoveMod(modPath: string)
      modifies this
      ensures modPath !in old(modlist) ==> modlist == old(modlist)
      ensures modPath in old(modlist) ==> modlist == RemoveFirst(old(modlist), modPath)
      ensures old(Valid()) ==> Valid() && modPath !in modlist
      ensures startupModsList == old(startupModsList)
    {
      if modPath in modlist {
        if Distinct(modlist) {
          RemoveFirstDistinct(modlist, modPath);
        }
        modlist := RemoveFirst(modlist, modPath);
      }
    }

    /** `AddStartupMod`: appends a path that is not yet selected; selecting it again changes nothing. */
    method AddStartupMod(modPath: string)
      modifies this
      ensures modPath in old(startupModsList) ==> startupModsList == old(startupModsList)
      ensures modPath !in old(startupModsList) ==> startupModsList == old(startupModsList) + [modPath]
      ensures modPath in startupModsList
      ensures modlist == old(modlist)
      ensures old(Valid()) ==> Valid()
    {
      if modPath !in startupModsList {
        if Distinct(startupModsList) {
          AppendDistinct(startupModsList, modPath);
        }
        startupModsList := startupModsList + [modPath];
      }
    }
  }

  /**
   * `FindModStartDirectory`: `tag` is the node's own tag (`None` when it is
   * not a string) and `ancestors` the tags of the tree nodes above it, nearest
   * first. No tag gives `None`; a tag naming a mod folder is returned; else
   * the nearest ancestor tag naming a mod folder; else the node's own tag.
   */
  method FindModStartDirectory(tag: Option<string>, ancestors: seq<Option<string>>) returns (r: Option<string>)
    ensures tag.None? ==> r.None?
    ensures IsModTag(tag) ==> r == tag
    ensures tag.Some? && !IsModTag(tag) ==>
      r == (if NearestModTag(ancestors, 0).Some? then NearestModTag(ancestors, 0) else tag)
  {
    if tag.None? {
      return None;
    }
    var path := tag.value;
    if IsModFolder(path) {
      return Some(path);
    }
    var i := 0;
    while i < |ancestors|
      invariant 0 <= i <= |ancestors|
      invariant NearestModTag(ancestors, 0) == NearestModTag(ancestors, i)
    {
      var parentPath := ancestors[i];
      if parentPath.Some? && IsModFolder(parentPath.value) {
        return parentPath;
      }
      i := i + 1;
    }
    return Some(path);
  }
}
