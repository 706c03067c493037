/**
 * Windows path strings as `System.IO.Path` treats them: `\` is the directory
 * separator, `/` the alternative one, and `X:` a drive prefix.
 */
module Paths {
  import opened Text

  const Separator: char := '\\'

  predicate IsSeparator(c: char) {
    c == '\\' || c == '/'
  }

  predicate IsDriveLetter(c: char) {
    ('A' <= c <= 'Z') || ('a' <= c <= 'z')
  }

  /** `Path.IsPathRooted`: a leading separator or a drive prefix such as `C:`. */
  predicate IsRooted(p: string) {
    (|p| >= 1 && IsSeparator(p[0])) || (|p| >= 2 && IsDriveLetter(p[0]) && p[1] == ':')
  }

  /** Concatenation with one separator in between unless `a` already ends with one. */
  function Join2(a: string, b: string): (r: string)
    requires a != []
    ensures IsSeparator(a[|a| - 1]) ==> r == a + b
    ensures !IsSeparator(a[|a| - 1]) ==> r == a + [Separator] + b
  {
    if IsSeparator(a[|a| - 1]) then a + b else a + [Separator] + b
  }

  /**
   * `Path.Combine(a, b)`: an empty part is ignored, a rooted `b` replaces `a`,
   * and otherwise the two are joined by a separator.
   */
  function Combine(a: string, b: string): (r: string)
    ensures b == [] ==> r == a
    ensures b != [] && (a == [] || IsRooted(b)) ==> r == b
    ensures a != [] && b != [] && !IsRooted(b) ==>
      |a| + |b| <= |r| <= |a| + |b| + 1 && StartsWith(r, a) && r[|r| - |b|..] == b
  {
    if b == [] then a
    else if a == [] then b
    else if IsRooted(b) then b
    else Join2(a, b)
  }

  /**
   * `Path.Combine(a, b, c)` as the runtime computes it in one pass: empty parts
   * are dropped, the last rooted part wins, and the rest are joined.
   */
  function Combine3(a: string, b: string, c: string): string {
    if a == [] then Combine(b, c)
    else if b == [] then Combine(a, c)
    else if c == [] then Combine(a, b)
    else if IsRooted(c) then c
    else if IsRooted(b) then Combine(b, c)
    else Join2(Join2(a, b), c)
  }

  /** The three-part combine is the two-part one applied twice. */
  lemma Combine3IsNested(a: string, b: string, c: string)
    ensures Combine3(a, b, c) == Combine(Combine(a, b), c)
  {
    if a != [] && b != [] && c != [] && !IsRooted(c) && !IsRooted(b) {
      var ab := Join2(a, b);
      assert ab[|ab| - 1] == b[|b| - 1];
    }
  }

  /** The index just after the last separator, never inside a drive prefix. */
  function NameStart(p: string): (i: nat)
    ensures i <= |p|
    ensures forall j :: i <= j < |p| ==> !IsSeparator(p[j])
    ensures i > 0 ==> IsSeparator(p[i - 1]) || (i == 2 && p[1] == ':')
    decreases |p|
  {
    if p == [] then 0
    else if IsSeparator(p[|p| - 1]) then |p|
    else if |p| == 2 && IsRooted(p) && !IsSeparator(p[0]) then 2
    else NameStart(p[..|p| - 1])
  }

  /** `Path.GetFileName`: the text after the last separator or drive prefix. */
  function GetFileName(p: string): (r: string)
    ensures |r| <= |p| && r == p[|p| - |r|..]
    ensures forall j :: 0 <= j < |r| ==> !IsSeparator(r[j])
  {
    p[NameStart(p)..]
  }

  /** Appending a separator-free name to a directory path makes that name the file name. */
  lemma {:induction false} GetFileNameOfCombine(dir: string, name: string)
    requires dir != [] && name != []
    requires forall j :: 0 <= j < |name| ==> !IsSeparator(name[j])
    requires !IsRooted(name)
    ensures GetFileName(Combine(dir, name)) == name
  {
    var p := Combine(dir, name);
    assert IsSeparator(p[|p| - |name| - 1]);
    NameStartAfterSeparator(p, |p| - |name|);
  }

  lemma {:induction false} NameStartAfterSeparator(p: string, k: nat)
    requires 0 < k <= |p| && IsSeparator(p[k - 1])
    requires forall j :: k <= j < |p| ==> !IsSeparator(p[j])
    ensures NameStart(p) == k
    decreases |p|
  {
    if k < |p| {
      var q := p[..|p| - 1];
      assert !IsSeparator(p[|p| - 1]);
      if |p| == 2 {
        assert k == 1 && IsSeparator(p[0]);
      }
      NameStartAfterSeparator(q, k);
    }
  }
}
