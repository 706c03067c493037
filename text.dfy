/**
 * String operations with the semantics of the .NET calls the application makes:
 * `String.Split`, `String.Join`, `Trim`/`TrimEnd`, `ToLower` on the keywords it
 * compares against, `long.TryParse` and `int.ToString`.
 */
module Text {

  datatype Option<+T> = None | Some(value: T)

  /** The characters `char.IsWhiteSpace` accepts: those with the Unicode White_Space property. */
  const WhiteSpace: set<char> := {
    ' ', '\t', '\n', '\U{B}', '\U{C}', '\r', '\U{85}', '\U{A0}', '\U{1680}',
    '\U{2000}', '\U{2001}', '\U{2002}', '\U{2003}', '\U{2004}', '\U{2005}',
    '\U{2006}', '\U{2007}', '\U{2008}', '\U{2009}', '\U{200A}',
    '\U{2028}', '\U{2029}', '\U{202F}', '\U{205F}', '\U{3000}'}

  predicate IsWhiteSpace(c: char) {
    c in WhiteSpace
  }

  /** Every character of `s` is in `cs`. */
  predicate AllIn(s: string, cs: set<char>) {
    forall i :: 0 <= i < |s| ==> s[i] in cs
  }

  /** `string.IsNullOrWhiteSpace` for a non-null string. */
  predicate IsBlank(s: string) {
    AllIn(s, WhiteSpace)
  }

  /** No character of `s` is in `cs`. */
  predicate Avoids(s: string, cs: set<char>) {
    forall i :: 0 <= i < |s| ==> s[i] !in cs
  }

  predicate IsDigit(c: char) {
    '0' <= c <= '9'
  }

  predicate StartsWith(s: string, prefix: string) {
    |prefix| <= |s| && s[..|prefix|] == prefix
  }

  /** The first index at or after `k` whose character is not in `cs`, or the length. */
  function SkipFrom(s: string, cs: set<char>, k: nat): (n: nat)
    requires k <= |s|
    ensures k <= n <= |s| && (n < |s| ==> s[n] !in cs)
    ensures forall i :: k <= i < n ==> s[i] in cs
    decreases |s| - k
  {
    if k < |s| && s[k] in cs then SkipFrom(s, cs, k + 1) else k
  }

  /** One past the last index below `k` whose character is not in `cs`, or 0. */
  function KeepBelow(s: string, cs: set<char>, k: nat): (n: nat)
    requires k <= |s|
    ensures n <= k && (n > 0 ==> s[n - 1] !in cs)
    ensures forall i :: n <= i < k ==> s[i] in cs
    decreases k
  {
    if k > 0 && s[k - 1] in cs then KeepBelow(s, cs, k - 1) else k
  }

  /** Removes the longest prefix of characters in `cs` (`TrimStart(params char[])`). */
  function TrimStartOf(s: string, cs: set<char>): (r: string)
    ensures |r| <= |s| && r == s[|s| - |r|..]
    ensures r == [] || r[0] !in cs
    ensures forall i :: 0 <= i < |s| - |r| ==> s[i] in cs
  {
    s[SkipFrom(s, cs, 0)..]
  }

  /** Removes the longest suffix of characters in `cs` (`TrimEnd(params char[])`). */
  function TrimEndOf(s: string, cs: set<char>): (r: string)
    ensures |r| <= |s| && r == s[..|r|]
    ensures r == [] || r[|r| - 1] !in cs
    ensures forall i :: |r| <= i < |s| ==> s[i] in cs
  {
    s[..KeepBelow(s, cs, |s|)]
  }

  /** `OccursAt(s, t, i)`: `s` holds `t` starting at index `i`. */
  predicate OccursAt(s: string, t: string, i: int) {
    0 <= i && i + |t| <= |s| && s[i..i + |t|] == t
  }

  /**
   * Removes the longest prefix and the longest suffix of characters in `cs`:
   * the text between the first and the last character not in `cs`.
   */
  function TrimOf(s: string, cs: set<char>): (r: string)
    ensures |r| <= |s|
    ensures r == [] || (r[0] !in cs && r[|r| - 1] !in cs)
  {
    var i := SkipFrom(s, cs, 0);
    if i == |s| then [] else s[i..KeepBelow(s, cs, |s|)]
  }

  /**
   * What `TrimOf` keeps: `s` is its result surrounded by characters of `cs`
   * only, and the result is empty exactly when `s` is made of them.
   */
  lemma TrimOfSpec(s: string, cs: set<char>)
    ensures exists i :: OccursAt(s, TrimOf(s, cs), i) && AllIn(s[..i], cs) && AllIn(s[i + |TrimOf(s, cs)|..], cs)
    ensures AllIn(s, cs) <==> TrimOf(s, cs) == []
  {
    var i := SkipFrom(s, cs, 0);
    var r := TrimOf(s, cs);
    if i == |s| {
      assert OccursAt(s, r, i);
    } else {
      var j := KeepBelow(s, cs, |s|);
      assert i < j;
      assert OccursAt(s, r, i);
      assert AllIn(s[j..], cs);
      assert s[i] !in cs;
    }
  }

  /** `String.Trim()`: white space removed from both ends. */
  function Trim(s: string): (r: string)
    ensures |r| <= |s|
    ensures r == [] || (!IsWhiteSpace(r[0]) && !IsWhiteSpace(r[|r| - 1]))
  {
    TrimOf(s, WhiteSpace)
  }

  /**
   * What `Trim` keeps: `s` is its result surrounded by white space only, and
   * the result is empty exactly when `s` is blank.
   */
  lemma TrimSpec(s: string)
    ensures exists i :: OccursAt(s, Trim(s), i) && IsBlank(s[..i]) && IsBlank(s[i + |Trim(s)|..])
    ensures IsBlank(s) <==> Trim(s) == []
  {
    TrimOfSpec(s, WhiteSpace);
  }

  /** Neither empty nor starting or ending with white space. */
  predicate Bare(s: string) {
    s != [] && !IsWhiteSpace(s[0]) && !IsWhiteSpace(s[|s| - 1])
  }

  /** A string that neither starts nor ends with white space is its own trim. */
  lemma TrimUnchanged(s: string)
    requires Bare(s)
    ensures Trim(s) == s
  {
    assert TrimStartOf(s, WhiteSpace) == s;
    assert TrimEndOf(s, WhiteSpace) == s;
  }

  /** ASCII letters fold to lower case; every other character is kept. */
  function LowerChar(c: char): char {
    if 'A' <= c <= 'Z' then (c as int + 32) as char else c
  }

  /** ASCII letters fold to upper case; the case-insensitive sets compare by this (ASCII only). */
  function UpperChar(c: char): char {
    if 'a' <= c <= 'z' then (c as int - 32) as char else c
  }

  /** `ToLower` on ASCII letters. */
  function Lower(s: string): string {
    seq(|s|, i requires 0 <= i < |s| => LowerChar(s[i]))
  }

  /** A string with no upper-case ASCII letter is its own lower-case form. */
  lemma LowerUnchanged(s: string)
    requires forall i :: 0 <= i < |s| ==> !('A' <= s[i] <= 'Z')
    ensures Lower(s) == s
  {
  }

  /** The key the case-insensitive sets compare by. */
  function Upper(s: string): string {
    seq(|s|, i requires 0 <= i < |s| => UpperChar(s[i]))
  }

  /**
   * What lower-casing promises a caller: no capital A-Z is left, the text
   * keeps its length and differs from the input at most in letter case, so
   * it upper-cases like the input, and lower-casing again changes nothing.
   */
  lemma LowerSpec(s: string)
    ensures |Lower(s)| == |s| && forall i :: 0 <= i < |s| ==> !('A' <= Lower(s)[i] <= 'Z')
    ensures SameIgnoringCase(Lower(s), s)
    ensures Upper(Lower(s)) == Upper(s)
    ensures Lower(Lower(s)) == Lower(s)
  {
    UpperIgnoresCase(Lower(s), s);
    LowerUnchanged(Lower(s));
  }

  /** Two characters differ at most in the case of an ASCII letter: equal, or equal once lower-cased. */
  predicate SameCharIgnoringCase(c: char, d: char) {
    c == d || LowerChar(c) == LowerChar(d)
  }

  /** Two strings differ at most in the case of ASCII letters, character by character. */
  predicate SameIgnoringCase(a: string, b: string) {
    |a| == |b| && forall i :: 0 <= i < |a| ==> SameCharIgnoringCase(a[i], b[i])
  }

  /** Upper-casing two characters gives the same character exactly when they differ at most in case. */
  lemma UpperCharIgnoresCase(c: char, d: char)
    ensures UpperChar(c) == UpperChar(d) <==> SameCharIgnoringCase(c, d)
  {
  }

  /** Two strings upper-case alike exactly when they differ at most in the case of ASCII letters. */
  lemma UpperIgnoresCase(a: string, b: string)
    ensures Upper(a) == Upper(b) <==> SameIgnoringCase(a, b)
  {
    if |a| == |b| {
      forall i | 0 <= i < |a|
        ensures Upper(a)[i] == Upper(b)[i] <==> SameCharIgnoringCase(a[i], b[i])
      {
        UpperCharIgnoresCase(a[i], b[i]);
      }
      if SameIgnoringCase(a, b) {
        assert Upper(a) == Upper(b);
      }
    } else {
      assert |Upper(a)| != |Upper(b)|;
    }
  }

  /**
   * `s.Split(separators)` with no options: the pieces between separator
   * characters, empty pieces included.
   */
  function Split(s: string, seps: set<char>): (r: seq<string>)
    ensures |r| >= 1
    decreases |s|
  {
    if s == [] then [[]]
    else if s[0] in seps then [[]] + Split(s[1..], seps)
    else
      var t := Split(s[1..], seps);
      [[s[0]] + t[0]] + t[1..]
  }

  /** `string.Join(separator, parts)`. */
  function Join(sep: string, parts: seq<string>): string
    decreases |parts|
  {
    if |parts| == 0 then []
    else if |parts| == 1 then parts[0]
    else parts[0] + sep + Join(sep, parts[1..])
  }

  /** Joining the pieces of a split on one character with that character gives back the input. */
  lemma {:induction false} JoinSplit(s: string, c: char)
    ensures Join([c], Split(s, {c})) == s
    decreases |s|
  {
    if s == [] {
    } else if s[0] == c {
      JoinSplit(s[1..], c);
      var t := Split(s[1..], {c});
      assert Split(s, {c}) == [[]] + t;
      assert s == [c] + s[1..];
    } else {
      JoinSplit(s[1..], c);
      var t := Split(s[1..], {c});
      assert Split(s, {c}) == [[s[0]] + t[0]] + t[1..];
      if |t| == 1 {
      } else {
        assert Join([c], [[s[0]] + t[0]] + t[1..]) == [s[0]] + t[0] + [c] + Join([c], t[1..]);
        assert Join([c], t) == t[0] + [c] + Join([c], t[1..]);
      }
    }
  }

  /** Splitting a join at its separator character gives back the parts, when no part holds that character. */
  lemma {:induction false} SplitJoin(parts: seq<string>, c: char)
    requires parts != []
    requires forall k, i :: 0 <= k < |parts| && 0 <= i < |parts[k]| ==> parts[k][i] != c
    ensures Split(Join([c], parts), {c}) == parts
    decreases |parts|
  {
    if |parts| == 1 {
      SplitNoSeparator(parts[0], {c});
    } else {
      SplitJoin(parts[1..], c);
      SplitAtSeparator(parts[0], c, Join([c], parts[1..]), {c});
      SplitNoSeparator(parts[0], {c});
      assert [parts[0]] + parts[1..] == parts;
    }
  }

  /** A string without separators is split into itself alone. */
  lemma {:induction false} SplitNoSeparator(s: string, seps: set<char>)
    requires forall i :: 0 <= i < |s| ==> s[i] !in seps
    ensures Split(s, seps) == [s]
    decreases |s|
  {
    if s != [] {
      SplitNoSeparator(s[1..], seps);
      assert [s[0]] + s[1..] == s;
    }
  }

  /** Splitting at one separator character splits the two sides independently. */
  lemma {:induction false} SplitAtSeparator(x: string, c: char, y: string, seps: set<char>)
    requires c in seps
    ensures Split(x + [c] + y, seps) == Split(x, seps) + Split(y, seps)
    decreases |x|
  {
    var s := x + [c] + y;
    if x == [] {
      assert s[1..] == y;
    } else {
      assert s[1..] == x[1..] + [c] + y;
      SplitAtSeparator(x[1..], c, y, seps);
      if x[0] !in seps {
        var t := Split(x[1..], seps);
        assert Split(x[1..] + [c] + y, seps)[0] == t[0];
      }
    }
  }

  /** No piece of a split holds a separator. */
  lemma {:induction false} SplitAvoids(s: string, seps: set<char>)
    ensures forall k, i :: 0 <= k < |Split(s, seps)| && 0 <= i < |Split(s, seps)[k]| ==> Split(s, seps)[k][i] !in seps
    decreases |s|
  {
    if s != [] {
      SplitAvoids(s[1..], seps);
      if s[0] !in seps {
        var t := Split(s[1..], seps);
        forall i | 0 <= i < |[s[0]] + t[0]| ensures ([s[0]] + t[0])[i] !in seps {
          if i > 0 {
            assert ([s[0]] + t[0])[i] == t[0][i - 1];
          }
        }
      }
    }
  }

  /** The non-empty elements, in order (`StringSplitOptions.RemoveEmptyEntries`). */
  function NonEmpty(parts: seq<string>): (r: seq<string>)
    ensures forall k :: 0 <= k < |r| ==> r[k] != []
    ensures |r| <= |parts|
  {
    if parts == [] then []
    else if parts[0] == [] then NonEmpty(parts[1..])
    else [parts[0]] + NonEmpty(parts[1..])
  }

  lemma {:induction false} NonEmptyAppend(a: seq<string>, b: seq<string>)
    ensures NonEmpty(a + b) == NonEmpty(a) + NonEmpty(b)
    decreases |a|
  {
    if a == [] {
      assert a + b == b;
    } else {
      assert (a + b)[1..] == a[1..] + b;
      NonEmptyAppend(a[1..], b);
    }
  }

  /** `s.Split(separators, StringSplitOptions.RemoveEmptyEntries)`. */
  function Tokens(s: string, seps: set<char>): seq<string> {
    NonEmpty(Split(s, seps))
  }

  /** Tokens are non-empty and hold no separator. */
  lemma TokensSpec(s: string, seps: set<char>)
    ensures forall k :: 0 <= k < |Tokens(s, seps)| ==> Tokens(s, seps)[k] != []
    ensures forall k, i :: 0 <= k < |Tokens(s, seps)| && 0 <= i < |Tokens(s, seps)[k]| ==> Tokens(s, seps)[k][i] !in seps
  {
    SplitAvoids(s, seps);
    NonEmptyAvoids(Split(s, seps), seps);
  }

  lemma {:induction false} NonEmptyAvoids(parts: seq<string>, seps: set<char>)
    requires forall k, i :: 0 <= k < |parts| && 0 <= i < |parts[k]| ==> parts[k][i] !in seps
    ensures forall k, i :: 0 <= k < |NonEmpty(parts)| && 0 <= i < |NonEmpty(parts)[k]| ==> NonEmpty(parts)[k][i] !in seps
    decreases |parts|
  {
    if parts != [] {
      NonEmptyAvoids(parts[1..], seps);
    }
  }

  /** A separator character between two pieces separates their tokens and nothing more. */
  lemma TokensAtSeparator(x: string, c: char, y: string, seps: set<char>)
    requires c in seps
    ensures Tokens(x + [c] + y, seps) == Tokens(x, seps) + Tokens(y, seps)
  {
    SplitAtSeparator(x, c, y, seps);
    NonEmptyAppend(Split(x, seps), Split(y, seps));
  }

  /** A non-empty string without separators is one token. */
  lemma TokensNoSeparator(s: string, seps: set<char>)
    requires s != [] && forall i :: 0 <= i < |s| ==> s[i] !in seps
    ensures Tokens(s, seps) == [s]
  {
    SplitNoSeparator(s, seps);
  }

  /** The first index at or after `from` where `pat` occurs in `s`, if any. */
  function IndexFrom(s: string, pat: string, from: nat): (r: Option<nat>)
    requires pat != [] && from <= |s|
    ensures r.Some? ==> from <= r.value && OccursAt(s, pat, r.value)
    ensures r.Some? ==> forall j :: from <= j < r.value ==> !OccursAt(s, pat, j)
    ensures r.None? ==> forall j :: from <= j ==> !OccursAt(s, pat, j)
    decreases |s| - from
  {
    if from + |pat| > |s| then None
    else if s[from..from + |pat|] == pat then Some(from)
    else IndexFrom(s, pat, from + 1)
  }

  /**
   * `s.Split(new[] { sep }, 2, StringSplitOptions.None)` when it yields two parts:
   * the text before the first occurrence of `sep` and everything after it.
   */
  function SplitOnce(s: string, sep: string): (r: Option<(string, string)>)
    requires sep != []
    ensures r.Some? <==> exists j :: OccursAt(s, sep, j)
    ensures r.Some? ==> s == r.value.0 + sep + r.value.1
    ensures r.Some? ==> forall j :: OccursAt(s, sep, j) ==> |r.value.0| <= j
  {
    match IndexFrom(s, sep, 0)
    case None => None
    case Some(i) =>
      assert s == s[..i] + s[i..i + |sep|] + s[i + |sep|..];
      Some((s[..i], s[i + |sep|..]))
  }

  /** The decimal digits of a natural number, most significant first, no leading zeros. */
  function NatToString(n: nat): (r: string)
    ensures |r| >= 1 && forall i :: 0 <= i < |r| ==> IsDigit(r[i])
    ensures |r| > 1 ==> r[0] != '0'
  {
    if n < 10 then [(n + '0' as int) as char]
    else NatToString(n / 10) + [(n % 10 + '0' as int) as char]
  }

  /** `int.ToString()` with the invariant culture's minus sign. */
  function IntToString(n: int): (r: string)
    ensures |r| >= 1 && (r[0] == '-' <==> n < 0)
  {
    if n < 0 then "-" + NatToString(-n) else NatToString(n)
  }

  /** The value of a run of decimal digits. */
  function DigitsValue(ds: string): (v: nat)
    requires forall i :: 0 <= i < |ds| ==> IsDigit(ds[i])
    decreases |ds|
  {
    if ds == [] then 0
    else
      var d := ds[|ds| - 1];
      assert IsDigit(d);
      DigitsValue(ds[..|ds| - 1]) * 10 + (d as int - '0' as int)
  }

  lemma {:induction false} DigitsValueOfNatToString(n: nat)
    ensures DigitsValue(NatToString(n)) == n
  {
    if n >= 10 {
      DigitsValueOfNatToString(n / 10);
      var s := NatToString(n);
      assert s[..|s| - 1] == NatToString(n / 10);
    }
  }

  const MinLong: int := -0x8000_0000_0000_0000
  const MaxLong: int := 0x7FFF_FFFF_FFFF_FFFF

  /** The white space `long.TryParse` skips around a number: U+0009 to U+000D and U+0020. */
  const NumberWhite: set<char> := {' ', '\t', '\n', '\U{B}', '\U{C}', '\r'}

  predicate IsNumberWhite(c: char) {
    c in NumberWhite
  }

  /** The first index at or after `k` that does not hold a digit, or the length. */
  function DigitsEnd(s: string, k: nat): (n: nat)
    requires k <= |s|
    ensures k <= n <= |s| && (n < |s| ==> !IsDigit(s[n]))
    ensures forall i :: k <= i < n ==> IsDigit(s[i])
    decreases |s| - k
  {
    if k < |s| && IsDigit(s[k]) then DigitsEnd(s, k + 1) else k
  }

  /** The longest prefix of digits. */
  function DigitPrefix(s: string): (r: string)
    ensures |r| <= |s| && r == s[..|r|]
    ensures forall i :: 0 <= i < |r| ==> IsDigit(r[i])
    ensures |r| < |s| ==> !IsDigit(s[|r|])
  {
    s[..DigitsEnd(s, 0)]
  }

  /** Removes the longest prefix of `long.TryParse` white space. */
  function SkipNumberWhite(s: string): (r: string)
    ensures |r| <= |s| && r == s[|s| - |r|..]
    ensures r == [] || !IsNumberWhite(r[0])
  {
    TrimStartOf(s, NumberWhite)
  }

  /** What may follow the digits: white space, then any number of NUL characters. */
  predicate TrailingAccepted(rest: string) {
    var t := SkipNumberWhite(rest);
    forall i :: 0 <= i < |t| ==> t[i] == '\0'
  }

  /** The text after an optional leading sign, and whether that sign was `-`. */
  function Unsigned(a: string): (r: (bool, string))
    ensures r.1 == a || (a != [] && r.1 == a[1..])
  {
    if a != [] && a[0] == '-' then (true, a[1..])
    else if a != [] && a[0] == '+' then (false, a[1..])
    else (false, a)
  }

  /**
   * `long.TryParse(s, out v)` with `NumberStyles.Integer` and the invariant
   * signs: optional white space, an optional `+` or `-`, one or more ASCII
   * digits, optional white space (then NULs), and a value that fits in 64 bits.
   */
  function ParseLong(s: string): (r: Option<int>)
    ensures r.Some? ==> MinLong <= r.value <= MaxLong
  {
    var u := Unsigned(SkipNumberWhite(s));
    ParseDigits(u.0, u.1)
  }

  /** The digits part of `ParseLong`, after the sign has been read. */
  function ParseDigits(negative: bool, b: string): (r: Option<int>)
    ensures r.Some? ==> MinLong <= r.value <= MaxLong
  {
    var digits := DigitPrefix(b);
    if digits == [] || !TrailingAccepted(b[|digits|..]) then None
    else InRange(Signed(negative, DigitsValue(digits)))
  }

  function Signed(negative: bool, m: nat): int {
    if negative then -(m as int) else m
  }

  /** The value when it fits in a 64-bit signed integer. */
  function InRange(v: int): Option<int> {
    if MinLong <= v <= MaxLong then Some(v) else None
  }

  /** Every number `int.ToString` prints for a 64-bit value reads back as that value. */
  lemma ParseLongOfIntToString(n: int)
    requires MinLong <= n <= MaxLong
    ensures ParseLong(IntToString(n)) == Some(n)
  {
    var m: nat := if n < 0 then -n else n;
    var ds := NatToString(m);
    DigitsValueOfNatToString(m);
    ParseDigitsOfDigits(n < 0, ds);
    var s := IntToString(n);
    assert !IsNumberWhite(s[0]);
    assert SkipNumberWhite(s) == s;
    if n < 0 {
      assert s == "-" + ds;
      assert s[1..] == ds;
    }
    assert Unsigned(s) == (n < 0, ds);
  }

  /** Digits and nothing after them parse to their value, signed, when it fits. */
  lemma ParseDigitsOfDigits(negative: bool, ds: string)
    requires ds != [] && forall i :: 0 <= i < |ds| ==> IsDigit(ds[i])
    ensures ParseDigits(negative, ds) == InRange(Signed(negative, DigitsValue(ds)))
  {
    DigitPrefixOfDigits(ds);
    assert ds[|ds|..] == [];
    assert TrailingAccepted(ds[|ds|..]);
  }

  lemma {:induction false} DigitPrefixOfDigits(ds: string)
    requires forall i :: 0 <= i < |ds| ==> IsDigit(ds[i])
    ensures DigitPrefix(ds) == ds
  {
    if ds != [] {
      DigitPrefixOfDigits(ds[1..]);
    }
  }
}
