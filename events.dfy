/**
 * The two path helpers of `EventManager`: turning an event name into a folder
 * name and placing that folder under the download location.
 */
module Events {
  import opened Text
  import opened Paths

  /**
   * `Path.GetInvalidFileNameChars()` on Windows: the control characters
   * U+0000 to U+001F and `"`, `<`, `>`, `|`, `:`, `*`, `?`, `\` and `/`.
   */
  predicate IsInvalidFileNameChar(c: char) {
    c < ' ' || c == '"' || c == '<' || c == '>' || c == '|' || c == ':' || c == '*'
    || c == '?' || c == '\\' || c == '/'
  }

  /** Characters the sanitiser itself writes or trims must not be invalid ones. */
  predicate UsableInvalidSet(invalid: set<char>) {
    '_' !in invalid && '.' !in invalid
  }

  lemma WindowsInvalidSetUsable(invalid: set<char>)
    requires forall c :: c in invalid <==> IsInvalidFileNameChar(c)
    ensures UsableInvalidSet(invalid)
    ensures '\\' in invalid && '/' in invalid && ':' in invalid
  {
  }

  /**
   * `SanitizeFileName`: the runs of valid characters joined by `_`, with
   * trailing dots removed.
   */
  function SanitizeFileName(name: string, invalid: set<char>): (r: string)
    requires UsableInvalidSet(invalid)
    ensures Avoids(r, invalid)
    ensures r == [] || r[|r| - 1] != '.'
  {
    var joined := Join("_", Tokens(name, invalid));
    TokensSpec(name, invalid);
    JoinAvoids(Tokens(name, invalid), invalid);
    TrimEndOf(joined, {'.'})
  }

  /** Joining pieces free of `invalid` with `_` stays free of `invalid`. */
  lemma {:induction false} JoinAvoids(parts: seq<string>, invalid: set<char>)
    requires '_' !in invalid
    requires forall k, i :: 0 <= k < |parts| && 0 <= i < |parts[k]| ==> parts[k][i] !in invalid
    ensures Avoids(Join("_", parts), invalid)
    decreases |parts|
  {
    if |parts| > 1 {
      JoinAvoids(parts[1..], invalid);
      var rest := Join("_", parts[1..]);
      var j := parts[0] + "_" + rest;
      assert Join("_", parts) == j;
      forall i | 0 <= i < |j| ensures j[i] !in invalid {
        if i < |parts[0]| {
          assert j[i] == parts[0][i];
          assert parts[0][i] !in invalid;
        } else if i > |parts[0]| {
          assert j[i] == rest[i - |parts[0]| - 1];
          assert Avoids(rest, invalid);
        } else {
          assert j[i] == '_';
        }
      }
    }
  }

  /** A name that holds no invalid character only loses its trailing dots. */
  lemma SanitizeValidName(name: string, invalid: set<char>)
    requires UsableInvalidSet(invalid)
    requires forall i :: 0 <= i < |name| ==> name[i] !in invalid
    ensures SanitizeFileName(name, invalid) == TrimEndOf(name, {'.'})
  {
    if name != [] {
      TokensNoSeparator(name, invalid);
    }
  }

  /** A run of invalid characters between two valid pieces becomes one `_`. */
  lemma SanitizeCollapsesRun(x: string, run: string, y: string, invalid: set<char>)
    requires UsableInvalidSet(invalid)
    requires x != [] && y != [] && run != []
    requires forall i :: 0 <= i < |x| ==> x[i] !in invalid
    requires forall i :: 0 <= i < |y| ==> y[i] !in invalid
    requires forall i :: 0 <= i < |run| ==> run[i] in invalid
    ensures SanitizeFileName(x + run + y, invalid) == TrimEndOf(x + "_" + y, {'.'})
  {
    TokensNoSeparator(x, invalid);
    TokensNoSeparator(y, invalid);
    TokensAroundRun(x, run, y, invalid);
    assert Tokens(x + run + y, invalid) == [x, y];
    assert Join("_", [x, y]) == x + "_" + y;
  }

  /** Runs of invalid characters at either end vanish. */
  lemma SanitizeDropsOuterRuns(x: string, run: string, invalid: set<char>)
    requires UsableInvalidSet(invalid)
    requires x != [] && run != []
    requires forall i :: 0 <= i < |x| ==> x[i] !in invalid
    requires forall i :: 0 <= i < |run| ==> run[i] in invalid
    ensures SanitizeFileName(run + x, invalid) == TrimEndOf(x, {'.'})
    ensures SanitizeFileName(x + run, invalid) == TrimEndOf(x, {'.'})
  {
    TokensNoSeparator(x, invalid);
    TokensNoSeparatorEmpty(invalid);
    TokensAroundRun([], run, x, invalid);
    TokensAroundRun(x, run, [], invalid);
    assert [] + run + x == run + x;
    assert x + run + [] == x + run;
    assert Tokens(run + x, invalid) == [x];
    assert Tokens(x + run, invalid) == [x];
  }

  /** A name made only of invalid characters sanitises to the empty name. */
  lemma SanitizeAllInvalid(run: string, invalid: set<char>)
    requires UsableInvalidSet(invalid)
    requires forall i :: 0 <= i < |run| ==> run[i] in invalid
    ensures SanitizeFileName(run, invalid) == []
  {
    TokensOfRun(run, invalid);
  }

  /** A run of separators alone holds no token. */
  lemma {:induction false} TokensOfRun(run: string, invalid: set<char>)
    requires forall i :: 0 <= i < |run| ==> run[i] in invalid
    ensures Tokens(run, invalid) == []
    decreases |run|
  {
    if run != [] {
      TokensOfRun(run[1..], invalid);
      TokensAtSeparator([], run[0], run[1..], invalid);
      assert [] + [run[0]] + run[1..] == run;
      TokensNoSeparatorEmpty(invalid);
      assert Tokens(run, invalid) == Tokens([], invalid) + Tokens(run[1..], invalid);
    }
  }

  lemma TokensNoSeparatorEmpty(invalid: set<char>)
    ensures Tokens([], invalid) == []
  {
  }

  lemma {:induction false} TokensAroundRun(x: string, run: string, y: string, invalid: set<char>)
    requires run != [] && forall i :: 0 <= i < |run| ==> run[i] in invalid
    ensures Tokens(x + run + y, invalid) == Tokens(x, invalid) + Tokens(y, invalid)
    decreases |run|
  {
    var rest := run[1..];
    assert x + run + y == x + [run[0]] + (rest + y);
    TokensAtSeparator(x, run[0], rest + y, invalid);
    if rest == [] {
      assert rest + y == y;
    } else {
      TokensAroundRun([], rest, y, invalid);
      assert [] + rest + y == rest + y;
      TokensNoSeparatorEmpty(invalid);
    }
  }

  /** `GetEventDownloadPath`: the download location, then `Events`, then the sanitised name. */
  function GetEventDownloadPath(name: string, baseLocation: string, invalid: set<char>): (r: string)
    requires UsableInvalidSet(invalid)
    ensures r == Combine(Combine(baseLocation, "Events"), SanitizeFileName(name, invalid))
  {
    Combine3IsNested(baseLocation, "Events", SanitizeFileName(name, invalid));
    Combine3(baseLocation, "Events", SanitizeFileName(name, invalid))
  }

  /** Under the Windows invalid set, a non-empty sanitised name is the last segment of the path. */
  lemma EventFolderIsLastSegment(name: string, baseLocation: string, invalid: set<char>)
    requires forall c :: c in invalid <==> IsInvalidFileNameChar(c)
    requires UsableInvalidSet(invalid)
    requires SanitizeFileName(name, invalid) != []
    ensures GetFileName(GetEventDownloadPath(name, baseLocation, invalid)) == SanitizeFileName(name, invalid)
  {
    var s := SanitizeFileName(name, invalid);
    var events := Combine(baseLocation, "Events");
    assert !IsRooted("Events");
    assert events != [];
    assert !IsRooted(s) by {
      assert !IsSeparator(s[0]);
      if |s| >= 2 {
        assert s[1] != ':';
      }
    }
    GetFileNameOfCombine(events, s);
  }
}
