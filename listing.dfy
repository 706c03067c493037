/**
 * Directory listings of `FtpManager`: the MLSD and `ls -l` line parsers, and
 * the dialect fallback chain (MLSD, then LIST, then NLST with SIZE probes) of
 * `GetDirectoryListingOptimized`, with the older NLST-first `GetDirectoryListing`.
 *
 * The server is a value: for each path and dialect, the lines its data
 * connection delivered and whether the transfer ended normally; and the
 * answers to SIZE and MDTM probes.
 */
module Listing {
  import opened Text

  /** `DateTime.MinValue`, the timestamp of an entry whose time is not known. */
  const Unknown: nat := 0

  /** An entry of a directory listing (`FtpItem`); sizes are `long`, times are ticks. */
  datatype Item = Item(name: string, fullPath: string, isDirectory: bool, size: int, lastModified: nat)

  /**
   * The date readers: `DateTime.TryParseExact(v, "yyyyMMddHHmmss")` for the
   * MLSD `modify` fact, and `DateTime.TryParse(v)` for `ls -l` dates.
   */
  datatype Dates = Dates(parseExact: string -> Option<nat>, parse: string -> Option<nat>)

  /** What one data connection delivered, and whether it ended without an exception. */
  datatype Reply = Reply(lines: seq<string>, complete: bool)

  /** A command the server (or the client library) refused outright. */
  const Refused: Reply := Reply([], false)

  /** The server as seen by the listing code; a path missing from a map is refused. */
  datatype Remote = Remote(
    mlsd: map<string, Reply>,
    list: map<string, Reply>,
    nlst: map<string, Reply>,
    sizes: map<string, int>,
    stamps: map<string, nat>)

  function ReplyOf(replies: map<string, Reply>, path: string): Reply {
    if path in replies then replies[path] else Refused
  }

  predicate IsDots(name: string) {
    name == "." || name == ".."
  }

  /** `currentPath.TrimEnd('/') + "/" + name`: the remote path of an entry. */
  function ChildPath(dir: string, name: string): (r: string)
    ensures |r| > |name| && r[|r| - |name|..] == name && r[|r| - |name| - 1] == '/'
    ensures StartsWith(r, TrimEndOf(dir, {'/'}))
  {
    TrimEndOf(dir, {'/'}) + "/" + name
  }

  function OrElse<T>(o: Option<T>, default: T): T {
    if o.Some? then o.value else default
  }

  // ---------------------------------------------------------------- MLSD

  /** A fact of an MLSD line (section 7 of RFC 3659). */
  datatype Fact = Fact(key: string, value: string)

  /** `fact.Split('=')` with exactly two parts: the key lower-cased and trimmed, the value trimmed. */
  function FactOf(text: string): Option<Fact> {
    var kv := Split(text, {'='});
    if |kv| != 2 then None else Some(Fact(Trim(Lower(kv[0])), Trim(kv[1])))
  }

  /** What `read` makes of the elements it accepts, in order; the others are skipped. */
  function Accepted<A, B>(xs: seq<A>, read: A -> Option<B>): (r: seq<B>)
    ensures |r| <= |xs|
    decreases |xs|
  {
    if xs == [] then []
    else
      var init := Accepted(xs[..|xs| - 1], read);
      match read(xs[|xs| - 1])
      case None => init
      case Some(y) => init + [y]
  }

  /** The well-formed facts among `texts`, in order. */
  function WellFormed(texts: seq<string>): seq<Fact> {
    Accepted(texts, FactOf)
  }

  /**
   * The value of the LAST fact named `key` whose value `read` accepts: facts
   * are applied in order, so a later one overrides an earlier one, and a fact
   * whose value does not read leaves what was there.
   */
  function LastRead<T>(facts: seq<Fact>, key: string, read: string -> Option<T>): Option<T>
    decreases |facts|
  {
    if facts == [] then None
    else
      var last := facts[|facts| - 1];
      if last.key == key && read(last.value).Some? then read(last.value)
      else LastRead(facts[..|facts| - 1], key, read)
  }

  /**
   * `LastRead` finds a value exactly when some fact named `key` reads, and
   * then it is what the last such fact reads to.
   */
  lemma {:induction false} LastReadSpec<T>(facts: seq<Fact>, key: string, read: string -> Option<T>)
    ensures LastRead(facts, key, read).None? <==>
      forall i :: 0 <= i < |facts| ==> facts[i].key != key || read(facts[i].value).None?
    ensures LastRead(facts, key, read).Some? ==> exists i :: (0 <= i < |facts|
      && facts[i].key == key && read(facts[i].value) == LastRead(facts, key, read)
      && forall j :: i < j < |facts| ==> facts[j].key != key || read(facts[j].value).None?)
    decreases |facts|
  {
    if facts != [] {
      var init := facts[..|facts| - 1];
      LastReadSpec(init, key, read);
      var last := facts[|facts| - 1];
      if !(last.key == key && read(last.value).Some?) {
        assert forall i :: 0 <= i < |init| ==> init[i] == facts[i];
        if LastRead(init, key, read).Some? {
          var i :| 0 <= i < |init| && init[i].key == key && read(init[i].value) == LastRead(init, key, read)
            && (forall j :: i < j < |init| ==> init[j].key != key || read(init[j].value).None?);
          assert facts[i] == init[i];
        }
      }
    }
  }

  /** The MLSD `type` values that denote a directory, compared without case. */
  predicate IsDirType(value: string) {
    var v := Lower(value);
    v == "dir" || v == "cdir" || v == "pdir"
  }

  function DirType(value: string): Option<bool> {
    Some(IsDirType(value))
  }

  /**
   * The entry an MLSD line describes: no `"; "` means no entry; otherwise the
   * name is everything after the first `"; "`, and the `type`, `size` and
   * `modify` facts before it set the remaining fields, defaulting to a file of
   * size 0 and unknown time.
   */
  function MlsdEntry(line: string, dir: string, dates: Dates): (r: Option<Item>)
    ensures r.None? <==> SplitOnce(line, "; ").None?
    ensures r.Some? ==> r.value.name == SplitOnce(line, "; ").value.1
    ensures r.Some? ==> r.value.fullPath == ChildPath(dir, r.value.name)
  {
    match SplitOnce(line, "; ")
    case None => None
    case Some(parts) =>
      Some(FactsApplied(parts.1, ChildPath(dir, parts.1), WellFormed(Split(parts.0, {';'})), dates))
  }

  /**
   * An entry named `name` at `fullPath` as its facts describe it: the last
   * `type` fact decides whether it is a directory (a file otherwise), the last
   * readable `size` fact its size (0 otherwise) and the last readable `modify`
   * fact its time (unknown otherwise).
   */
  function FactsApplied(name: string, fullPath: string, facts: seq<Fact>, dates: Dates): Item {
    Item(name, fullPath,
      OrElse(LastRead(facts, "type", DirType), false),
      OrElse(LastRead(facts, "size", ParseLong), 0),
      OrElse(LastRead(facts, "modify", dates.parseExact), Unknown))
  }

  /** One step of the fact loop: a well-formed `type`, `size` or `modify` fact sets its field. */
  function ApplyFact(item: Item, fact: Option<Fact>, dates: Dates): Item {
    match fact
    case None => item
    case Some(f) =>
      if f.key == "type" then item.(isDirectory := IsDirType(f.value))
      else if f.key == "size" then
        (match ParseLong(f.value) case Some(v) => item.(size := v) case None => item)
      else if f.key == "modify" then
        (match dates.parseExact(f.value) case Some(t) => item.(lastModified := t) case None => item)
      else item
  }

  /** `ParseMLSDLine`: splits off the name, then applies the facts one by one. */
  method ParseMLSDLine(line: string, currentPath: string, dates: Dates) returns (r: Option<Item>)
    ensures r == MlsdEntry(line, currentPath, dates)
  {
    var parts := SplitOnce(line, "; ");
    if parts.None? {
      return None;
    }
    var facts := parts.value.0;
    var name := parts.value.1;
    var fullPath := ChildPath(currentPath, name);
    var item := ApplyFacts(name, fullPath, Split(facts, {';'}), dates);
    return Some(item);
  }

  /** The fact loop of `ParseMLSDLine`, from a file of size 0 and unknown time. */
  method ApplyFacts(name: string, fullPath: string, factPairs: seq<string>, dates: Dates) returns (item: Item)
    ensures item == FactsApplied(name, fullPath, WellFormed(factPairs), dates)
  {
    item := Item(name, fullPath, false, 0, Unknown);
    var i := 0;
    while i < |factPairs|
      invariant 0 <= i <= |factPairs|
      invariant item == FactsApplied(name, fullPath, WellFormed(factPairs[..i]), dates)
    {
      FactLoopStep(name, fullPath, factPairs, i, dates);
      item := ApplyFact(item, FactOf(factPairs[i]), dates);
      i := i + 1;
    }
    assert factPairs[..|factPairs|] == factPairs;
  }

  /** The loop invariant of `ParseMLSDLine` is kept by one more fact text. */
  lemma FactLoopStep(name: string, fullPath: string, texts: seq<string>, i: nat, dates: Dates)
    requires i < |texts|
    ensures FactsApplied(name, fullPath, WellFormed(texts[..i + 1]), dates)
      == ApplyFact(FactsApplied(name, fullPath, WellFormed(texts[..i]), dates), FactOf(texts[i]), dates)
  {
    AcceptedStep(texts, i, FactOf);
    ApplyFactStep(name, fullPath, WellFormed(texts[..i]), FactOf(texts[i]), dates);
  }

  lemma AcceptedStep<A, B>(xs: seq<A>, i: nat, read: A -> Option<B>)
    requires i < |xs|
    ensures Accepted(xs[..i + 1], read) ==
      match read(xs[i]) case None => Accepted(xs[..i], read) case Some(y) => Accepted(xs[..i], read) + [y]
  {
    assert xs[..i + 1][..i] == xs[..i];
  }

  /** A fact appended at the end overrides the earlier ones when its value reads. */
  lemma LastReadSnoc<T>(facts: seq<Fact>, f: Fact, key: string, read: string -> Option<T>)
    ensures LastRead(facts + [f], key, read) ==
      if f.key == key && read(f.value).Some? then read(f.value) else LastRead(facts, key, read)
  {
    assert (facts + [f])[..|facts|] == facts;
  }

  /** Applying one more fact is what the declarative description says. */
  lemma ApplyFactStep(name: string, fullPath: string, fs: seq<Fact>, fact: Option<Fact>, dates: Dates)
    ensures FactsApplied(name, fullPath, match fact case None => fs case Some(f) => fs + [f], dates)
      == ApplyFact(FactsApplied(name, fullPath, fs, dates), fact, dates)
  {
    match fact {
      case None =>
      case Some(f) =>
        LastReadSnoc(fs, f, "type", DirType);
        LastReadSnoc(fs, f, "size", ParseLong);
        LastReadSnoc(fs, f, "modify", dates.parseExact);
    }
  }

  /** The MLSD `type` value written for a directory or a file. */
  function Kind(isDirectory: bool): string {
    if isDirectory then "dir" else "file"
  }

  /** The facts of an MLSD line with a `type` and a `size` fact. */
  function MlsdFactsText(isDirectory: bool, size: int): string {
    "type=" + Kind(isDirectory) + ";" + ("size=" + IntToString(size))
  }

  /** An MLSD line for `name` written with `type` and `size` facts. */
  function MlsdLine(name: string, isDirectory: bool, size: int): string {
    MlsdFactsText(isDirectory, size) + "; " + name
  }

  /**
   * Whatever the name, a line written by `MlsdLine` parses back to that name,
   * kind and size, with the time unknown.
   */
  lemma MlsdRoundTrip(name: string, isDirectory: bool, size: int, dir: string, dates: Dates)
    requires MinLong <= size <= MaxLong
    ensures MlsdEntry(MlsdLine(name, isDirectory, size), dir, dates)
      == Some(Item(name, ChildPath(dir, name), isDirectory, size, Unknown))
  {
    MlsdLineSplits(name, isDirectory, size);
    MlsdFactsRead(isDirectory, size);
    MlsdFactsApplied(name, ChildPath(dir, name), isDirectory, size, dates);
  }

  /** The first `"; "` of an `MlsdLine` ends its facts. */
  lemma MlsdLineSplits(name: string, isDirectory: bool, size: int)
    ensures SplitOnce(MlsdLine(name, isDirectory, size), "; ") == Some((MlsdFactsText(isDirectory, size), name))
  {
    var typeFact := "type=" + Kind(isDirectory);
    var sizeFact := "size=" + IntToString(size);
    IntToStringChars(size);
    NoSemicolonSpace(typeFact, sizeFact);
    SplitOnceFirst(typeFact + ";" + sizeFact, name);
  }

  /** The facts of an `MlsdLine` are its `type` and `size` facts, in that order. */
  lemma MlsdFactsRead(isDirectory: bool, size: int)
    ensures WellFormed(Split(MlsdFactsText(isDirectory, size), {';'}))
      == [Fact("type", Kind(isDirectory)), Fact("size", IntToString(size))]
  {
    var typeFact := "type=" + Kind(isDirectory);
    var sizeFact := "size=" + IntToString(size);
    IntToStringChars(size);
    SplitPair(typeFact, ';', sizeFact, {';'});
    assert typeFact + ";" + sizeFact == typeFact + [';'] + sizeFact;
    TypeFact(Kind(isDirectory));
    SizeFact(IntToString(size));
    WellFormedPair(typeFact, sizeFact, Fact("type", Kind(isDirectory)), Fact("size", IntToString(size)));
  }

  /** A `type` fact followed by a `size` fact set the kind and the size, and nothing else. */
  lemma MlsdFactsApplied(name: string, fullPath: string, isDirectory: bool, size: int, dates: Dates)
    requires MinLong <= size <= MaxLong
    ensures FactsApplied(name, fullPath, [Fact("type", Kind(isDirectory)), Fact("size", IntToString(size))], dates)
      == Item(name, fullPath, isDirectory, size, Unknown)
  {
    var typeFact := Fact("type", Kind(isDirectory));
    var sizeFact := Fact("size", IntToString(size));
    assert IsDirType(Kind(isDirectory)) == isDirectory by {
      LowerUnchanged(Kind(isDirectory));
    }
    ParseLongOfIntToString(size);
    LastReadPair(typeFact, sizeFact, "type", DirType);
    LastReadPair(typeFact, sizeFact, "size", ParseLong);
    LastReadPair(typeFact, sizeFact, "modify", dates.parseExact);
  }

  lemma LastReadPair<T>(a: Fact, b: Fact, key: string, read: string -> Option<T>)
    ensures LastRead([a, b], key, read) ==
      if b.key == key && read(b.value).Some? then read(b.value)
      else if a.key == key && read(a.value).Some? then read(a.value)
      else None
  {
    LastReadSnoc([a], b, key, read);
    LastReadSnoc([], a, key, read);
    assert [a] + [b] == [a, b];
    assert [] + [a] == [a];
  }

  lemma WellFormedPair(a: string, b: string, fa: Fact, fb: Fact)
    requires FactOf(a) == Some(fa) && FactOf(b) == Some(fb)
    ensures WellFormed([a, b]) == [fa, fb]
  {
    AcceptedPair(a, b, FactOf);
  }

  lemma AcceptedPair<A, B>(a: A, b: A, read: A -> Option<B>)
    requires read(a).Some? && read(b).Some?
    ensures Accepted([a, b], read) == [read(a).value, read(b).value]
  {
    assert [a, b][..1] == [a];
    assert [a][..0] == [];
  }

  /** The `type` fact written by `MlsdLine` reads back as written. */
  lemma TypeFact(kind: string)
    requires kind == "dir" || kind == "file"
    ensures FactOf("type=" + kind) == Some(Fact("type", kind))
  {
    var key := "type";
    assert key + "=" == "type=";
    FactOfPair(key, kind);
  }

  /** The `size` fact written by `MlsdLine` reads back as written. */
  lemma SizeFact(digits: string)
    requires digits != [] && forall i :: 0 <= i < |digits| ==> digits[i] == '-' || IsDigit(digits[i])
    ensures FactOf("size=" + digits) == Some(Fact("size", digits))
  {
    var key := "size";
    assert key + "=" == "size=";
    FactOfPair(key, digits);
  }

  /** `key=value` with a bare lower-case key and a bare value is the fact `(key, value)`. */
  lemma FactOfPair(key: string, value: string)
    requires Avoids(key, {'='}) && Avoids(value, {'='})
    requires Bare(key) && Bare(value)
    requires forall i :: 0 <= i < |key| ==> !('A' <= key[i] <= 'Z')
    ensures FactOf(key + "=" + value) == Some(Fact(key, value))
  {
    LowerUnchanged(key);
    TrimUnchanged(key);
    TrimUnchanged(value);
    SplitPair(key, '=', value, {'='});
    assert key + "=" + value == key + ['='] + value;
  }

  /**
   * Any `key=value` whose two sides hold no `=` is read as a fact, the key
   * lower-cased and trimmed and the value trimmed.
   */
  lemma FactOfSplit(key: string, value: string)
    requires Avoids(key, {'='}) && Avoids(value, {'='})
    ensures FactOf(key + "=" + value) == Some(Fact(Trim(Lower(key)), Trim(value)))
  {
    SplitPair(key, '=', value, {'='});
    assert key + "=" + value == key + ['='] + value;
  }

  /**
   * Conversely, a text read as a fact holds exactly one `=`: the key is read
   * from what precedes it and the value from what follows it.
   */
  lemma FactOfShape(text: string)
    requires FactOf(text).Some?
    ensures exists i :: 0 <= i < |text| && text[i] == '=' && Avoids(text[..i], {'='}) && Avoids(text[i + 1..], {'='})
                        && FactOf(text) == Some(Fact(Trim(Lower(text[..i])), Trim(text[i + 1..])))
  {
    var kv := Split(text, {'='});
    JoinSplit(text, '=');
    SplitAvoids(text, {'='});
    assert Join(['='], kv) == kv[0] + ['='] + kv[1] by {
      assert kv[1..] == [kv[1]];
    }
    var i := |kv[0]|;
    assert text[..i] == kv[0] && text[i + 1..] == kv[1];
    assert Avoids(kv[0], {'='}) && Avoids(kv[1], {'='});
  }

  /** One separator between two separator-free pieces splits into exactly those pieces. */
  lemma SplitPair(x: string, c: char, y: string, seps: set<char>)
    requires c in seps && Avoids(x, seps) && Avoids(y, seps)
    ensures Split(x + [c] + y, seps) == [x, y]
  {
    SplitAtSeparator(x, c, y, seps);
    SplitNoSeparator(x, seps);
    SplitNoSeparator(y, seps);
  }

  /** `"; "` occurs exactly where its two characters are. */
  lemma OccursAtChars(s: string, j: int)
    ensures OccursAt(s, "; ", j) <==> 0 <= j && j + 2 <= |s| && s[j] == ';' && s[j + 1] == ' '
  {
    if 0 <= j && j + 2 <= |s| {
      assert s[j..j + 2][0] == s[j];
      assert s[j..j + 2][1] == s[j + 1];
      if s[j] == ';' && s[j + 1] == ' ' {
        assert s[j..j + 2] == "; ";
      }
    }
  }

  /** The fact texts hold no `"; "`: the only `;` is followed by `s`. */
  lemma NoSemicolonSpace(typeFact: string, sizeFact: string)
    requires sizeFact != [] && sizeFact[0] == 's' && Avoids(sizeFact, {';'})
    requires Avoids(typeFact, {';'})
    ensures forall j :: !OccursAt(typeFact + ";" + sizeFact, "; ", j)
  {
    var facts := typeFact + ";" + sizeFact;
    forall j ensures !OccursAt(facts, "; ", j) {
      OccursAtChars(facts, j);
      if 0 <= j < |typeFact| {
        assert facts[j] == typeFact[j];
      } else if j == |typeFact| && j + 1 < |facts| {
        assert facts[j + 1] == sizeFact[0];
      } else if |typeFact| < j < |facts| {
        assert facts[j] == sizeFact[j - |typeFact| - 1];
      }
    }
  }

  /** With no `"; "` inside `before`, `SplitOnce` cuts at the `"; "` that follows it. */
  lemma SplitOnceFirst(before: string, after: string)
    requires forall j :: !OccursAt(before, "; ", j)
    ensures SplitOnce(before + "; " + after, "; ") == Some((before, after))
  {
    var s := before + "; " + after;
    OccursAtChars(s, |before|);
    forall j | 0 <= j < |before| ensures !OccursAt(s, "; ", j) {
      OccursAtChars(s, j);
      OccursAtChars(before, j);
      if j + 1 < |before| {
        assert s[j] == before[j] && s[j + 1] == before[j + 1];
      } else {
        assert s[j + 1] == ';';
      }
    }
    var r := SplitOnce(s, "; ");
    var b := r.value.0;
    assert s == b + "; " + r.value.1;
    OccursAtChars(s, |b|);
    assert |b| == |before|;
    assert b == s[..|before|] == before;
    assert r.value.1 == s[|before| + 2..] == after;
  }

  // ---------------------------------------------------------------- LIST

  /**
   * `ParseListLine`: a Unix `ls -l` line of at least 10 characters and at least
   * 9 space-separated tokens. A leading `d` marks a directory of size 0;
   * otherwise the 5th token is the size when it parses, else 0. The name is
   * the 9th token onwards joined by single spaces, and the 6th to 8th tokens
   * give the time when they parse as a date. The full path is left empty.
   */
  function ParseListLine(line: string, dates: Dates): (r: Option<Item>)
    ensures r.None? <==> |line| < 10 || |Tokens(line, {' '})| < 9
    ensures r.Some? ==> (r.value.isDirectory <==> line[0] == 'd')
    ensures r.Some? && r.value.isDirectory ==> r.value.size == 0
    ensures r.Some? ==> r.value.fullPath == []
  {
    if |line| < 10 then None
    else
      var parts := Tokens(line, {' '});
      if |parts| < 9 then None
      else
        var isDirectory := line[0] == 'd';
        var size := if isDirectory then 0 else OrElse(ParseLong(parts[4]), 0);
        var name := Join(" ", parts[8..]);
        var stamp := OrElse(dates.parse(parts[5] + " " + parts[6] + " " + parts[7]), Unknown);
        Some(Item(name, [], isDirectory, size, stamp))
  }

  /** `ParseListLineOptimized`: the same entry, with its full path under `currentPath`. */
  function ParseListLineOptimized(line: string, currentPath: string, dates: Dates): (r: Option<Item>)
    ensures r.None? <==> ParseListLine(line, dates).None?
    ensures r.Some? ==> r.value == ParseListLine(line, dates).value.(fullPath := ChildPath(currentPath, r.value.name))
  {
    match ParseListLine(line, dates)
    case None => None
    case Some(item) => Some(item.(fullPath := ChildPath(currentPath, item.name)))
  }

  /** An `ls -l` line: permissions, links, owner, group, size, month, day, time, name. */
  function UnixLine(mode: string, links: string, owner: string, group: string, size: int,
                    month: string, day: string, time: string, name: string): string
  {
    JoinFields([mode, links, owner, group, IntToString(size), month, day, time]) + name
  }

  /** A name of the `ls -l` column: non-empty, no leading, trailing or doubled spaces. */
  predicate SingleSpaced(name: string) {
    name != [] && name[0] != ' ' && name[|name| - 1] != ' '
    && forall i :: 0 <= i < |name| - 1 ==> !(name[i] == ' ' && name[i + 1] == ' ')
  }

  predicate IsField(f: string) {
    f != [] && Avoids(f, {' '})
  }

  /**
   * A line written by `UnixLine` parses back to its name, kind and size
   * whenever the name is single-spaced; the time is whatever the date reader
   * makes of the three date fields.
   */
  lemma UnixRoundTrip(mode: string, links: string, owner: string, group: string, size: int,
                      month: string, day: string, time: string, name: string, dates: Dates)
    requires IsField(mode) && IsField(links) && IsField(owner) && IsField(group)
    requires IsField(month) && IsField(day) && IsField(time)
    requires SingleSpaced(name)
    requires MinLong <= size <= MaxLong
    ensures var line := UnixLine(mode, links, owner, group, size, month, day, time, name);
      ParseListLine(line, dates) == Some(Item(name, [], mode[0] == 'd',
        if mode[0] == 'd' then 0 else size,
        OrElse(dates.parse(month + " " + day + " " + time), Unknown)))
  {
    var line := UnixLine(mode, links, owner, group, size, month, day, time, name);
    var digits := IntToString(size);
    UnixLineTokens(mode, links, owner, group, size, month, day, time, name);
    var parts := Tokens(line, {' '});
    assert parts[4] == digits && parts[5] == month && parts[6] == day && parts[7] == time;
    assert parts[8..] == Tokens(name, {' '});
    JoinTokensSingleSpaced(name);
    ParseLongOfIntToString(size);
  }

  /** The tokens of a `UnixLine` are its eight fields, then the words of the name. */
  lemma UnixLineTokens(mode: string, links: string, owner: string, group: string, size: int,
                       month: string, day: string, time: string, name: string)
    requires IsField(mode) && IsField(links) && IsField(owner) && IsField(group)
    requires IsField(month) && IsField(day) && IsField(time)
    ensures var line := UnixLine(mode, links, owner, group, size, month, day, time, name);
      |line| >= 10 && line[0] == mode[0]
      && Tokens(line, {' '}) == [mode, links, owner, group, IntToString(size), month, day, time] + Tokens(name, {' '})
  {
    var digits := IntToString(size);
    assert IsField(digits) by {
      IntToStringChars(size);
    }
    var line := UnixLine(mode, links, owner, group, size, month, day, time, name);
    var fields := [mode, links, owner, group, digits, month, day, time];
    TokensOfFields(fields, name);
    assert line[0] == mode[0] by {
      assert line[..|mode|] == mode;
      assert line[..|mode|][0] == line[0];
    }
  }

  lemma IntToStringChars(n: int)
    ensures var s := IntToString(n); forall i :: 0 <= i < |s| ==> s[i] == '-' || IsDigit(s[i])
  {
  }

  /** Fields each followed by one space. */
  function JoinFields(fields: seq<string>): (r: string)
    ensures (forall k :: 0 <= k < |fields| ==> fields[k] != []) ==> |r| >= 2 * |fields|
    ensures fields != [] ==> |r| > |fields[0]| && r[..|fields[0]|] == fields[0]
  {
    if fields == [] then [] else fields[0] + " " + JoinFields(fields[1..])
  }

  lemma {:induction false} TokensOfFields(fields: seq<string>, rest: string)
    requires forall k :: 0 <= k < |fields| ==> IsField(fields[k])
    ensures Tokens(JoinFields(fields) + rest, {' '}) == fields + Tokens(rest, {' '})
    decreases |fields|
  {
    if fields == [] {
      assert JoinFields(fields) + rest == rest;
    } else {
      var f := fields[0];
      var more := fields[1..];
      var tail := JoinFields(more) + rest;
      assert forall k :: 0 <= k < |more| ==> IsField(more[k]) by {
        forall k | 0 <= k < |more| ensures IsField(more[k]) {
          assert more[k] == fields[k + 1];
        }
      }
      TokensOfFields(more, rest);
      assert JoinFields(fields) + rest == f + [' '] + tail by {
        assert JoinFields(fields) == f + " " + JoinFields(more);
      }
      assert IsField(f);
      TokensAtSeparator(f, ' ', tail, {' '});
      TokensNoSeparator(f, {' '});
      assert fields == [f] + more;
    }
  }

  /** Splitting a single-spaced name on spaces and joining with one space gives it back. */
  lemma JoinTokensSingleSpaced(name: string)
    requires SingleSpaced(name)
    ensures Join(" ", Tokens(name, {' '})) == name
  {
    SplitSingleSpacedNonEmpty(name);
    JoinSplit(name, ' ');
  }

  /** No piece of a single-spaced name split on spaces is empty. */
  lemma {:induction false} SplitSingleSpacedNonEmpty(name: string)
    requires SingleSpaced(name)
    ensures NonEmpty(Split(name, {' '})) == Split(name, {' '})
    decreases |name|
  {
    var k := FirstSpace(name, 0);
    if k == |name| {
      SplitNoSeparator(name, {' '});
    } else {
      var x := name[..k];
      var y := name[k + 1..];
      assert name == x + [' '] + y;
      assert x != [] && Avoids(x, {' '});
      assert y != [] && y[0] != ' ' by {
        assert y[0] == name[k + 1];
      }
      assert SingleSpaced(y) by {
        forall i | 0 <= i < |y| - 1 ensures !(y[i] == ' ' && y[i + 1] == ' ') {
          assert y[i] == name[k + 1 + i] && y[i + 1] == name[k + 2 + i];
        }
      }
      SplitAtSeparator(x, ' ', y, {' '});
      SplitNoSeparator(x, {' '});
      SplitSingleSpacedNonEmpty(y);
      NonEmptyAppend([x], Split(y, {' '}));
    }
  }

  /** The index of the first space at or after `from`, or the length. */
  function FirstSpace(s: string, from: nat): (k: nat)
    requires from <= |s|
    ensures from <= k <= |s| && (k < |s| ==> s[k] == ' ')
    ensures forall i :: from <= i < k ==> s[i] != ' '
    decreases |s| - from
  {
    if from == |s| || s[from] == ' ' then from else FirstSpace(s, from + 1)
  }

  /** The parsed name never holds two spaces in a row: runs of spaces in a name collapse. */
  lemma UnixNameSingleSpaced(line: string, dates: Dates)
    requires ParseListLine(line, dates).Some?
    ensures SingleSpaced(ParseListLine(line, dates).value.name)
  {
    var parts := Tokens(line, {' '});
    TokensSpec(line, {' '});
    var words := parts[8..];
    assert forall k :: 0 <= k < |words| ==> IsField(words[k]) by {
      forall k | 0 <= k < |words| ensures IsField(words[k]) {
        assert words[k] == parts[k + 8];
      }
    }
    JoinedTokensSingleSpaced(words);
  }

  lemma {:induction false} JoinedTokensSingleSpaced(words: seq<string>)
    requires words != [] && forall k :: 0 <= k < |words| ==> IsField(words[k])
    ensures SingleSpaced(Join(" ", words))
    decreases |words|
  {
    if |words| > 1 {
      JoinedTokensSingleSpaced(words[1..]);
      var w := words[0];
      var rest := Join(" ", words[1..]);
      var j := w + " " + rest;
      assert Join(" ", words) == j;
      forall i | 0 <= i < |j| - 1 ensures !(j[i] == ' ' && j[i + 1] == ' ') {
        if i < |w| - 1 {
          assert j[i] == w[i];
        } else if i == |w| - 1 {
          assert j[i] == w[i];
        } else if i == |w| {
          assert j[i + 1] == rest[0];
        } else {
          assert j[i] == rest[i - |w| - 1] && j[i + 1] == rest[i - |w|];
        }
      }
      assert j[0] == w[0];
      assert j[|j| - 1] == rest[|rest| - 1];
    } else {
      assert Join(" ", words) == words[0];
      assert Avoids(words[0], {' '});
    }
  }

  // ---------------------------------------------------------------- read loops

  /** A line parser of a read loop, given the directory being listed and the line. */
  type LineParser = (string, string) -> Option<Item>

  /** The parsers the read loops use; `Standard` gives the ones of `FtpManager`. */
  datatype Parsers = Parsers(mlsd: LineParser, unix: LineParser, legacyUnix: LineParser)

  function Standard(dates: Dates): Parsers {
    Parsers(
      (dir, line) => MlsdEntry(line, dir, dates),
      (dir, line) => ParseListLineOptimized(line, dir, dates),
      (dir, line) => ParseListLine(line, dates))
  }

  /** What one read-loop step adds: nothing for an empty line, an unparsable line or `.`/`..`. */
  function Kept(parse: LineParser, dir: string, line: string): (r: seq<Item>)
    ensures |r| <= 1
    ensures forall k :: 0 <= k < |r| ==> !IsDots(r[k].name) && Some(r[k]) == parse(dir, line)
  {
    if line == [] then []
    else
      match parse(dir, line)
      case None => []
      case Some(item) => if IsDots(item.name) then [] else [item]
  }

  /** The entries a read loop collects from `lines`. */
  function Entries(parse: LineParser, dir: string, lines: seq<string>): (r: seq<Item>)
    ensures |r| <= |lines|
    decreases |lines|
  {
    if lines == [] then []
    else Entries(parse, dir, lines[..|lines| - 1]) + Kept(parse, dir, lines[|lines| - 1])
  }

  /** The names an NLST read loop keeps: non-empty and neither `.` nor `..`. */
  function Names(lines: seq<string>): (r: seq<string>)
    ensures forall k :: 0 <= k < |r| ==> r[k] != [] && !IsDots(r[k])
    ensures |r| <= |lines|
    decreases |lines|
  {
    if lines == [] then []
    else
      var init := Names(lines[..|lines| - 1]);
      var last := lines[|lines| - 1];
      if last == [] || IsDots(last) then init else init + [last]
  }

  /** The entry a SIZE probe yields: a file of that size, or a directory of size 0 when the probe fails. */
  function Probe(remote: Remote, dir: string, name: string): Item {
    var path := ChildPath(dir, name);
    if path in remote.sizes then Item(name, path, false, remote.sizes[path], Unknown)
    else Item(name, path, true, 0, Unknown)
  }

  /**
   * One probed entry per name, in name order. The source collects the probes
   * in parallel into an unordered bag; this fixes one of its orders.
   */
  function ProbedNames(remote: Remote, dir: string, names: seq<string>): seq<Item> {
    seq(|names|, i requires 0 <= i < |names| => Probe(remote, dir, names[i]))
  }

  /**
   * `GetDirectoryListingOptimized` as a value. The entry list is shared by the
   * three attempts: MLSD entries read before a failure stay and LIST entries
   * are appended to them; a completed NLST replaces the list by one probed
   * entry per name; and when every attempt fails the entries read so far are
   * returned.
   */
  function ListingOf(remote: Remote, parsers: Parsers, dir: string): seq<Item> {
    var mlsd := ReplyOf(remote.mlsd, dir);
    var list := ReplyOf(remote.list, dir);
    var nlst := ReplyOf(remote.nlst, dir);
    var fromMlsd := Entries(parsers.mlsd, dir, mlsd.lines);
    var fromList := fromMlsd + Entries(parsers.unix, dir, list.lines);
    if mlsd.complete then fromMlsd
    else if list.complete then fromList
    else if nlst.complete then ProbedNames(remote, dir, Names(nlst.lines))
    else fromList
  }

  lemma EntriesStep(parse: LineParser, dir: string, lines: seq<string>, i: nat)
    requires i < |lines|
    ensures Entries(parse, dir, lines[..i + 1]) == Entries(parse, dir, lines[..i]) + Kept(parse, dir, lines[i])
  {
    assert lines[..i + 1][..i] == lines[..i];
  }

  /** One read loop (`while (!reader.EndOfStream)`), appending to `items`. */
  method ReadEntries(parse: LineParser, currentPath: string, lines: seq<string>, items: seq<Item>)
    returns (r: seq<Item>)
    ensures r == items + Entries(parse, currentPath, lines)
  {
    r := items;
    var i := 0;
    while i < |lines|
      invariant 0 <= i <= |lines|
      invariant r == items + Entries(parse, currentPath, lines[..i])
    {
      EntriesStep(parse, currentPath, lines, i);
      var line := lines[i];
      ghost var before := r;
      if line != [] {
        var item := parse(currentPath, line);
        if item.Some? && item.value.name != "." && item.value.name != ".." {
          r := r + [item.value];
        }
      }
      assert r == before + Kept(parse, currentPath, line);
      assert (items + Entries(parse, currentPath, lines[..i])) + Kept(parse, currentPath, line)
        == items + (Entries(parse, currentPath, lines[..i]) + Kept(parse, currentPath, line));
      i := i + 1;
    }
    assert lines[..|lines|] == lines;
  }

  /** The NLST read loop. */
  method ReadNames(lines: seq<string>) returns (names: seq<string>)
    ensures names == Names(lines)
  {
    names := [];
    var i := 0;
    while i < |lines|
      invariant 0 <= i <= |lines|
      invariant names == Names(lines[..i])
    {
      assert lines[..i + 1][..i] == lines[..i];
      var fileName := lines[i];
      if fileName != [] && fileName != "." && fileName != ".." {
        names := names + [fileName];
      }
      i := i + 1;
    }
    assert lines[..|lines|] == lines;
  }

  /** `Parallel.ForEach` over the names, one SIZE probe each, run one after another in name order. */
  method ProbeAll(remote: Remote, currentPath: string, fileNames: seq<string>) returns (probed: seq<Item>)
    ensures probed == ProbedNames(remote, currentPath, fileNames)
  {
    probed := [];
    var i := 0;
    while i < |fileNames|
      invariant 0 <= i <= |fileNames|
      invariant |probed| == i && forall k :: 0 <= k < i ==> probed[k] == Probe(remote, currentPath, fileNames[k])
    {
      var itemPath := ChildPath(currentPath, fileNames[i]);
      var item: Item;
      if itemPath in remote.sizes {
        item := Item(fileNames[i], itemPath, false, remote.sizes[itemPath], Unknown);
      } else {
        item := Item(fileNames[i], itemPath, true, 0, Unknown);
      }
      probed := probed + [item];
      i := i + 1;
    }
  }

  /** `GetDirectoryListingOptimized`: MLSD, then LIST, then NLST with one SIZE probe per name. */
  method GetDirectoryListingOptimized(remote: Remote, parsers: Parsers, currentPath: string) returns (items: seq<Item>)
    ensures items == ListingOf(remote, parsers, currentPath)
  {
    items := [];
    var mlsd := ReplyOf(remote.mlsd, currentPath);
    items := ReadEntries(parsers.mlsd, currentPath, mlsd.lines, items);
    if mlsd.complete {
      return;
    }
    var list := ReplyOf(remote.list, currentPath);
    items := ReadEntries(parsers.unix, currentPath, list.lines, items);
    if list.complete {
      return;
    }
    var nlst := ReplyOf(remote.nlst, currentPath);
    if nlst.complete {
      var fileNames := ReadNames(nlst.lines);
      items := ProbeAll(remote, currentPath, fileNames);
    }
  }

  // ---------------------------------------------------------------- listing properties

  lemma {:induction false} EntriesHaveNoDots(parse: LineParser, dir: string, lines: seq<string>)
    ensures forall k :: 0 <= k < |Entries(parse, dir, lines)| ==> !IsDots(Entries(parse, dir, lines)[k].name)
    decreases |lines|
  {
    if lines != [] {
      EntriesHaveNoDots(parse, dir, lines[..|lines| - 1]);
    }
  }

  /** The parser places every entry it returns under the directory it is given. */
  ghost predicate Places(parse: LineParser) {
    forall dir, line :: parse(dir, line).Some? ==> parse(dir, line).value.fullPath == ChildPath(dir, parse(dir, line).value.name)
  }

  lemma {:induction false} EntriesArePlaced(parse: LineParser, dir: string, lines: seq<string>)
    requires Places(parse)
    ensures forall k :: 0 <= k < |Entries(parse, dir, lines)| ==>
      Entries(parse, dir, lines)[k].fullPath == ChildPath(dir, Entries(parse, dir, lines)[k].name)
    decreases |lines|
  {
    if lines != [] {
      EntriesArePlaced(parse, dir, lines[..|lines| - 1]);
    }
  }

  /** Both parsers of `GetDirectoryListingOptimized` place their entries under the listed directory. */
  lemma StandardParsersPlace(dates: Dates)
    ensures Places(Standard(dates).mlsd) && Places(Standard(dates).unix)
  {
  }

  /**
   * With parsers that place their entries, no listing holds `.` or `..`, and
   * every entry's full path is the directory plus its name.
   */
  lemma ListingEntries(remote: Remote, parsers: Parsers, dir: string)
    requires Places(parsers.mlsd) && Places(parsers.unix)
    ensures forall k :: 0 <= k < |ListingOf(remote, parsers, dir)| ==>
      !IsDots(ListingOf(remote, parsers, dir)[k].name)
      && ListingOf(remote, parsers, dir)[k].fullPath == ChildPath(dir, ListingOf(remote, parsers, dir)[k].name)
  {
    var mlsd := ReplyOf(remote.mlsd, dir);
    var list := ReplyOf(remote.list, dir);
    EntriesHaveNoDots(parsers.mlsd, dir, mlsd.lines);
    EntriesHaveNoDots(parsers.unix, dir, list.lines);
    EntriesArePlaced(parsers.mlsd, dir, mlsd.lines);
    EntriesArePlaced(parsers.unix, dir, list.lines);
  }

  /**
   * The first dialect that completes decides the listing when the ones before
   * it were refused; when all three are refused the listing is empty.
   */
  lemma FirstDialectWins(remote: Remote, parsers: Parsers, dir: string)
    ensures var mlsd := ReplyOf(remote.mlsd, dir);
      mlsd.complete ==> ListingOf(remote, parsers, dir) == Entries(parsers.mlsd, dir, mlsd.lines)
    ensures var list := ReplyOf(remote.list, dir);
      ReplyOf(remote.mlsd, dir) == Refused && list.complete ==>
        ListingOf(remote, parsers, dir) == Entries(parsers.unix, dir, list.lines)
    ensures var nlst := ReplyOf(remote.nlst, dir);
      ReplyOf(remote.mlsd, dir) == Refused && ReplyOf(remote.list, dir) == Refused && nlst.complete ==>
        ListingOf(remote, parsers, dir) == ProbedNames(remote, dir, Names(nlst.lines))
    ensures (ReplyOf(remote.mlsd, dir) == Refused && ReplyOf(remote.list, dir) == Refused
      && !ReplyOf(remote.nlst, dir).complete) ==> ListingOf(remote, parsers, dir) == []
  {
    var list := ReplyOf(remote.list, dir);
    if ReplyOf(remote.mlsd, dir) == Refused {
      var fromList := Entries(parsers.unix, dir, list.lines);
      assert Entries(parsers.mlsd, dir, []) == [];
      assert [] + fromList == fromList;
    }
  }

  /**
   * When only NLST answers, each listed name becomes one entry: a file with the
   * probed size, or a directory of size 0 when its SIZE probe fails.
   */
  lemma NlstFallback(remote: Remote, parsers: Parsers, dir: string)
    requires ReplyOf(remote.mlsd, dir) == Refused && ReplyOf(remote.list, dir) == Refused
    requires ReplyOf(remote.nlst, dir).complete
    ensures var names := Names(ReplyOf(remote.nlst, dir).lines); var items := ListingOf(remote, parsers, dir);
      |items| == |names|
      && forall i :: 0 <= i < |items| ==>
        items[i].name == names[i] && items[i].lastModified == Unknown
        && (items[i].isDirectory <==> items[i].fullPath !in remote.sizes)
        && (items[i].isDirectory ==> items[i].size == 0)
  {
    FirstDialectWins(remote, parsers, dir);
  }

  // ---------------------------------------------------------------- legacy listing

  /** The older probe: SIZE, then MDTM for a file; the full path is left empty. */
  function LegacyProbe(remote: Remote, dir: string, name: string): Item {
    var path := ChildPath(dir, name);
    if path in remote.sizes then
      Item(name, [], false, remote.sizes[path], if path in remote.stamps then remote.stamps[path] else Unknown)
    else Item(name, [], true, 0, Unknown)
  }

  /** One legacy probe per name, in order. */
  function LegacyProbes(remote: Remote, dir: string, names: seq<string>): seq<Item> {
    seq(|names|, i requires 0 <= i < |names| => LegacyProbe(remote, dir, names[i]))
  }

  /**
   * `GetDirectoryListing` as a value: NLST with probes first; if the NLST
   * transfer fails, the LIST entries are appended to the probed names read
   * before the failure.
   */
  function LegacyListing(remote: Remote, parsers: Parsers, dir: string): seq<Item> {
    var nlst := ReplyOf(remote.nlst, dir);
    var probed := LegacyProbes(remote, dir, Names(nlst.lines));
    if nlst.complete then probed
    else probed + Entries(parsers.legacyUnix, dir, ReplyOf(remote.list, dir).lines)
  }

  lemma LegacyProbesSnoc(remote: Remote, dir: string, names: seq<string>, name: string)
    ensures LegacyProbes(remote, dir, names + [name]) == LegacyProbes(remote, dir, names) + [LegacyProbe(remote, dir, name)]
  {
  }

  /** `GetDirectoryListing`: probes each NLST name as it is read, falls back to LIST on failure. */
  method GetDirectoryListing(remote: Remote, parsers: Parsers, path: string) returns (items: seq<Item>)
    ensures items == LegacyListing(remote, parsers, path)
  {
    items := [];
    var nlst := ReplyOf(remote.nlst, path);
    var lines := nlst.lines;
    ghost var names: seq<string> := [];
    var i := 0;
    while i < |lines|
      invariant 0 <= i <= |lines|
      invariant names == Names(lines[..i])
      invariant items == LegacyProbes(remote, path, names)
    {
      assert lines[..i + 1][..i] == lines[..i];
      var fileName := lines[i];
      if fileName != [] && fileName != "." && fileName != ".." {
        var itemPath := ChildPath(path, fileName);
        var item: Item;
        if itemPath in remote.sizes {
          var stamp := if itemPath in remote.stamps then remote.stamps[itemPath] else Unknown;
          item := Item(fileName, [], false, remote.sizes[itemPath], stamp);
        } else {
          item := Item(fileName, [], true, 0, Unknown);
        }
        assert item == LegacyProbe(remote, path, fileName);
        LegacyProbesSnoc(remote, path, names, fileName);
        names := names + [fileName];
        items := items + [item];
      }
      i := i + 1;
    }
    assert lines[..|lines|] == lines;
    if !nlst.complete {
      items := ReadEntries(parsers.legacyUnix, path, ReplyOf(remote.list, path).lines, items);
    }
  }

  /** The older listing asks LIST only when NLST fails, and never returns `.` or `..`. */
  lemma LegacyListingEntries(remote: Remote, parsers: Parsers, dir: string)
    ensures ReplyOf(remote.nlst, dir).complete ==>
      LegacyListing(remote, parsers, dir) == LegacyProbes(remote, dir, Names(ReplyOf(remote.nlst, dir).lines))
    ensures forall k :: 0 <= k < |LegacyListing(remote, parsers, dir)| ==> !IsDots(LegacyListing(remote, parsers, dir)[k].name)
  {
    EntriesHaveNoDots(parsers.legacyUnix, dir, ReplyOf(remote.list, dir).lines);
  }
}
