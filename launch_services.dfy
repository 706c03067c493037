/**
 * The launch-argument builder of the current launcher: the saved launch
 * options, any custom parameter text and the mod folders rendered as the
 * game's command line, one argument per line.
 */
module Launch {
  import opened Text

  /** The launch options the builder reads (a `null` string is an empty one). */
  datatype LaunchParameters = LaunchParameters(
    profilePath: string, unit: string, useMission: bool, missionPath: string,
    windowed: bool, noSplash: bool, skipIntro: bool, emptyWorld: bool, enableHT: bool,
    showScriptErrors: bool, noPause: bool, noPauseAudio: bool, noLogs: bool,
    noFreezeCheck: bool, noFilePatching: bool, debug: bool,
    config: string, bePath: string)

  /** `Environment.NewLine` on Windows. */
  const NewLine: string := "\r\n"

  /** The characters the custom text is split at. */
  const LineBreaks: set<char> := {'\r', '\n'}

  function Quoted(s: string): string {
    "\"" + s + "\""
  }

  /** `[arg]` when `on`, else nothing. */
  function When(on: bool, arg: string): (r: seq<string>)
    ensures on <==> r == [arg]
    ensures !on <==> r == []
  {
    if on then [arg] else []
  }

  /** The profile, unit and mission arguments, which come first. */
  function LeadArguments(p: LaunchParameters): seq<string> {
    When(!IsBlank(p.profilePath), "-profiles=" + Quoted(p.profilePath))
    + When(!IsBlank(p.unit), "-unit=" + p.unit)
    + When(p.useMission && !IsBlank(p.missionPath), Quoted(p.missionPath))
  }

  /** Windowed mode: `-window` and then `-noWindowBorder`. */
  function WindowArguments(p: LaunchParameters): seq<string> {
    if p.windowed then ["-window", "-noWindowBorder"] else []
  }

  /** The plain switches, each turned on by one option. */
  datatype Switch = NoSplash | SkipIntro | EmptyWorld | EnableHT | ShowScriptErrors | NoPause
                  | NoPauseAudio | NoLogs | NoFreezeCheck | NoFilePatching | Debug

  /** The switches in the order they are emitted. */
  const Switches: seq<Switch> :=
    [NoSplash, SkipIntro, EmptyWorld, EnableHT, ShowScriptErrors, NoPause,
     NoPauseAudio, NoLogs, NoFreezeCheck, NoFilePatching, Debug]

  /** The command-line argument of a switch. */
  function SwitchName(s: Switch): string {
    match s
    case NoSplash => "-nosplash"
    case SkipIntro => "-skipIntro"
    case EmptyWorld => "-world=empty"
    case EnableHT => "-enableHT"
    case ShowScriptErrors => "-showScriptErrors"
    case NoPause => "-noPause"
    case NoPauseAudio => "-noPauseAudio"
    case NoLogs => "-noLogs"
    case NoFreezeCheck => "-noFreezeCheck"
    case NoFilePatching => "-noFilePatching"
    case Debug => "-debug"
  }

  /** The option that turns a switch on. */
  function SwitchOn(p: LaunchParameters, s: Switch): bool {
    match s
    case NoSplash => p.noSplash
    case SkipIntro => p.skipIntro
    case EmptyWorld => p.emptyWorld
    case EnableHT => p.enableHT
    case ShowScriptErrors => p.showScriptErrors
    case NoPause => p.noPause
    case NoPauseAudio => p.noPauseAudio
    case NoLogs => p.noLogs
    case NoFreezeCheck => p.noFreezeCheck
    case NoFilePatching => p.noFilePatching
    case Debug => p.debug
  }

  /** The arguments of those of `ss` that are on, in order. */
  function SwitchesOn(p: LaunchParameters, ss: seq<Switch>): seq<string> {
    if ss == [] then [] else When(SwitchOn(p, ss[0]), SwitchName(ss[0])) + SwitchesOn(p, ss[1..])
  }

  /** The plain switches that are on, in the order they are emitted. */
  function SwitchArguments(p: LaunchParameters): seq<string> {
    SwitchesOn(p, Switches)
  }

  /** The config file and BattlEye path arguments, which end the options. */
  function FileArguments(p: LaunchParameters): seq<string> {
    When(!IsBlank(p.config), "-config=" + Quoted(p.config))
    + When(!IsBlank(p.bePath), "-bePath=" + Quoted(p.bePath))
  }

  /** The arguments for the options, in the order they are emitted. */
  function OptionArguments(p: LaunchParameters): seq<string> {
    LeadArguments(p) + WindowArguments(p) + SwitchArguments(p) + FileArguments(p)
  }

  /** One custom line: trimmed, dropped when blank, given a leading `-` when it lacks one.
      The dash test is ordinal; characters a culture would skip before the `-` are not modelled. */
  function CustomArgument(line: string): seq<string> {
    var trimmed := Trim(line);
    if IsBlank(trimmed) then []
    else if StartsWith(trimmed, "-") then [trimmed]
    else ["-" + trimmed]
  }

  function CustomLines(lines: seq<string>): seq<string>
    decreases |lines|
  {
    if lines == [] then [] else CustomLines(lines[..|lines| - 1]) + CustomArgument(lines[|lines| - 1])
  }

  /** The arguments for the custom text: its non-empty lines, each as `CustomArgument` renders it. */
  function CustomArguments(customParameters: string): seq<string> {
    if IsBlank(customParameters) then [] else CustomLines(Tokens(customParameters, LineBreaks))
  }

  /** All mod folders as one final `-mod="p1;p2;…"` argument; nothing without mods. */
  function ModArgument(modPaths: seq<string>): seq<string> {
    When(modPaths != [], "-mod=" + Quoted(Join(";", modPaths)))
  }

  /** The arguments `GetParametersString` emits, in order. */
  function Arguments(p: LaunchParameters, customParameters: string, modPaths: seq<string>): seq<string> {
    OptionArguments(p) + CustomArguments(customParameters) + ModArgument(modPaths)
  }

  class LaunchParametersManager {
    var modPaths: seq<string>
    var launchParameters: LaunchParameters
    /** How many times `ParametersChanged` has been raised by the manager itself. */
    var changes: nat

    /** Built around saved options, or fresh ones when none were saved. */
    constructor (saved: LaunchParameters)
      ensures launchParameters == saved && modPaths == [] && changes == 0
    {
      launchParameters := saved;
      modPaths := [];
      changes := 0;
    }

    /** `UpdateModsList`: the previous mod list is replaced entirely, and the change is announced. */
    method UpdateModsList(newModPaths: seq<string>)
      modifies this
      ensures modPaths == newModPaths && launchParameters == old(launchParameters)
      ensures changes == old(changes) + 1
    {
      modPaths := newModPaths;
      changes := changes + 1;
    }

    /** `GetParametersString`: the arguments joined by new lines. */
    method GetParametersString(customParameters: string) returns (s: string)
      ensures s == Join(NewLine, Arguments(launchParameters, customParameters, modPaths))
    {
      var parameters := OptionArguments(launchParameters);
      ghost var options := parameters;
      if !IsBlank(customParameters) {
        var custom := AddCustomLines(Tokens(customParameters, LineBreaks), parameters);
        parameters := custom;
      } else {
        assert parameters == options + [];
      }
      ghost var head := parameters;
      if |modPaths| > 0 {
        var modParam := Join(";", modPaths);
        parameters := parameters + ["-mod=" + Quoted(modParam)];
      } else {
        assert parameters == head + [];
      }
      s := Join(NewLine, parameters);
    }
  }

  /** The loop over the custom lines: each line's argument appended to `parameters`. */
  method AddCustomLines(lines: seq<string>, parameters: seq<string>) returns (r: seq<string>)
    ensures r == parameters + CustomLines(lines)
  {
    r := parameters;
    var i := 0;
    while i < |lines|
      invariant 0 <= i <= |lines|
      invariant r == parameters + CustomLines(lines[..i])
    {
      var trimmed := Trim(lines[i]);
      assert lines[..i + 1][..i] == lines[..i];
      ghost var before := CustomLines(lines[..i]);
      if !IsBlank(trimmed) {
        if !StartsWith(trimmed, "-") {
          r := r + ["-" + trimmed];
        } else {
          r := r + [trimmed];
        }
      }
      assert parameters + before + CustomArgument(lines[i]) == parameters + (before + CustomArgument(lines[i]));
      i := i + 1;
    }
    assert lines[..i] == lines;
  }

  /**
   * A blank profile path, unit, config or BattlEye path gives no argument and
   * a non-blank one gives its own; the mission is passed exactly when it is
   * switched on and its path is not blank.
   */
  lemma OptionArgumentsSpec(p: LaunchParameters)
    ensures "-profiles=" + Quoted(p.profilePath) in OptionArguments(p) <==> !IsBlank(p.profilePath)
    ensures "-unit=" + p.unit in OptionArguments(p) <==> !IsBlank(p.unit)
    ensures Quoted(p.missionPath) in OptionArguments(p) <==> p.useMission && !IsBlank(p.missionPath)
    ensures "-config=" + Quoted(p.config) in OptionArguments(p) <==> !IsBlank(p.config)
    ensures "-bePath=" + Quoted(p.bePath) in OptionArguments(p) <==> !IsBlank(p.bePath)
  {
    var lead, files := LeadArguments(p), FileArguments(p);
    OptionsIdentified(p);
    var profile := "-profiles=" + Quoted(p.profilePath);
    OptionMember(p, profile);
    assert Marked(profile, 'p');
    assert !IsBlank(p.profilePath) ==> profile in lead;
    var unit := "-unit=" + p.unit;
    OptionMember(p, unit);
    assert Marked(unit, 'u');
    assert !IsBlank(p.unit) ==> unit in lead;
    var mission := Quoted(p.missionPath);
    OptionMember(p, mission);
    assert Marked(mission, '"');
    assert p.useMission && !IsBlank(p.missionPath) ==> mission in lead;
    var config := "-config=" + Quoted(p.config);
    OptionMember(p, config);
    assert Marked(config, 'c');
    assert !IsBlank(p.config) ==> config in files;
    var bePath := "-bePath=" + Quoted(p.bePath);
    OptionMember(p, bePath);
    assert Marked(bePath, 'b');
    assert !IsBlank(p.bePath) ==> bePath in files;
  }

  /**
   * Each switch, and windowed mode, is on the command line exactly when its
   * option is set.
   */
  lemma SwitchArgumentsSpec(p: LaunchParameters)
    ensures "-window" in OptionArguments(p) <==> p.windowed
    ensures "-noWindowBorder" in OptionArguments(p) <==> p.windowed
    ensures forall s :: SwitchName(s) in OptionArguments(p) <==> SwitchOn(p, s)
  {
    forall s
      ensures SwitchName(s) in OptionArguments(p) <==> SwitchOn(p, s)
    {
      SwitchNameMark(s);
      NotLeadNorFile(p, SwitchName(s));
      SwitchListed(p, s);
    }
    WindowListed(p, "-window");
    WindowListed(p, "-noWindowBorder");
  }

  /** The window arguments are on the command line exactly in windowed mode. */
  lemma WindowListed(p: LaunchParameters, a: string)
    requires a == "-window" || a == "-noWindowBorder"
    ensures a in OptionArguments(p) <==> p.windowed
  {
    NotLeadNorFile(p, a);
    SwitchesOnMember(p, Switches, a);
    if a in SwitchArguments(p) {
      var s :| s in Switches && SwitchOn(p, s) && SwitchName(s) == a;
      SwitchNameMark(s);
    }
  }

  /** An argument the lead and file options cannot produce is an option argument when it is a window or switch argument. */
  lemma NotLeadNorFile(p: LaunchParameters, a: string)
    requires |a| >= 2 && a[0] == '-' && a[1] in {'n', 's', 'w', 'e', 'd'}
    ensures a in OptionArguments(p) <==> a in WindowArguments(p) || a in SwitchArguments(p)
  {
    LeadAndFileMarks(p);
    assert !Marked(a, '"') && !Marked(a, 'p') && !Marked(a, 'u') && !Marked(a, 'c') && !Marked(a, 'b');
    OptionMember(p, a);
  }

  /** A switch's argument is among the switch arguments exactly when the switch is on, and is no window argument. */
  lemma SwitchListed(p: LaunchParameters, s: Switch)
    ensures SwitchName(s) in SwitchArguments(p) <==> SwitchOn(p, s)
    ensures SwitchName(s) !in WindowArguments(p)
  {
    SwitchesOnMember(p, Switches, SwitchName(s));
    SwitchNameInjective();
    SwitchNameMark(s);
    assert s in Switches;
  }

  /** The option arguments are the lead, window, switch and file arguments. */
  lemma OptionMember(p: LaunchParameters, a: string)
    ensures a in OptionArguments(p) <==>
      a in LeadArguments(p) + FileArguments(p) || a in WindowArguments(p) || a in SwitchArguments(p)
  {
  }

  /** An argument is among those `SwitchesOn` emits exactly when it names one of the switches that is on. */
  lemma {:induction false} SwitchesOnMember(p: LaunchParameters, ss: seq<Switch>, a: string)
    ensures a in SwitchesOn(p, ss) <==> exists s :: s in ss && SwitchOn(p, s) && SwitchName(s) == a
  {
    if ss != [] {
      SwitchesOnMember(p, ss[1..], a);
      if exists s :: s in ss && SwitchOn(p, s) && SwitchName(s) == a {
        var s :| s in ss && SwitchOn(p, s) && SwitchName(s) == a;
        if s != ss[0] {
          assert s in ss[1..];
        }
      }
    }
  }

  /** Distinct switches have distinct arguments. */
  lemma SwitchNameInjective()
    ensures forall s, t :: SwitchName(s) == SwitchName(t) ==> s == t
  {
  }

  /** A switch's argument starts with `-` and a character no other kind of argument has there. */
  lemma SwitchNameMark(s: Switch)
    ensures |SwitchName(s)| >= 2 && SwitchName(s)[0] == '-' && SwitchName(s)[1] in {'n', 's', 'w', 'e', 'd'}
    ensures SwitchName(s) != "-window" && SwitchName(s) != "-noWindowBorder"
  {
  }

  /** The lead and file arguments are told apart from the others by their opening quote or the character after the dash. */
  lemma LeadAndFileMarks(p: LaunchParameters)
    ensures forall a :: a in LeadArguments(p) + FileArguments(p) ==>
      Marked(a, '"') || Marked(a, 'p') || Marked(a, 'u') || Marked(a, 'c') || Marked(a, 'b')
  {
    assert Marked("-profiles=" + Quoted(p.profilePath), 'p');
    assert Marked("-unit=" + p.unit, 'u');
    assert Marked(Quoted(p.missionPath), '"');
    assert Marked("-config=" + Quoted(p.config), 'c');
    assert Marked("-bePath=" + Quoted(p.bePath), 'b');
  }

  /** The character that tells an argument's kind: the one after the dash, or the opening quote. */
  predicate Marked(a: string, c: char) {
    if c == '"' then a != [] && a[0] == '"' else |a| >= 2 && a[0] == '-' && a[1] == c
  }

  /** An argument marked as one of the option-bearing kinds is that option's own argument. */
  predicate Identified(p: LaunchParameters, a: string) {
    && (Marked(a, '"') ==> a == Quoted(p.missionPath) && p.useMission && !IsBlank(p.missionPath))
    && (Marked(a, 'p') ==> a == "-profiles=" + Quoted(p.profilePath) && !IsBlank(p.profilePath))
    && (Marked(a, 'u') ==> a == "-unit=" + p.unit && !IsBlank(p.unit))
    && (Marked(a, 'c') ==> a == "-config=" + Quoted(p.config) && !IsBlank(p.config))
    && (Marked(a, 'b') ==> a == "-bePath=" + Quoted(p.bePath) && !IsBlank(p.bePath))
  }

  lemma OptionsIdentified(p: LaunchParameters)
    ensures forall a :: a in OptionArguments(p) ==> Identified(p, a)
  {
    assert OptionArguments(p) == LeadArguments(p) + WindowArguments(p) + SwitchArguments(p) + FileArguments(p);
    LeadIdentified(p);
    WindowIdentified(p);
    SwitchesIdentified(p);
    FilesIdentified(p);
  }

  lemma LeadIdentified(p: LaunchParameters)
    ensures forall a :: a in LeadArguments(p) ==> Identified(p, a)
  {
    assert Marked("-profiles=" + Quoted(p.profilePath), 'p');
    assert Marked("-unit=" + p.unit, 'u');
  }

  lemma WindowIdentified(p: LaunchParameters)
    ensures forall a :: a in WindowArguments(p) ==> Identified(p, a)
  {
  }

  lemma SwitchesIdentified(p: LaunchParameters)
    ensures forall a :: a in SwitchArguments(p) ==> Identified(p, a)
  {
    forall a | a in SwitchArguments(p) ensures Identified(p, a) {
      SwitchesOnMember(p, Switches, a);
      var s :| s in Switches && SwitchOn(p, s) && SwitchName(s) == a;
      SwitchNameMark(s);
    }
  }

  lemma FilesIdentified(p: LaunchParameters)
    ensures forall a :: a in FileArguments(p) ==> Identified(p, a)
  {
    assert Marked("-config=" + Quoted(p.config), 'c');
    assert Marked("-bePath=" + Quoted(p.bePath), 'b');
  }

  /** With the window switch on, `-window` is followed immediately by `-noWindowBorder`. */
  lemma WindowedPair(p: LaunchParameters, customParameters: string, modPaths: seq<string>)
    requires p.windowed
    ensures var args := Arguments(p, customParameters, modPaths);
      exists i :: 0 <= i < |args| - 1 && args[i] == "-window" && args[i + 1] == "-noWindowBorder"
  {
    var lead, w := LeadArguments(p), WindowArguments(p);
    var args := Arguments(p, customParameters, modPaths);
    assert args == lead + w + SwitchArguments(p) + FileArguments(p) + CustomArguments(customParameters) + ModArgument(modPaths);
    assert args[|lead|] == "-window" && args[|lead| + 1] == "-noWindowBorder";
  }

  /**
   * Every custom argument is a trimmed, non-empty line of the custom text
   * that starts with `-` and holds no line break.
   */
  lemma CustomArgumentsShape(customParameters: string)
    ensures forall a :: a in CustomArguments(customParameters) ==>
      Bare(a) && StartsWith(a, "-") && Avoids(a, LineBreaks)
  {
    if !IsBlank(customParameters) {
      var lines := Tokens(customParameters, LineBreaks);
      TokensSpec(customParameters, LineBreaks);
      CustomLinesShape(lines);
    }
  }

  lemma {:induction false} CustomLinesShape(lines: seq<string>)
    requires forall k :: 0 <= k < |lines| ==> Avoids(lines[k], LineBreaks)
    ensures forall a :: a in CustomLines(lines) ==> Bare(a) && StartsWith(a, "-") && Avoids(a, LineBreaks)
    decreases |lines|
  {
    if lines != [] {
      var init, last := lines[..|lines| - 1], lines[|lines| - 1];
      CustomLinesShape(init);
      CustomArgumentShape(last);
    }
  }

  lemma CustomArgumentShape(line: string)
    requires Avoids(line, LineBreaks)
    ensures forall a :: a in CustomArgument(line) ==> Bare(a) && StartsWith(a, "-") && Avoids(a, LineBreaks)
  {
    var trimmed := Trim(line);
    TrimSpec(line);
    var i :| OccursAt(line, trimmed, i) && IsBlank(line[..i]) && IsBlank(line[i + |trimmed|..]);
    assert trimmed == line[i..i + |trimmed|];
    assert Avoids(trimmed, LineBreaks);
    if !IsBlank(trimmed) && !StartsWith(trimmed, "-") {
      DashedShape(trimmed);
    }
  }

  /** A `-` put in front of a bare line keeps it bare and free of line breaks. */
  lemma DashedShape(trimmed: string)
    requires trimmed != [] && !IsWhiteSpace(trimmed[|trimmed| - 1]) && Avoids(trimmed, LineBreaks)
    ensures Bare("-" + trimmed) && StartsWith("-" + trimmed, "-") && Avoids("-" + trimmed, LineBreaks)
  {
    var a := "-" + trimmed;
    assert a[0] == '-' && a[|a| - 1] == trimmed[|trimmed| - 1];
    assert forall k :: 1 <= k < |a| ==> a[k] == trimmed[k - 1];
  }

  /** Arguments that are bare and start with `-` are kept as they are. */
  lemma {:induction false} CustomLinesKeep(args: seq<string>)
    requires forall k :: 0 <= k < |args| ==> Bare(args[k]) && StartsWith(args[k], "-")
    ensures CustomLines(args) == args
    decreases |args|
  {
    if args != [] {
      var init, last := args[..|args| - 1], args[|args| - 1];
      assert args == init + [last];
      assert CustomLines(args) == CustomLines(init) + CustomArgument(last);
      CustomLinesKeep(init);
      CustomArgumentKeeps(last);
    }
  }

  lemma CustomArgumentKeeps(a: string)
    requires Bare(a) && StartsWith(a, "-")
    ensures CustomArgument(a) == [a]
  {
    TrimUnchanged(a);
    assert !IsBlank(a) by {
      assert !IsWhiteSpace(a[0]);
    }
  }

  /** Lines joined by new lines split back into the same lines, when none is empty or holds a line break. */
  lemma {:induction false} LinesOfJoin(parts: seq<string>)
    requires forall k :: 0 <= k < |parts| ==> parts[k] != [] && Avoids(parts[k], LineBreaks)
    ensures Tokens(Join(NewLine, parts), LineBreaks) == parts
    decreases |parts|
  {
    if |parts| == 1 {
      TokensNoSeparator(parts[0], LineBreaks);
    } else if |parts| > 1 {
      var rest := Join(NewLine, parts[1..]);
      LinesOfJoin(parts[1..]);
      assert Join(NewLine, parts) == parts[0] + ['\r'] + (['\n'] + rest);
      TokensAtSeparator(parts[0], '\r', ['\n'] + rest, LineBreaks);
      assert ['\n'] + rest == [] + ['\n'] + rest;
      TokensAtSeparator([], '\n', rest, LineBreaks);
      TokensNoSeparator(parts[0], LineBreaks);
      assert Tokens([], LineBreaks) == [];
      assert [parts[0]] + parts[1..] == parts;
    }
  }

  /**
   * Writing the custom arguments back one per line and building again gives
   * the same arguments: the clean-up is idempotent.
   */
  lemma CustomArgumentsIdempotent(customParameters: string)
    ensures CustomArguments(Join(NewLine, CustomArguments(customParameters))) == CustomArguments(customParameters)
  {
    var args := CustomArguments(customParameters);
    CustomArgumentsShape(customParameters);
    if args != [] {
      forall k | 0 <= k < |args|
        ensures Bare(args[k]) && StartsWith(args[k], "-") && Avoids(args[k], LineBreaks)
      {
        assert args[k] in args;
      }
      LinesOfJoin(args);
      var text := Join(NewLine, args);
      assert !IsBlank(text) by {
        assert text[0] == args[0][0];
        assert !IsWhiteSpace(text[0]);
      }
      CustomLinesKeep(args);
    } else {
      assert Join(NewLine, args) == [];
      assert IsBlank([]);
    }
  }

  /**
   * The text inside the quotes of the `-mod=` argument splits back into the
   * mod folders, in order, when no folder holds a `;`.
   */
  lemma ModArgumentLists(modPaths: seq<string>)
    requires modPaths != []
    requires forall k, i :: 0 <= k < |modPaths| && 0 <= i < |modPaths[k]| ==> modPaths[k][i] != ';'
    ensures var m := ModArgument(modPaths);
      |m| == 1 && StartsWith(m[0], "-mod=\"") && m[0][|m[0]| - 1] == '"'
      && Split(m[0][6..|m[0]| - 1], {';'}) == modPaths
  {
    var body := Join(";", modPaths);
    var arg := "-mod=" + Quoted(body);
    assert arg[6..|arg| - 1] == body;
    assert arg[..6] == "-mod=\"";
    SplitJoin(modPaths, ';');
  }
}
