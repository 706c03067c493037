/**
 * The launch-argument builder of the first launcher window: nine named
 * switches, all off until set, and the mod folders, rendered as command-line
 * arguments. `ParametersChanged` is modelled by counting the times it is
 * raised.
 */
module LegacyLaunch {
  import opened Text

  /**
   * The switches, in the order the constructor registers them. The
   * dictionary never loses a key, so it lists them in this order.
   */
  const FlagNames: seq<string> :=
    ["windowed", "world", "skipIntro", "nosplash", "noPause", "noPauseAudio", "noLogs", "showScriptErrors", "filePatching"]

  /** The names in `names` whose switch is on, in the order of `names`. */
  function Enabled(parameters: map<string, bool>, names: seq<string>): (r: seq<string>)
    ensures |r| <= |names|
    decreases |names|
  {
    if names == [] then []
    else
      var last := names[|names| - 1];
      Enabled(parameters, names[..|names| - 1]) + (if last in parameters && parameters[last] then [last] else [])
  }

  /** A name is listed exactly when it is one of `names` and its switch is on. */
  lemma {:induction false} EnabledSpec(parameters: map<string, bool>, names: seq<string>)
    ensures forall n :: n in Enabled(parameters, names) <==> n in names && n in parameters && parameters[n]
    decreases |names|
  {
    if names != [] {
      var init, last := names[..|names| - 1], names[|names| - 1];
      EnabledSpec(parameters, init);
      assert names == init + [last];
    }
  }

  /** Prefixing distributes over concatenation. */
  lemma PrefixedAppend(prefix: string, a: seq<string>, b: seq<string>)
    ensures Prefixed(prefix, a + b) == Prefixed(prefix, a) + Prefixed(prefix, b)
  {
  }

  /** `prefix` put in front of every element. */
  function Prefixed(prefix: string, s: seq<string>): seq<string> {
    seq(|s|, i requires 0 <= i < |s| => prefix + s[i])
  }

  /** What `GetParametersList` returns: `-name` for every switch that is on, then `-mod=path` for every mod. */
  function ParametersList(parameters: map<string, bool>, modPaths: seq<string>): seq<string> {
    Prefixed("-", Enabled(parameters, FlagNames)) + Prefixed("-mod=", modPaths)
  }

  class LaunchParametersManager {
    var parameters: map<string, bool>
    var modPaths: seq<string>
    /** How many times `ParametersChanged` has been raised. */
    var changes: nat

    /** The dictionary holds exactly the nine switches. */
    ghost predicate Valid()
      reads this
    {
      parameters.Keys == set n | n in FlagNames
    }

    /** The nine switches registered, all off; no mods. */
    constructor ()
      ensures Valid()
      ensures forall n :: n in parameters ==> !parameters[n]
      ensures modPaths == [] && changes == 0
    {
      parameters := map n | n in FlagNames :: false;
      modPaths := [];
      changes := 0;
    }

    /**
     * `SetParameter`: a registered switch takes the new value and the change
     * is announced; any other name changes nothing and announces nothing.
     */
    method SetParameter(parameterName: string, enabled: bool)
      modifies this
      ensures parameterName in old(parameters) ==>
        parameters == old(parameters)[parameterName := enabled] && changes == old(changes) + 1
      ensures parameterName !in old(parameters) ==>
        parameters == old(parameters) && changes == old(changes)
      ensures modPaths == old(modPaths)
      ensures old(Valid()) ==> Valid()
    {
      if parameterName in parameters {
        parameters := parameters[parameterName := enabled];
        changes := changes + 1;
      }
    }

    /** `UpdateModsList`: the mod list becomes `newModPaths`, and the change is announced. */
    method UpdateModsList(newModPaths: seq<string>)
      modifies this
      ensures modPaths == newModPaths && parameters == old(parameters)
      ensures changes == old(changes) + 1
    {
      modPaths := newModPaths;
      changes := changes + 1;
    }

    /** `GetParametersList`. */
    method GetParametersList() returns (list: seq<string>)
      requires Valid()
      ensures list == ParametersList(parameters, modPaths)
    {
      var flags := EnabledArguments(parameters, FlagNames);
      var mods := PrefixAll("-mod=", modPaths);
      list := flags + mods;
    }

    /** `GetParametersString`: the arguments joined by single spaces. */
    method GetParametersString() returns (s: string)
      requires Valid()
      ensures s == Join(" ", ParametersList(parameters, modPaths))
    {
      var list := GetParametersList();
      s := Join(" ", list);
    }
  }

  /** The first loop of `GetParametersList`: `-name` for every switch of `names` that is on. */
  method EnabledArguments(parameters: map<string, bool>, names: seq<string>) returns (list: seq<string>)
    requires forall n :: n in names ==> n in parameters
    ensures list == Prefixed("-", Enabled(parameters, names))
  {
    list := [];
    var i := 0;
    while i < |names|
      invariant 0 <= i <= |names|
      invariant list == Prefixed("-", Enabled(parameters, names[..i]))
    {
      var name := names[i];
      assert names[..i + 1][..i] == names[..i];
      ghost var added := if parameters[name] then [name] else [];
      PrefixedAppend("-", Enabled(parameters, names[..i]), added);
      if parameters[name] {
        list := list + ["-" + name];
      }
      i := i + 1;
    }
    assert names[..i] == names;
  }

  /** The second loop of `GetParametersList`: `prefix` put in front of every element, in order. */
  method PrefixAll(prefix: string, s: seq<string>) returns (list: seq<string>)
    ensures list == Prefixed(prefix, s)
  {
    list := [];
    var i := 0;
    while i < |s|
      invariant 0 <= i <= |s|
      invariant list == Prefixed(prefix, s[..i])
    {
      list := list + [prefix + s[i]];
      i := i + 1;
    }
  }

  /** The nine switch names are distinct. */
  lemma FlagNamesDistinct()
    ensures forall i, j :: 0 <= i < j < |FlagNames| ==> FlagNames[i] != FlagNames[j]
  {
  }

  /**
   * The list is the switches that are on, each once and in table order, then
   * one `-mod=` argument per mod in list order.
   */
  lemma ParametersListShape(parameters: map<string, bool>, modPaths: seq<string>)
    ensures var list := ParametersList(parameters, modPaths);
      var k := |list| - |modPaths|;
      && 0 <= k <= |FlagNames|
      && (forall n :: "-" + n in list[..k] <==> n in FlagNames && n in parameters && parameters[n])
      && (forall i :: 0 <= i < |modPaths| ==> list[k + i] == "-mod=" + modPaths[i])
  {
    var flags := Enabled(parameters, FlagNames);
    var list := ParametersList(parameters, modPaths);
    EnabledSpec(parameters, FlagNames);
    assert list[..|flags|] == Prefixed("-", flags);
    forall n
      ensures "-" + n in list[..|flags|] <==> n in flags
    {
      if "-" + n in list[..|flags|] {
        var i :| 0 <= i < |flags| && list[i] == "-" + n;
        assert ("-" + n)[1..] == n;
        assert ("-" + flags[i])[1..] == flags[i];
      }
      if n in flags {
        var i :| 0 <= i < |flags| && flags[i] == n;
        assert list[i] == "-" + n;
      }
    }
  }

  /**
   * The joined string splits back into the argument list at its spaces,
   * provided no argument holds a space itself (a mod path such as
   * `C:\Program Files\@CBA` does not survive the trip).
   */
  lemma SplitJoinedArguments(list: seq<string>)
    requires list != []
    requires forall k, i :: 0 <= k < |list| && 0 <= i < |list[k]| ==> list[k][i] != ' '
    ensures Split(Join(" ", list), {' '}) == list
  {
    SplitJoin(list, ' ');
  }
}
