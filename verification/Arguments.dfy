/** Sorting command-line arguments into remap rules, parameter files, log settings and the rest. */
module Arguments {
  import opened Common
  import opened Lexer
  import opened Lookahead
  import opened RemapGrammar
  import opened RemapParser

  const PARAM_FILE_RULE: string := "__params:="
  const LOG_LEVEL_RULE: string := "__log_level:="
  const LOG_CONFIG_RULE: string := "__log_config_file:="
  const DISABLE_STDOUT_RULE: string := "__log_disable_stdout:="
  const DISABLE_ROSOUT_RULE: string := "__log_disable_rosout:="
  const DISABLE_EXT_LIB_RULE: string := "__log_disable_external_lib:="

  datatype Class =
    | ParamFile | Remap | LogLevel | LogConfig | DisableStdout | DisableRosout | DisableExtLib | Unparsed

  /** The severity names known to the logging library. */
  type Severities = string -> Option<int>

  const TRUE_PREFIXES: seq<string> := ["y", "Y", "yes", "Yes", "t", "T", "true", "True", "1"]
  const FALSE_PREFIXES: seq<string> := ["n", "N", "no", "No", "f", "F", "false", "False", "0"]

  predicate BeginsWithOne(s: string, words: seq<string>) {
    exists i :: 0 <= i < |words| && words[i] <= s
  }

  /** A boolean is read from the beginning of the text; what follows is ignored. */
  function ToBool(s: string): Option<bool> {
    if BeginsWithOne(s, TRUE_PREFIXES) then Some(true)
    else if BeginsWithOne(s, FALSE_PREFIXES) then Some(false)
    else None
  }

  // ---------- The classes ----------

  predicate IsBool(key: string, arg: string) {
    key <= arg && ToBool(arg[|key|..]).Some?
  }

  /** Whether the attempt for class `c`, made on its own, succeeds. */
  ghost predicate Parses(sev: Severities, c: Class, arg: string) {
    match c
    case ParamFile => PARAM_FILE_RULE <= arg
    case Remap => IsRule(Lexemes(arg, 0))
    case LogLevel => LOG_LEVEL_RULE <= arg && sev(arg[|LOG_LEVEL_RULE|..]).Some?
    case LogConfig => LOG_CONFIG_RULE <= arg
    case DisableStdout => IsBool(DISABLE_STDOUT_RULE, arg)
    case DisableRosout => IsBool(DISABLE_ROSOUT_RULE, arg)
    case DisableExtLib => IsBool(DISABLE_EXT_LIB_RULE, arg)
    case Unparsed => false
  }

  /** The class that the attempts, made in the original's order, end with. */
  ghost function ClassOf(sev: Severities, arg: string): Class {
    if Parses(sev, ParamFile, arg) then ParamFile
    else if Parses(sev, Remap, arg) then Remap
    else if Parses(sev, LogLevel, arg) then LogLevel
    else if Parses(sev, LogConfig, arg) then LogConfig
    else if Parses(sev, DisableStdout, arg) then DisableStdout
    else if Parses(sev, DisableRosout, arg) then DisableRosout
    else if Parses(sev, DisableExtLib, arg) then DisableExtLib
    else Unparsed
  }

  /** No argument with one of the reserved heads can be a remap rule: its first lexeme already fails. */
  lemma ReservedIsNoRule(arg: string)
    requires "__p" <= arg || "__l" <= arg
    ensures !IsRule(Lexemes(arg, 0))
  {
    assert arg[0..] == arg;
    assert arg[0] == '_' && arg[1] == '_' && (arg[2] == 'p' || arg[2] == 'l');
    PrefixChar("__ns", arg, 2);
    PrefixChar("__node", arg, 2);
    PrefixChar(TOPIC_URL, arg, 0);
    PrefixChar(SERVICE_URL, arg, 0);
    assert Lex(arg).0 == NONE;
    assert Lexemes(arg, 0) == [NONE];
  }

  function Key(c: Class): string {
    match c
    case ParamFile => PARAM_FILE_RULE
    case LogLevel => LOG_LEVEL_RULE
    case LogConfig => LOG_CONFIG_RULE
    case DisableStdout => DISABLE_STDOUT_RULE
    case DisableRosout => DISABLE_ROSOUT_RULE
    case DisableExtLib => DISABLE_EXT_LIB_RULE
    case _ => ""
  }

  lemma KeyedClass(sev: Severities, c: Class, arg: string)
    requires Parses(sev, c, arg) && c != Remap
    ensures Key(c) <= arg && c != Unparsed && !Parses(sev, Remap, arg)
  {
    PrefixChar(Key(c), arg, 0);
    PrefixChar(Key(c), arg, 1);
    PrefixChar(Key(c), arg, 2);
    ReservedIsNoRule(arg);
  }

  /** No key is a beginning of another: they differ at the 3rd, 7th or 15th character. */
  lemma KeysDiffer(c: Class, d: Class, arg: string)
    requires Key(c) != "" && Key(d) != "" && Key(c) <= arg && Key(d) <= arg
    ensures c == d
  {
    PrefixChar(Key(c), arg, 2);
    PrefixChar(Key(d), arg, 2);
    PrefixChar(Key(c), arg, 6);
    PrefixChar(Key(d), arg, 6);
    if |Key(c)| > 20 && |Key(d)| > 20 {
      PrefixChar(Key(c), arg, 14);
      PrefixChar(Key(d), arg, 14);
    }
  }

  /** At most one attempt can succeed, so their order does not matter. */
  lemma ClassesAreExclusive(sev: Severities, c: Class, d: Class, arg: string)
    requires Parses(sev, c, arg) && Parses(sev, d, arg)
    ensures c == d
  {
    hide Parses;
    if c != Remap { KeyedClass(sev, c, arg); }
    if d != Remap { KeyedClass(sev, d, arg); }
    if c != Remap && d != Remap { KeysDiffer(c, d, arg); }
  }

  /** An argument is in class `c` exactly when the attempt for `c` alone would take it. */
  lemma ClassIsTheOneThatParses(sev: Severities, c: Class, arg: string)
    requires c != Unparsed
    ensures ClassOf(sev, arg) == c <==> Parses(sev, c, arg)
  {
    hide IsRule, Lexemes, IsBool;
    if Parses(sev, c, arg) {
      ClassesAreExclusive(sev, ClassOf(sev, arg), c, arg);
    }
  }

  // ---------- What the loop collects ----------

  /** The indices below `n` of the arguments in class `c`. */
  ghost function Indices(sev: Severities, argv: seq<string>, c: Class, n: nat): seq<nat>
    requires n <= |argv|
  {
    if n == 0 then []
    else Indices(sev, argv, c, n - 1) + (if ClassOf(sev, argv[n - 1]) == c then [n - 1] else [])
  }

  /** They are exactly those, in increasing order. */
  lemma {:induction false} IndicesFilter(sev: Severities, argv: seq<string>, c: Class, n: nat)
    requires n <= |argv|
    ensures var ix := Indices(sev, argv, c, n);
            && (forall i, j :: 0 <= i < j < |ix| ==> ix[i] < ix[j])
            && (forall k :: k in ix <==> 0 <= k < n && ClassOf(sev, argv[k]) == c)
  {
    hide ClassOf;
    if n > 0 {
      IndicesFilter(sev, argv, c, n - 1);
      var before := Indices(sev, argv, c, n - 1);
      assert forall i :: 0 <= i < |before| ==> before[i] in before;
    }
  }

  /** The arguments, in order, that are in class `c`. */
  ghost function Filter(sev: Severities, argv: seq<string>, c: Class): seq<string> {
    if argv == [] then []
    else Filter(sev, argv[..|argv| - 1], c)
         + (if ClassOf(sev, argv[|argv| - 1]) == c then [argv[|argv| - 1]] else [])
  }

  ghost function At(argv: seq<string>, ix: seq<nat>): seq<string>
    requires forall i :: 0 <= i < |ix| ==> ix[i] < |argv|
  {
    seq(|ix|, i requires 0 <= i < |ix| && ix[i] < |argv| => argv[ix[i]])
  }

  lemma {:induction false} IndicesPick(sev: Severities, argv: seq<string>, c: Class, n: nat)
    requires n <= |argv|
    ensures forall i :: 0 <= i < |Indices(sev, argv, c, n)| ==> Indices(sev, argv, c, n)[i] < n
    ensures At(argv, Indices(sev, argv, c, n)) == Filter(sev, argv[..n], c)
  {
    hide ClassOf;
    if n > 0 {
      IndicesPick(sev, argv, c, n - 1);
      assert argv[..n][..n - 1] == argv[..n - 1];
      var ix := Indices(sev, argv, c, n - 1);
      if ClassOf(sev, argv[n - 1]) == c {
        assert At(argv, ix + [n - 1]) == At(argv, ix) + [argv[n - 1]];
      }
    }
  }

  datatype Settings = Settings(
    logLevel: int, hasLogConfig: bool, stdoutDisabled: bool, rosoutDisabled: bool, extLibDisabled: bool)

  const DEFAULT_SETTINGS := Settings(-1, false, false, false, false)

  /** The effect of one argument on the log settings; a later argument overrides an earlier one. */
  ghost function Apply(sev: Severities, s: Settings, arg: string): Settings {
    match ClassOf(sev, arg)
    case LogLevel => s.(logLevel := sev(arg[|LOG_LEVEL_RULE|..]).value)
    case LogConfig => s.(hasLogConfig := true)
    case DisableStdout => s.(stdoutDisabled := ToBool(arg[|DISABLE_STDOUT_RULE|..]).value)
    case DisableRosout => s.(rosoutDisabled := ToBool(arg[|DISABLE_ROSOUT_RULE|..]).value)
    case DisableExtLib => s.(extLibDisabled := ToBool(arg[|DISABLE_EXT_LIB_RULE|..]).value)
    case _ => s
  }

  ghost function ApplyAll(sev: Severities, argv: seq<string>): Settings {
    if argv == [] then DEFAULT_SETTINGS else Apply(sev, ApplyAll(sev, argv[..|argv| - 1]), argv[|argv| - 1])
  }

  /** Rules and file names, in the order of their arguments. */
  ghost function Rules(args: seq<string>): seq<Rule> {
    seq(|args|, i requires 0 <= i < |args| => RuleOf(args[i]))
  }

  ghost function Paths(args: seq<string>): seq<string>
    requires forall i :: 0 <= i < |args| ==> PARAM_FILE_RULE <= args[i]
  {
    seq(|args|, i requires 0 <= i < |args| && PARAM_FILE_RULE <= args[i] => args[i][|PARAM_FILE_RULE|..])
  }

  lemma {:induction false} FilterIsInClass(sev: Severities, argv: seq<string>, c: Class)
    ensures forall a :: a in Filter(sev, argv, c) ==> a in argv && ClassOf(sev, a) == c
    decreases argv
  {
    hide ClassOf;
    if argv != [] {
      FilterIsInClass(sev, argv[..|argv| - 1], c);
    }
  }

  method ReadBool(key: string, arg: string) returns (b: Option<bool>)
    ensures b == if IsBool(key, arg) then ToBool(arg[|key|..]) else None
  {
    if !(key <= arg) {
      return None;
    }
    var s := arg[|key|..];
    for i := 0 to |TRUE_PREFIXES|
      invariant forall j :: 0 <= j < i ==> !(TRUE_PREFIXES[j] <= s)
    {
      if TRUE_PREFIXES[i] <= s {
        return Some(true);
      }
    }
    for i := 0 to |FALSE_PREFIXES|
      invariant forall j :: 0 <= j < i ==> !(FALSE_PREFIXES[j] <= s)
    {
      if FALSE_PREFIXES[i] <= s {
        return Some(false);
      }
    }
    b := None;
  }

  /** All attempts on one argument, in order. */
  method ParseOne(sev: Severities, arg: string, s: Settings) returns (c: Class, rule: Option<Rule>, s': Settings)
    requires CString(arg)
    ensures c == ClassOf(sev, arg) && s' == Apply(sev, s, arg)
    ensures c == Remap ==> rule == Some(RuleOf(arg)) && Unparse(RuleOf(arg)) == arg
  {
    hide IsRule, Lexemes, RuleOf, Unparse, ToBool;
    rule, s' := None, s;
    if PARAM_FILE_RULE <= arg {
      return ParamFile, rule, s';
    }
    rule := ParseRemapRule(arg);
    if rule.Some? {
      return Remap, rule, s';
    }
    if LOG_LEVEL_RULE <= arg {
      var level := sev(arg[|LOG_LEVEL_RULE|..]);
      if level.Some? {
        return LogLevel, rule, s.(logLevel := level.value);
      }
    }
    if LOG_CONFIG_RULE <= arg {
      return LogConfig, rule, s.(hasLogConfig := true);
    }
    var b := ReadBool(DISABLE_STDOUT_RULE, arg);
    if b.Some? {
      return DisableStdout, rule, s.(stdoutDisabled := b.value);
    }
    b := ReadBool(DISABLE_ROSOUT_RULE, arg);
    if b.Some? {
      return DisableRosout, rule, s.(rosoutDisabled := b.value);
    }
    b := ReadBool(DISABLE_EXT_LIB_RULE, arg);
    if b.Some? {
      return DisableExtLib, rule, s.(extLibDisabled := b.value);
    }
    c := Unparsed;
  }

  /** Every argument lands in its one class, and each list keeps the order of the command line. */
  method ParseArguments(sev: Severities, argv: seq<string>)
    returns (rules: seq<Rule>, files: seq<string>, unparsed: seq<nat>, settings: Settings)
    requires forall a :: a in argv ==> CString(a)
    ensures rules == Rules(Filter(sev, argv, Remap))
    ensures var fs := Filter(sev, argv, ParamFile); forall i :: 0 <= i < |fs| ==> PARAM_FILE_RULE <= fs[i]
    ensures files == Paths(Filter(sev, argv, ParamFile))
    ensures unparsed == Indices(sev, argv, Unparsed, |argv|)
    ensures settings == ApplyAll(sev, argv)
  {
    hide RuleOf, Parses, Apply, ClassOf;
    rules, files, unparsed, settings := [], [], [], DEFAULT_SETTINGS;
    FilterHasPrefix(sev, argv);
    for i := 0 to |argv|
      invariant rules == Rules(Filter(sev, argv[..i], Remap))
      invariant var fs := Filter(sev, argv[..i], ParamFile); forall j :: 0 <= j < |fs| ==> PARAM_FILE_RULE <= fs[j]
      invariant files == Paths(Filter(sev, argv[..i], ParamFile))
      invariant unparsed == Indices(sev, argv, Unparsed, i)
      invariant settings == ApplyAll(sev, argv[..i])
    {
      assert argv[..i + 1][..i] == argv[..i];
      FilterHasPrefix(sev, argv[..i + 1]);
      var c, rule;
      c, rule, settings := ParseOne(sev, argv[i], settings);
      if c == ParamFile {
        assert argv[i] in Filter(sev, argv[..i + 1], ParamFile);
        files := files + [argv[i][|PARAM_FILE_RULE|..]];
        continue;
      }
      if c == Remap {
        rules := rules + [rule.value];
        continue;
      }
      if c == Unparsed {
        unparsed := unparsed + [i];
      }
    }
    assert argv[..|argv|] == argv;
  }

  lemma FilterHasPrefix(sev: Severities, argv: seq<string>)
    ensures var fs := Filter(sev, argv, ParamFile); forall i :: 0 <= i < |fs| ==> PARAM_FILE_RULE <= fs[i]
  {
    hide IsRule, Lexemes;
    FilterIsInClass(sev, argv, ParamFile);
  }

  /**
   Taking the ROS arguments out is the order-preserving filter of the command line; when nothing is left
   the original reports an invalid argument.
   */
  method RemoveRosArguments(sev: Severities, argv: seq<string>, unparsed: seq<nat>) returns (nonRos: Option<seq<string>>)
    requires unparsed == Indices(sev, argv, Unparsed, |argv|)
    ensures nonRos == if Filter(sev, argv, Unparsed) == [] then None else Some(Filter(sev, argv, Unparsed))
  {
    hide ClassOf;
    IndicesPick(sev, argv, Unparsed, |argv|);
    assert argv[..|argv|] == argv;
    assert |Filter(sev, argv, Unparsed)| == |unparsed|;
    if |unparsed| <= 0 {
      return None;
    }
    var out: seq<string> := [];
    for i := 0 to |unparsed|
      invariant out == At(argv, unparsed)[..i]
    {
      out := out + [argv[unparsed[i]]];
    }
    assert out == At(argv, unparsed);
    nonRos := Some(out);
  }
}
