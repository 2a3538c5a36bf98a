/** What the arguments other than remap rules mean, said over their texts. */
module ArgumentMeaning {
  import opened Common
  import opened Arguments

  /** A truth value is told by the first character alone. */
  function BoolText(s: string): Option<bool> {
    if s == "" then None
    else if s[0] in {'y', 'Y', 't', 'T', '1'} then Some(true)
    else if s[0] in {'n', 'N', 'f', 'F', '0'} then Some(false)
    else None
  }

  lemma BoolIsFirstCharacter(s: string)
    ensures ToBool(s) == BoolText(s)
  {
    if BeginsWithOne(s, TRUE_PREFIXES) {
      var i :| 0 <= i < |TRUE_PREFIXES| && TRUE_PREFIXES[i] <= s;
      PrefixChar(TRUE_PREFIXES[i], s, 0);
    } else if BeginsWithOne(s, FALSE_PREFIXES) {
      var i :| 0 <= i < |FALSE_PREFIXES| && FALSE_PREFIXES[i] <= s;
      PrefixChar(FALSE_PREFIXES[i], s, 0);
    }
    if s != "" {
      assert TRUE_PREFIXES[0] == "y" && TRUE_PREFIXES[1] == "Y" && TRUE_PREFIXES[4] == "t" && TRUE_PREFIXES[5] == "T"
          && TRUE_PREFIXES[8] == "1";
      assert FALSE_PREFIXES[0] == "n" && FALSE_PREFIXES[1] == "N" && FALSE_PREFIXES[4] == "f" && FALSE_PREFIXES[5] == "F"
          && FALSE_PREFIXES[8] == "0";
      assert forall w: string :: |w| == 1 ==> (w <= s <==> w[0] == s[0]);
    }
  }

  /** An argument with a key is in the class of the key or in none. */
  lemma KeyDecides(sev: Severities, c: Class, x: string)
    requires Key(c) != ""
    ensures ClassOf(sev, Key(c) + x) == if Parses(sev, c, Key(c) + x) then c else Unparsed
  {
    hide Parses;
    var arg := Key(c) + x;
    var d := ClassOf(sev, arg);
    ClassIsTheOneThatParses(sev, c, arg);
    if d != Unparsed {
      ClassIsTheOneThatParses(sev, d, arg);
      if d == Remap {
        KeyIsReserved(c, x);
      } else {
        KeyedClass(sev, d, arg);
        KeysDiffer(c, d, arg);
      }
    }
  }

  lemma KeyIsReserved(c: Class, x: string)
    requires Key(c) != ""
    ensures forall sev: Severities :: !Parses(sev, Remap, Key(c) + x)
  {
    var arg := Key(c) + x;
    assert arg[0] == Key(c)[0] && arg[1] == Key(c)[1] && arg[2] == Key(c)[2];
    assert arg[..3] == "__p" || arg[..3] == "__l";
    ReservedIsNoRule(arg);
  }

  /** A parameter file is the text behind its key. */
  lemma ParamFileMeans(sev: Severities, x: string)
    ensures ClassOf(sev, "__params:=" + x) == ParamFile
    ensures "__params:=" <= "__params:=" + x && Paths(["__params:=" + x]) == [x]
  {
    KeyDecides(sev, ParamFile, x);
    assert ("__params:=" + x)[10..] == x;
  }

  /** Which setting each log argument changes, and to what; the other settings stay. */
  lemma SettingsMean(sev: Severities, s: Settings, x: string)
    ensures Apply(sev, s, "__log_level:=" + x) == if sev(x).Some? then s.(logLevel := sev(x).value) else s
    ensures Apply(sev, s, "__log_config_file:=" + x) == s.(hasLogConfig := true)
    ensures Apply(sev, s, "__log_disable_stdout:=" + x)
         == if BoolText(x).Some? then s.(stdoutDisabled := BoolText(x).value) else s
    ensures Apply(sev, s, "__log_disable_rosout:=" + x)
         == if BoolText(x).Some? then s.(rosoutDisabled := BoolText(x).value) else s
    ensures Apply(sev, s, "__log_disable_external_lib:=" + x)
         == if BoolText(x).Some? then s.(extLibDisabled := BoolText(x).value) else s
  {
    BoolIsFirstCharacter(x);
    hide ClassOf, ToBool, BoolText;
    LogArgument(sev, LogLevel, x);
    LogArgument(sev, LogConfig, x);
    LogArgument(sev, DisableStdout, x);
    LogArgument(sev, DisableRosout, x);
    LogArgument(sev, DisableExtLib, x);
  }

  lemma LogArgument(sev: Severities, c: Class, x: string)
    requires Key(c) != ""
    ensures var arg := Key(c) + x;
            Key(c) <= arg && arg[|Key(c)|..] == x && ClassOf(sev, arg) == if Parses(sev, c, arg) then c else Unparsed
  {
    hide Key;
    KeyDecides(sev, c, x);
  }

  /** Arguments without a log key leave all settings. */
  lemma OtherArgumentsKeep(sev: Severities, s: Settings, arg: string)
    requires !("__log_" <= arg)
    ensures Apply(sev, s, arg) == s
  {
    var c := ClassOf(sev, arg);
    if c != Unparsed && c != Remap && c != ParamFile {
      ClassIsTheOneThatParses(sev, c, arg);
      KeyedClass(sev, c, arg);
      LogKey(c, arg);
    }
  }

  lemma LogKey(c: Class, arg: string)
    requires Key(c) <= arg && c != Unparsed && c != Remap && c != ParamFile
    ensures "__log_" <= arg
  {
    assert "__log_" <= Key(c);
    assert Key(c)[..6] == "__log_" && arg[..6] == Key(c)[..6];
  }
}
