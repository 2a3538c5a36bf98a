/** What an accepted argument means, said over its parts. */
module RuleMeaning {
  import opened Common
  import opened Lexer
  import opened Lookahead
  import opened RemapGrammar
  import opened RuleText
  import opened RemapParser

  // ---------- Characters of names ----------

  /** Letters, digits, underscores and slashes. */
  predicate PathChar(c: char) {
    IsAlnum(c) || c == '_' || c == '/'
  }

  lemma {:induction false} PathTextChars(s: string)
    requires IsPathText(s)
    ensures s != "" && s[|s| - 1] != '/' && !IsDigit(s[0]) && !("__" <= s)
    ensures forall i :: 0 <= i < |s| ==> PathChar(s[i])
    ensures forall i :: 0 < i < |s| && s[i - 1] == '/' ==> !IsDigit(s[i])
    decreases |s|
  {
    var k := IndexOf(s, '/');
    assert forall i :: 0 <= i < k ==> s[i] == s[..k][i];
    if k < |s| {
      PathTextChars(s[k + 1..]);
      assert forall i :: k < i < |s| ==> s[i] == s[k + 1..][i - k - 1];
    }
    PrefixChar("__", s, 0);
    PrefixChar("__", s, 1);
  }

  predicate NameChars(s: string) {
    forall i :: 0 <= i < |s| ==> PathChar(s[i]) || s[i] == '~'
  }

  lemma RootAndPath(s: string)
    requires IsNameText(s)
    ensures s != "" && !("__" <= s) && NameChars(s)
  {
    hide IsPathText;
    PrefixChar("__", s, 0);
    if "/" <= s {
      PathTextChars(s[1..]);
      assert s == "/" + s[1..];
    } else if "~/" <= s {
      PathTextChars(s[2..]);
      assert s == "~/" + s[2..];
    } else {
      PathTextChars(s);
    }
  }

  lemma NameTextChars(s: string)
    requires IsNameText(s)
    ensures s != "" && !("__" <= s) && !("rostopic://" <= s) && !("rosservice://" <= s)
    ensures ':' !in s && '{' !in s && '}' !in s && '\0' !in s
  {
    RootAndPath(s);
    hide IsNameText;
    PrefixChar("rostopic://", s, 8);
    PrefixChar("rosservice://", s, 10);
  }

  // ---------- The rule of an argument ----------

  /** A body does not look prefixed. */
  lemma NoPrefix(body: string)
    requires IsBodyText(body)
    ensures BodyStart(body) == 0 && RuleOf(body) == BodyRule(body, None)
  {
    hide Lex, Lexemes, IsBodyText, AcceptsBody, BodyRule;
    BodyIff(body, 0);
    StreamHead(body, 0);
    assert body[0..] == body;
    var ls := Lexemes(body, 0);
    if BodyStart(body) > 0 {
      StreamHead(body, Lex(body).1);
      PrefixIsNoName(ls);
    }
  }

  lemma WithPrefix(n: string, body: string)
    requires IsToken(n) && IsBodyText(body)
    ensures RuleOf(n + ":" + body) == BodyRule(body, Some(n)) && IsRuleText(n + ":" + body)
  {
    hide Lex, IsBodyText, BodyRule;
    var arg := n + ":" + body;
    assert arg == n + [':'] + body;
    IndexOfFirst(n, ':', body);
    assert arg[..|n|] == n && arg[|n| + 1..] == body;
    PrefixedText(arg, |n|);
    PunctuationTexts(arg[|n|..]);
  }

  /** Two names with the separator between them. */
  lemma PairIsBody(from: string, to: string)
    requires IsNameText(from) && IsNameText(to)
    ensures var s := from + ":=" + to;
            && IsPairText(s) && !("rostopic://" <= s) && !("rosservice://" <= s) && !("__node:=" <= s) && !("__ns:=" <= s)
  {
    hide IsNameText;
    NameTextChars(from);
    SplitAtColon(from, to);
    var s := from + ":=" + to;
    assert s[|from|..] == ":=" + to;
    assert forall i :: 0 <= i < |from| ==> s[i] == from[i];
    NotAScheme(s, "rostopic://", 8);
    NotAScheme(s, "rosservice://", 10);
    PrefixChar("__node:=", s, 0);
    PrefixChar("__node:=", s, 1);
    PrefixChar("__ns:=", s, 0);
    PrefixChar("__ns:=", s, 1);
    assert "__" <= from <==> |from| >= 2 && from[0] == '_' && from[1] == '_';
  }

  lemma NotAScheme(s: string, url: string, n: nat)
    requires n + 3 == |url| && url[n] == ':' && url[n + 1] == '/'
    requires var k := IndexOf(s, ':'); ":=" <= s[k..]
    requires ':' !in url[..n]
    ensures !(url <= s)
  {
    var k := IndexOf(s, ':');
    PrefixChar(url, s, n);
    PrefixChar(url, s, n + 1);
    PrefixChar(":=", s[k..], 1);
    if k < n {
      PrefixChar(url, s, k);
      assert url[k] == url[..n][k];
    } else if n < k {
      assert n < |s| ==> s[n] == s[..k][n];
    }
  }

  lemma KindOfPair(s: string)
    requires !("rostopic://" <= s) && !("rosservice://" <= s)
    ensures KindOf(s) == RemapType(true, true, false, false) && Scheme(KindOf(s)) == ""
  {
  }

  lemma KindOfScheme(url: string, s: string)
    requires url <= s && (url == "rostopic://" || url == "rosservice://")
    ensures KindOf(s) == RemapType(url == "rostopic://", url == "rosservice://", false, false) && Scheme(KindOf(s)) == url
    ensures WithoutScheme(s) == s[|url|..] && !("__node:=" <= s) && !("__ns:=" <= s)
  {
    PrefixChar("rostopic://", s, 3);
    PrefixChar("rosservice://", s, 3);
    PrefixChar("__node:=", s, 0);
    PrefixChar("__ns:=", s, 0);
  }

  /** A name rule, with or without a scheme: the type bits, the name to match and the replacement. */
  lemma NameRuleMeans(from: string, to: string)
    requires IsNameText(from) && IsNameText(to)
    ensures var s := from + ":=" + to;
            && IsBodyText(s) && BodyRule(s, None) == Rule(RemapType(true, true, false, false), None, Some(from), to)
  {
    hide IsNameText, IsPairText, IsToken, IsNamespaceText, BodyRule, UnparseBody, KindOf, Scheme, WithoutScheme;
    var s := from + ":=" + to;
    PairIsBody(from, to);
    NoScheme(s);
    NameTextChars(from);
    KindOfPair(s);
    assert "" + from == from;
    BodyRuleOfName(KindOf(s), from, to, s);
  }

  lemma SchemeRuleMeans(url: string, from: string, to: string)
    requires IsNameText(from) && IsNameText(to) && (url == "rostopic://" || url == "rosservice://")
    ensures var s := url + from + ":=" + to;
            && IsBodyText(s)
            && BodyRule(s, None)
            == Rule(RemapType(url == "rostopic://", url == "rosservice://", false, false), None, Some(from), to)
  {
    hide IsNameText, IsPairText, IsToken, IsNamespaceText, BodyRule, UnparseBody, KindOf, Scheme, WithoutScheme;
    var s := url + from + ":=" + to;
    DropScheme(url, from, to);
    PairIsBody(from, to);
    NameTextChars(from);
    assert s == url + (from + ":=" + to);
    KindOfScheme(url, s);
    BodyRuleOfName(KindOf(s), from, to, s);
  }

  lemma HeadRuleMeans(to: string)
    ensures IsToken(to) ==>
              && IsBodyText("__node:=" + to)
              && BodyRule("__node:=" + to, None) == Rule(RemapType(false, false, true, false), None, None, to)
    ensures IsNamespaceText(to) ==>
              && IsBodyText("__ns:=" + to)
              && BodyRule("__ns:=" + to, None) == Rule(RemapType(false, false, false, true), None, None, to)
  {
    hide IsNameRuleText, IsToken, IsNamespaceText;
    BodyRuleOfHead(to);
    hide BodyRule;
    assert ("__node:=" + to)[8..] == to && "__node:=" <= "__node:=" + to;
    var s := "__ns:=" + to;
    assert s[6..] == to && "__ns:=" <= s && s[2] == 'n' && s[3] == 's';
    PrefixChar("__node:=", s, 3);
  }

  /** The argument of a body with or without a node prefix. */
  function Prefixed(node: Option<string>, body: string): string {
    if node.Some? then node.value + ":" + body else body
  }

  /**
   What each kind of argument means: `from:=to` for topics and services, with a scheme for one of them, `__node:=to` and
   `__ns:=to`; behind a token and a colon the same for that node alone.
   */
  lemma RuleMeans(node: Option<string>, from: string, to: string)
    requires node.Some? ==> IsToken(node.value)
    ensures IsNameText(from) && IsNameText(to) ==>
              RuleOf(Prefixed(node, from + ":=" + to)) == Rule(RemapType(true, true, false, false), node, Some(from), to)
    ensures IsNameText(from) && IsNameText(to) ==>
              RuleOf(Prefixed(node, "rostopic://" + from + ":=" + to))
              == Rule(RemapType(true, false, false, false), node, Some(from), to)
    ensures IsNameText(from) && IsNameText(to) ==>
              RuleOf(Prefixed(node, "rosservice://" + from + ":=" + to))
              == Rule(RemapType(false, true, false, false), node, Some(from), to)
    ensures IsToken(to) ==>
              RuleOf(Prefixed(node, "__node:=" + to)) == Rule(RemapType(false, false, true, false), node, None, to)
    ensures IsNamespaceText(to) ==>
              RuleOf(Prefixed(node, "__ns:=" + to)) == Rule(RemapType(false, false, false, true), node, None, to)
  {
    hide IsNameText, IsToken, IsNamespaceText, RuleOf, BodyRule, IsBodyText;
    if IsNameText(from) && IsNameText(to) {
      NameRuleMeans(from, to);
      BodyMeans(node, from + ":=" + to);
      SchemeRuleMeans("rostopic://", from, to);
      BodyMeans(node, "rostopic://" + from + ":=" + to);
      SchemeRuleMeans("rosservice://", from, to);
      BodyMeans(node, "rosservice://" + from + ":=" + to);
    }
    HeadRuleMeans(to);
    if IsToken(to) {
      BodyMeans(node, "__node:=" + to);
    }
    if IsNamespaceText(to) {
      BodyMeans(node, "__ns:=" + to);
    }
  }

  lemma BodyMeans(node: Option<string>, body: string)
    requires (node.Some? ==> IsToken(node.value)) && IsBodyText(body)
    ensures RuleOf(Prefixed(node, body)) == BodyRule(body, None).(nodeName := node) && IsRuleText(Prefixed(node, body))
  {
    hide IsToken, RuleOf, BodyRule, IsBodyText;
    NoPrefix(body);
    BodyRuleKeepsPrefix(body, node);
    if node.Some? {
      WithPrefix(node.value, body);
    }
  }
}
