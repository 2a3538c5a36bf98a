/** For which nodes and names a rule counts, and what a single argument does. */
module RemapMeaning {
  import opened Common
  import opened Lexer
  import opened Lookahead
  import opened RemapGrammar
  import opened RuleText
  import opened RemapParser
  import opened RuleMeaning
  import opened ExpandName
  import opened ExpandMeaning
  import opened Remap
  import A = Arguments

  // ---------- Rules that count and rules that do not ----------

  lemma RemappedWithout(a: seq<Rule>, r: Rule, b: seq<Rule>, q: Query)
    requires Sane(q.node) && !Decides(r, q)
    ensures Remapped(a + [r] + b, q) == Remapped(a + b, q)
  {
    hide Decides, Output;
    FirstIndexOfConcat(a + [r], b, q);
    FirstIndexOfConcat(a, [r], q);
    FirstIndexOfConcat(a, b, q);
    assert FirstIndex([r], q) == 1;
    var i := FirstIndex(a + b, q);
    if i < |a| {
      assert (a + [r] + b)[i] == (a + b)[i] == a[i];
    } else if i < |a| + |b| {
      assert (a + [r] + b)[i + 1] == (a + b)[i] == b[i - |a|];
    }
  }

  /** A rule meant for another node, or without a type in common with what is remapped, might as well not be there. */
  lemma OtherRulesAreSkipped(a: seq<Rule>, r: Rule, b: seq<Rule>, q: Query)
    requires Sane(q.node)
    requires || (r.nodeName.Some? && r.nodeName.value != q.node.name)
             || !((r.kind.topic && q.mask.topic) || (r.kind.service && q.mask.service)
                  || (r.kind.nodename && q.mask.nodename) || (r.kind.namespace_ && q.mask.namespace_))
    ensures Remapped(a + [r] + b, q) == Remapped(a + b, q)
  {
    hide Expand;
    RemappedWithout(a, r, b, q);
  }

  lemma SameDecision(a: seq<Rule>, r: Rule, r': Rule, b: seq<Rule>, q: Query)
    requires Sane(q.node) && (Decides(r, q) <==> Decides(r', q)) && Output(r, q) == Output(r', q)
    ensures Remapped(a + [r] + b, q) == Remapped(a + [r'] + b, q)
  {
    hide Decides, Output;
    FirstIndexOfConcat(a + [r], b, q);
    FirstIndexOfConcat(a + [r'], b, q);
    FirstIndexOfConcat(a, [r], q);
    FirstIndexOfConcat(a, [r'], q);
    assert FirstIndex([r], q) == FirstIndex([r'], q);
    var i := FirstIndex(a + [r] + b, q);
    assert i == FirstIndex(a + [r'] + b, q);
    if i < |a| {
      assert (a + [r] + b)[i] == a[i] == (a + [r'] + b)[i];
    } else if i == |a| {
      assert (a + [r] + b)[i] == r && (a + [r'] + b)[i] == r';
    } else if i < |a| + 1 + |b| {
      assert (a + [r] + b)[i] == b[i - |a| - 1] == (a + [r'] + b)[i];
    }
  }

  /** A rule meant for this very node acts like the rule without the prefix. */
  lemma OwnPrefixIsNone(a: seq<Rule>, r: Rule, b: seq<Rule>, q: Query)
    requires Sane(q.node) && r.nodeName == Some(q.node.name)
    ensures Remapped(a + [r] + b, q) == Remapped(a + [r.(nodeName := None)] + b, q)
  {
    hide Expand;
    SameDecision(a, r, r.(nodeName := None), b, q);
  }

  /** A rule for everyone, first in the list. */
  lemma FirstRuleDecides(r: Rule, b: seq<Rule>, q: Query)
    requires IsValid(q.node) && r.nodeName == None
    ensures ((r.kind.topic && q.mask.topic) || (r.kind.service && q.mask.service)) && r.match_.Some?
            && Expand(r.match_.value, q.node, q.subs) == Expanded(q.name) && Expand(r.replacement, q.node, q.subs).Expanded?
            ==> Remapped([r] + b, q) == RetOk(Some(Expand(r.replacement, q.node, q.subs).name))
    ensures !r.kind.topic && !r.kind.service
            && ((r.kind.nodename && q.mask.nodename) || (r.kind.namespace_ && q.mask.namespace_))
            ==> Remapped([r] + b, q) == RetOk(Some(r.replacement))
  {
    hide Expand;
    if r.match_.Some? {
      ExpandOfValidNode(r.match_.value, q);
    }
  }

  // ---------- One argument ----------

  lemma {:induction false} NoBraceScan(s: string, i: nat, justOpened: bool)
    requires i <= |s| && NoBraces(s)
    ensures BracesFrom(s, i, false, justOpened)
    decreases |s| - i
  {
    if i < |s| {
      NoBraceScan(s, i + 1, false);
    }
  }

  lemma RootedPathIsValid(root: string, path: string)
    requires IsPathText(path) && (root == "" || root == "/" || root == "~/") && BracesFrom(root + path, 0, false, false)
    ensures ValidTopicName(root + path)
  {
    hide BracesFrom, IsPathText;
    PathTextChars(path);
    var s := root + path;
    assert forall i :: |root| <= i < |s| ==> s[i] == path[i - |root|];
  }

  /** The names of rules are valid topic names. */
  lemma NameTextIsValid(s: string)
    requires IsNameText(s)
    ensures ValidTopicName(s) && '{' !in s
  {
    NameTextChars(s);
    NoBraceScan(s, 0, false);
    hide BracesFrom, IsPathText, ValidTopicName;
    var root := if "/" <= s then "/" else if "~/" <= s then "~/" else "";
    assert s == root + s[|root|..];
    RootedPathIsValid(root, s[|root|..]);
  }

  lemma OnlyArgument(sev: A.Severities, arg: string)
    requires IsRuleText(arg)
    ensures A.Rules(A.Filter(sev, [arg], A.Remap)) == [RuleOf(arg)]
  {
    hide RuleOf, IsRuleText, Lexemes, IsRule;
    RuleIff(arg);
    A.ClassIsTheOneThatParses(sev, A.Remap, arg);
    assert [arg][..0] == [];
    assert A.Filter(sev, [], A.Remap) == [];
    assert A.Filter(sev, [arg], A.Remap) == [arg];
  }

  /** The scheme, if any, lets the rule act on what is remapped. */
  predicate SchemeAllows(scheme: string, mask: RemapType) {
    (mask.topic && scheme != "rosservice://") || (mask.service && scheme != "rostopic://")
  }

  lemma NameRuleActs(r: Rule, node: Option<string>, from: string, to: string, q: Query)
    requires IsValid(q.node) && IsNameText(from) && IsNameText(to)
    requires r.nodeName == node && r.match_ == Some(from) && r.replacement == to && !r.kind.nodename && !r.kind.namespace_
    ensures Remapped([r], q)
         == if (node.None? || node.value == q.node.name)
               && ((r.kind.topic && q.mask.topic) || (r.kind.service && q.mask.service)) && q.name == Resolved(from, q.node)
            then RetOk(Some(Resolved(to, q.node))) else RetOk(None)
  {
    NameTextIsValid(from);
    NameTextIsValid(to);
    hide ValidTopicName, IsNameText, Resolved;
    PlainNamesExpand(from, q.node, q.subs);
    PlainNamesExpand(to, q.node, q.subs);
    hide Expand;
  }

  lemma OneArgument(node: Option<string>, scheme: string, from: string, to: string)
    requires node.Some? ==> IsToken(node.value)
    requires (scheme == "" || scheme == "rostopic://" || scheme == "rosservice://") && IsNameText(from) && IsNameText(to)
    ensures var arg := Prefixed(node, scheme + from + ":=" + to);
            && IsRuleText(arg)
            && RuleOf(arg)
            == Rule(RemapType(scheme != "rosservice://", scheme != "rostopic://", false, false), node, Some(from), to)
  {
    hide IsNameText, IsToken, RuleOf, BodyRule, IsBodyText, IsRuleText;
    var body := scheme + from + ":=" + to;
    if scheme == "" {
      assert "" + from == from;
      NameRuleMeans(from, to);
    } else {
      SchemeRuleMeans(scheme, from, to);
    }
    BodyMeans(node, body);
  }

  lemma ArgumentIsCString(node: Option<string>, scheme: string, from: string, to: string)
    requires node.Some? ==> IsToken(node.value)
    requires (scheme == "" || scheme == "rostopic://" || scheme == "rosservice://") && IsNameText(from) && IsNameText(to)
    ensures CString(Prefixed(node, scheme + from + ":=" + to))
  {
    NameTextChars(from);
    NameTextChars(to);
    hide IsNameText;
  }

  lemma OneArgumentActs(sev: A.Severities, node: Option<string>, scheme: string, from: string, to: string, q: Query)
    requires node.Some? ==> IsToken(node.value)
    requires (scheme == "" || scheme == "rostopic://" || scheme == "rosservice://") && IsNameText(from) && IsNameText(to)
    requires IsValid(q.node)
    ensures Remapped(A.Rules(A.Filter(sev, [Prefixed(node, scheme + from + ":=" + to)], A.Remap)), q)
         == if (node.None? || node.value == q.node.name) && SchemeAllows(scheme, q.mask) && q.name == Resolved(from, q.node)
            then RetOk(Some(Resolved(to, q.node))) else RetOk(None)
  {
    hide Remapped, RuleOf, Resolved, IsNameText, IsToken, IsRuleText, Prefixed;
    var arg := Prefixed(node, scheme + from + ":=" + to);
    OneArgument(node, scheme, from, to);
    OnlyArgument(sev, arg);
    NameRuleActs(RuleOf(arg), node, from, to, q);
  }

  /**
   A single name rule on the command line, from its characters to the outcome: it remaps exactly the name that `from` stands
   for at this node to the one that `to` stands for, if the node prefix, when there is one, is this node's name and the
   scheme, when there is one, is of the kind that is remapped.
   */
  method RemapByOneArgument(
    sev: A.Severities, node: Option<string>, scheme: string, from: string, to: string, q: Query) returns (ret: Ret)
    requires node.Some? ==> IsToken(node.value)
    requires (scheme == "" || scheme == "rostopic://" || scheme == "rosservice://") && IsNameText(from) && IsNameText(to)
    requires IsValid(q.node)
    ensures ret
         == if (node.None? || node.value == q.node.name) && SchemeAllows(scheme, q.mask) && q.name == Resolved(from, q.node)
            then RetOk(Some(Resolved(to, q.node))) else RetOk(None)
  {
    hide Remapped, Resolved, IsNameText, IsToken, Prefixed, SchemeAllows;
    var arg := Prefixed(node, scheme + from + ":=" + to);
    ArgumentIsCString(node, scheme, from, to);
    OneArgumentActs(sev, node, scheme, from, to, q);
    ret := RemapFromCommandLine(sev, [arg], q);
  }

  /** A single argument for the node's own name or namespace: it answers that kind of question alone, with its text. */
  lemma HeadArgumentActs(sev: A.Severities, node: Option<string>, to: string, q: Query)
    requires (node.Some? ==> IsToken(node.value)) && IsValid(q.node)
    ensures IsToken(to) ==>
              Remapped(A.Rules(A.Filter(sev, [Prefixed(node, "__node:=" + to)], A.Remap)), q)
              == if (node.None? || node.value == q.node.name) && q.mask.nodename then RetOk(Some(to)) else RetOk(None)
    ensures IsNamespaceText(to) ==>
              Remapped(A.Rules(A.Filter(sev, [Prefixed(node, "__ns:=" + to)], A.Remap)), q)
              == if (node.None? || node.value == q.node.name) && q.mask.namespace_ then RetOk(Some(to)) else RetOk(None)
  {
    hide RuleOf, IsNamespaceText, IsToken, IsRuleText, IsBodyText, BodyRule, Prefixed;
    HeadRuleMeans(to);
    if IsToken(to) {
      BodyMeans(node, "__node:=" + to);
      OnlyArgument(sev, Prefixed(node, "__node:=" + to));
    }
    if IsNamespaceText(to) {
      BodyMeans(node, "__ns:=" + to);
      OnlyArgument(sev, Prefixed(node, "__ns:=" + to));
    }
  }
}
