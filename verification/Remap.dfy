/** Remapping of names: the first applicable rule, local ones before global ones. */
module Remap {
  import opened Common
  import opened Lexer
  import opened Lookahead
  import opened RemapGrammar
  import opened RemapParser
  import opened ExpandName
  import A = Arguments

  /** What is being remapped, for which node. */
  datatype Query = Query(mask: RemapType, name: string, node: NodeInfo, subs: Substitutions)

  datatype Ret = RetOk(output: Option<string>) | RetInvalidArgument | RetFailed(cause: Expansion)

  predicate ExpandsNames(kind: RemapType) {
    kind.topic || kind.service
  }

  predicate SharesBit(a: RemapType, b: RemapType) {
    (a.topic && b.topic) || (a.service && b.service) || (a.nodename && b.nodename) || (a.namespace_ && b.namespace_)
  }

  /** The rule is of the right type and not meant for another node. */
  predicate Concerns(r: Rule, q: Query) {
    SharesBit(r.kind, q.mask) && (r.nodeName.Some? ==> r.nodeName.value == q.node.name)
  }

  /** The rule applies: for topics and services its match side, expanded, is the name. */
  predicate Applies(r: Rule, q: Query)
    requires Sane(q.node)
  {
    && Concerns(r, q)
    && (ExpandsNames(r.kind) ==> r.match_.Some? && Expand(r.match_.value, q.node, q.subs) == Expanded(q.name))
  }

  /** Should the rule be looked at, its two sides can be expanded. */
  predicate Readable(r: Rule, q: Query) {
    Concerns(r, q) && ExpandsNames(r.kind) ==>
      (r.match_.Some? ==> Expandable(r.match_.value, q.node, q.subs)) && Expandable(r.replacement, q.node, q.subs)
  }

  /** Expanding the rule's match side shows that the node itself is invalid; the search gives up. */
  predicate Aborts(r: Rule, q: Query)
    requires Sane(q.node)
  {
    && Concerns(r, q) && ExpandsNames(r.kind) && r.match_.Some?
    && Expand(r.match_.value, q.node, q.subs) in {NodeInvalidName, NodeInvalidNamespace}
  }

  predicate Decides(r: Rule, q: Query)
    requires Sane(q.node)
  {
    Applies(r, q) || Aborts(r, q)
  }

  /** The earliest rule that decides, or the number of rules. */
  function FirstIndex(rules: seq<Rule>, q: Query): (i: nat)
    requires Sane(q.node)
    ensures i <= |rules| && (forall j :: 0 <= j < i ==> !Decides(rules[j], q)) && (i < |rules| ==> Decides(rules[i], q))
  {
    if rules == [] || Decides(rules[0], q) then 0 else 1 + FirstIndex(rules[1..], q)
  }

  /** What the deciding rule yields. Its output is not looked up again. */
  function Output(r: Rule, q: Query): Ret
    requires Sane(q.node)
  {
    if Aborts(r, q) then RetFailed(Expand(r.match_.value, q.node, q.subs))
    else if ExpandsNames(r.kind) then
      match Expand(r.replacement, q.node, q.subs)
      case Expanded(out) => RetOk(Some(out))
      case e => RetFailed(e)
    else RetOk(Some(r.replacement))
  }

  /** One search over one list of rules. */
  function Remapped(rules: seq<Rule>, q: Query): Ret
    requires Sane(q.node)
  {
    var i := FirstIndex(rules, q);
    if i == |rules| then RetOk(None) else Output(rules[i], q)
  }

  /** With a valid node the result is that of the earliest applicable rule and absent when there is none. */
  lemma ValidNodeNeverAborts(rules: seq<Rule>, q: Query, i: nat)
    requires Sane(q.node) && q.node.nameValid && q.node.nsValid
    requires i <= |rules| && (forall j :: 0 <= j < i ==> !Applies(rules[j], q)) && (i < |rules| ==> Applies(rules[i], q))
    ensures Remapped(rules, q) == if i == |rules| then RetOk(None) else Output(rules[i], q)
    ensures i < |rules| && Expand(rules[i].replacement, q.node, q.subs).Expanded? && ExpandsNames(rules[i].kind) ==>
              Remapped(rules, q) == RetOk(Some(Expand(rules[i].replacement, q.node, q.subs).name))
  {
    hide Expand;
    forall r: Rule ensures !Aborts(r, q) {
      if r.match_.Some? { ExpandOfValidNode(r.match_.value, q); }
    }
    var k := FirstIndex(rules, q);
    assert k < i ==> Decides(rules[k], q);
    assert i < k ==> !Decides(rules[i], q);
  }

  lemma ExpandOfValidNode(s: string, q: Query)
    requires Sane(q.node) && q.node.nameValid && q.node.nsValid
    ensures Expand(s, q.node, q.subs) !in {NodeInvalidName, NodeInvalidNamespace}
  {
  }

  lemma FirstIndexOfConcat(a: seq<Rule>, b: seq<Rule>, q: Query)
    requires Sane(q.node)
    ensures FirstIndex(a + b, q) == if FirstIndex(a, q) < |a| then FirstIndex(a, q) else |a| + FirstIndex(b, q)
  {
    hide Decides;
    var i, j, k := FirstIndex(a, q), FirstIndex(b, q), FirstIndex(a + b, q);
    assert forall m :: 0 <= m < |a| ==> (a + b)[m] == a[m];
    assert forall m :: 0 <= m < |b| ==> (a + b)[|a| + m] == b[m];
    var w := if i < |a| then i else |a| + j;
    if w < |a + b| {
      assert Decides((a + b)[w], q);
    }
  }

  // ---------- The code ----------

  /** The scanning loop over one list. */
  method FirstMatch(rules: seq<Rule>, q: Query) returns (failure: Option<Expansion>, found: Option<Rule>)
    requires Sane(q.node) && forall i :: 0 <= i < |rules| ==> Readable(rules[i], q)
    ensures var i := FirstIndex(rules, q);
            if i == |rules| then failure == None && found == None
            else if Aborts(rules[i], q) then failure == Some(Expand(rules[i].match_.value, q.node, q.subs))
            else failure == None && found == Some(rules[i])
  {
    hide Expand, Expandable;
    failure, found := None, None;
    for i := 0 to |rules|
      invariant failure == None && found == None
      invariant FirstIndex(rules, q) == i + FirstIndex(rules[i..], q)
    {
      var rule := rules[i];
      assert rules[i..][0] == rule && rules[i..][1..] == rules[i + 1..];
      if !SharesBit(rule.kind, q.mask) {
        continue;
      }
      if rule.nodeName.Some? && rule.nodeName.value != q.node.name {
        continue;
      }
      var matched := false;
      if ExpandsNames(rule.kind) {
        if rule.match_.None? {
          continue; // expanding a null name is an error that does not end the search
        }
        var e := ExpandTopicName(rule.match_.value, q.node, q.subs);
        if !e.Expanded? {
          if e == NodeInvalidNamespace || e == NodeInvalidName {
            return Some(e), None;
          }
          continue;
        }
        matched := e.name == q.name;
      } else {
        matched := true;
      }
      if matched {
        return None, Some(rule);
      }
    }
  }

  /** Local rules, then global ones: the same as one search over both lists joined. */
  method RemapName(local: Option<seq<Rule>>, global: Option<seq<Rule>>, q: Query) returns (ret: Ret)
    requires Sane(q.node)
    requires local.Some? ==> forall i :: 0 <= i < |local.value| ==> Readable(local.value[i], q)
    requires global.Some? ==> forall i :: 0 <= i < |global.value| ==> Readable(global.value[i], q)
    ensures local.None? && global.None? ==> ret == RetInvalidArgument
    ensures local.Some? || global.Some? ==>
              ret == Remapped((if local.Some? then local.value else []) + (if global.Some? then global.value else []), q)
  {
    hide Expand, Expandable;
    if local.None? && global.None? {
      return RetInvalidArgument;
    }
    ghost var a := if local.Some? then local.value else [];
    ghost var b := if global.Some? then global.value else [];
    FirstIndexOfConcat(a, b, q);
    var failure: Option<Expansion>, rule: Option<Rule> := None, None;
    if local.Some? {
      failure, rule := FirstMatch(local.value, q);
      if failure.Some? {
        return RetFailed(failure.value);
      }
    }
    if rule.None? && global.Some? {
      failure, rule := FirstMatch(global.value, q);
      if failure.Some? {
        return RetFailed(failure.value);
      }
    }
    if rule.None? {
      return RetOk(None);
    }
    if ExpandsNames(rule.value.kind) {
      var e := ExpandTopicName(rule.value.replacement, q.node, q.subs);
      ret := if e.Expanded? then RetOk(Some(e.name)) else RetFailed(e);
    } else {
      ret := RetOk(Some(rule.value.replacement));
    }
  }

  // ---------- From the command line ----------

  lemma LexemeIsPlain(text: string)
    requires Lex(text).0 != NONE
    ensures Lex(text).1 <= |text| && NoBraces(text[..Lex(text).1])
  {
    LexLength(text);
    if Lex(text).0 == TOKEN {
      TokenIsPlain(text);
    } else {
      hide TokenEnd, NoneLength;
    }
  }

  lemma TokenIsPlain(text: string)
    requires Lex(text).0 == TOKEN
    ensures NoBraces(text[..Lex(text).1])
  {
    TokenIsLongestMatch(text);
    TokenExpression(text[..Lex(text).1]);
    hide Lex, MatchesToken;
  }

  lemma {:induction false} LexedIsPlain(text: string, pos: nat)
    requires pos <= |text| && NONE !in Lexemes(text, pos)
    ensures NoBraces(text[pos..])
    decreases |text| - pos
  {
    hide Lex;
    StreamHead(text, pos);
    var (t, n) := LexAt(text, pos);
    assert t == Lexemes(text, pos)[0] && t in Lexemes(text, pos);
    LexemeIsPlain(text[pos..]);
    if t != EOF {
      assert forall l :: l in Lexemes(text, pos + n) ==> l in Lexemes(text, pos)[1..] && l in Lexemes(text, pos);
      LexedIsPlain(text, pos + n);
      assert text[pos..] == text[pos..][..n] + text[pos + n..];
    }
  }

  lemma {:induction false} FailureIsLast(text: string, pos: nat)
    requires pos <= |text|
    ensures var ls := Lexemes(text, pos); ls[|ls| - 1] == EOF ==> NONE !in ls
    decreases |text| - pos
  {
    hide Lex;
    StreamHead(text, pos);
    var ls := Lexemes(text, pos);
    if |ls| > 1 {
      FailureIsLast(text, pos + LexAt(text, pos).1);
      assert ls == [ls[0]] + ls[1..];
    }
  }

  lemma SliceIsPlain(s: string, i: nat, j: nat)
    requires '{' !in s && i <= j <= |s|
    ensures '{' !in s[i..j] && '{' !in s[i..]
  {
  }

  /** Both sides of a rule are parts of the argument. */
  lemma BodyRuleIsPlain(body: string, nodeName: Option<string>)
    requires '{' !in body
    ensures var r := BodyRule(body, nodeName); '{' !in r.replacement && (r.match_.Some? ==> '{' !in r.match_.value)
  {
    hide IndexOf;
    if "__node:=" <= body {
      SliceIsPlain(body, 8, |body|);
    } else if "__ns:=" <= body {
      SliceIsPlain(body, 6, |body|);
    } else {
      var n := |Scheme(KindOf(body))|;
      SliceIsPlain(body, n, |body|);
      var rest := body[n..];
      var k := IndexOf(rest, ':');
      SliceIsPlain(rest, 0, k);
      assert rest[0..k] == rest[..k];
      if k + 2 <= |rest| {
        SliceIsPlain(rest, k + 2, |rest|);
      }
    }
  }

  lemma RuleIsReadable(arg: string, q: Query)
    requires IsRule(Lexemes(arg, 0))
    ensures Readable(RuleOf(arg), q)
  {
    hide Lexemes, Expandable, BodyRule, BodyStart, Concerns;
    FailureIsLast(arg, 0);
    LexedIsPlain(arg, 0);
    assert arg[0..] == arg;
    var n := BodyStart(arg);
    SliceIsPlain(arg, n, |arg|);
    BodyRuleIsPlain(arg[n..], if n > 0 then Some(arg[..n - 1]) else None);
    var r := RuleOf(arg);
    PlainIsExpandable(r.replacement, q.node, q.subs);
    if r.match_.Some? {
      PlainIsExpandable(r.match_.value, q.node, q.subs);
    }
  }

  /**
   From the command line to the remapped name: the rules are those of the arguments in the grammar, in order. Such rules
   hold no group, so the substitutions are free to be anything.
   */
  method RemapFromCommandLine(sev: A.Severities, argv: seq<string>, q: Query) returns (ret: Ret)
    requires Sane(q.node) && forall a :: a in argv ==> CString(a)
    ensures ret == Remapped(A.Rules(A.Filter(sev, argv, A.Remap)), q)
  {
    hide Readable, RuleOf, Lexemes;
    var rules, files, unparsed, settings := A.ParseArguments(sev, argv);
    ghost var args := A.Filter(sev, argv, A.Remap);
    A.FilterIsInClass(sev, argv, A.Remap);
    forall i | 0 <= i < |rules| ensures Readable(rules[i], q) {
      assert args[i] in args;
      A.ClassIsTheOneThatParses(sev, A.Remap, args[i]);
      RuleIsReadable(args[i], q);
    }
    ret := RemapName(None, Some(rules), q);
    assert [] + rules == rules;
  }
}
