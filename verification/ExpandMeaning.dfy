/** What the parts of a topic name stand for in its expansion. */
module ExpandMeaning {
  import opened Common
  import opened Lexer
  import opened ExpandName

  predicate IsValid(n: NodeInfo) {
    Sane(n) && n.nameValid && n.nsValid
  }

  /** The namespace with a slash at its end: the root has one already. */
  function Below(ns: string): string {
    if ns == "/" then "/" else ns + "/"
  }

  lemma UnderIsBelow(ns: string, s: string)
    requires ns != "" && ns[0] == '/'
    ensures Under(ns, s) == Below(ns) + s
  {
    assert |ns| == 1 ==> ns == "/";
  }

  /** An absolute name stays, a private one goes below the node, any other below its namespace. */
  function Resolved(s: string, n: NodeInfo): string
    requires s != ""
  {
    if s[0] == '/' then s else if s[0] == '~' then Below(n.ns) + n.name + s[1..] else Below(n.ns) + s
  }

  lemma PlainNamesExpand(s: string, n: NodeInfo, subs: Substitutions)
    requires IsValid(n) && ValidTopicName(s) && '{' !in s
    ensures Expand(s, n, subs) == Expanded(Resolved(s, n))
  {
    hide OnePass, BracesFrom, Under;
    ValidIsBalanced(s);
    RootedIsBalanced(s, n);
    UnderIsBelow(n.ns, n.name);
    UnderIsBelow(n.ns, s);
    assert '{' !in Rooted(s, n);
    PlainIsFixed(Rooted(s, n), n.name, n.ns, subs);
  }

  function Then(head: string, tail: Option<string>): Option<string> {
    if tail.None? then None else Some(head + tail.value)
  }

  /** A group behind plain text and before the rest of a name. */
  lemma GroupStandsFor(p: string, g: string, rest: string, n: NodeInfo, subs: Substitutions)
    requires NoBraces(p) && IsGroup(g) && Balanced(rest)
    ensures var v := Lookup(g, n.name, n.ns, subs);
            && Balanced(p + (g + rest))
            && OnePass(p + (g + rest), n.name, n.ns, subs)
            == if v.None? then None else Then(p + v.value, OnePass(rest, n.name, n.ns, subs))
  {
    hide OnePass, Lookup, Balanced;
    GroupConcat(g, rest, n.name, n.ns, subs);
    BalancedConcat(p, g + rest, n.name, n.ns, subs);
    var v, tail := Lookup(g, n.name, n.ns, subs), OnePass(rest, n.name, n.ns, subs);
    if v.Some? && tail.Some? {
      assert p + (v.value + tail.value) == p + v.value + tail.value;
    }
  }

  lemma OtherKey(key: string, word: string)
    requires NoBraces(key) && NoBraces(word)
    ensures IsGroup("{" + key + "}") && IsGroup("{" + word + "}")
    ensures key != word ==> "{" + key + "}" != "{" + word + "}"
  {
    var a, b := "{" + key + "}", "{" + word + "}";
    assert a[1..|a| - 1] == key && b[1..|b| - 1] == word;
  }

  /** An absolute name expands to what its groups come to. */
  lemma AbsoluteNamesExpand(s: string, n: NodeInfo, subs: Substitutions)
    requires IsValid(n) && ValidTopicName(s) && s[0] == '/'
    ensures Balanced(s)
    ensures Expand(s, n, subs)
         == match OnePass(s, n.name, n.ns, subs)
            case None => UnknownSubstitution
            case Some(out) => Expanded(out)
  {
    ValidIsBalanced(s);
    hide BracesFrom;
  }

  function WordValue(key: string, n: NodeInfo, subs: Substitutions): Option<string> {
    if key == "node" then Some(n.name)
    else if key == "ns" || key == "namespace" then Some(n.ns)
    else if key in subs then Some(subs[key])
    else None
  }

  lemma LookupOfWord(key: string, n: NodeInfo, subs: Substitutions)
    requires NoBraces(key)
    ensures Lookup("{" + key + "}", n.name, n.ns, subs) == WordValue(key, n, subs)
  {
    var g := "{" + key + "}";
    assert g[1..|g| - 1] == key;
    OtherKey(key, "node");
    OtherKey(key, "ns");
    OtherKey(key, "namespace");
    assert "{" + "node" + "}" == NODE_GROUP && "{" + "ns" + "}" == NS_GROUP && "{" + "namespace" + "}" == NAMESPACE_GROUP;
  }

  /** The node's name, its namespace under either word, or a substitution by its own name, anywhere in a name. */
  lemma GroupsMean(p: string, key: string, rest: string, n: NodeInfo, subs: Substitutions)
    requires NoBraces(p) && NoBraces(key) && Balanced(rest)
    ensures var s, v := p + ("{" + key + "}" + rest), WordValue(key, n, subs);
            && Balanced(s)
            && OnePass(s, n.name, n.ns, subs) == if v.None? then None else Then(p + v.value, OnePass(rest, n.name, n.ns, subs))
  {
    OtherKey(key, key);
    LookupOfWord(key, n, subs);
    hide OnePass, Balanced, Lookup, WordValue, IsGroup;
    GroupStandsFor(p, "{" + key + "}", rest, n, subs);
  }

  /** A single group below the root. */
  lemma GroupExpands(key: string, n: NodeInfo, subs: Substitutions)
    requires IsValid(n) && key != "" && forall i :: 0 <= i < |key| ==> IsAlpha(key[i])
    ensures Expand("/{" + key + "}", n, subs)
         == match WordValue(key, n, subs)
            case None => UnknownSubstitution
            case Some(v) => Expanded("/" + v)
  {
    var s, g := "/{" + key + "}", "{" + key + "}";
    assert s == "/" + (g + "");
    assert OnePass("", n.name, n.ns, subs) == Some("");
    GroupNameIsValid(key);
    hide Expand, ValidTopicName, OnePass, Balanced, WordValue;
    GroupsMean("/", key, "", n, subs);
    AbsoluteNamesExpand(s, n, subs);
    var v := WordValue(key, n, subs);
    if v.Some? {
      assert "/" + v.value + "" == "/" + v.value;
    }
  }

  lemma GroupNameIsValid(key: string)
    requires key != "" && forall i :: 0 <= i < |key| ==> IsAlpha(key[i])
    ensures ValidTopicName("/{" + key + "}")
  {
    var s := "/{" + key + "}";
    LettersInside(s, 2);
    assert s[1] == '{' && s[0] == '/';
  }

  lemma {:induction false} LettersInside(s: string, i: nat)
    requires 2 <= i < |s| && s[|s| - 1] == '}' && forall k :: 2 <= k < |s| - 1 ==> IsAlpha(s[k])
    ensures BracesFrom(s, i, true, i == 2)
    ensures BracesFrom(s, i, true, false)
    decreases |s| - i
  {
    if i < |s| - 1 {
      LettersInside(s, i + 1);
    }
  }
}
