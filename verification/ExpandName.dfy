/** Expansion of topic names: `~`, `{substitutions}` and relative names. */
module ExpandName {
  import opened Common
  import opened Lexer

  const NODE_GROUP: string := "{node}"
  const NS_GROUP: string := "{ns}"
  const NAMESPACE_GROUP: string := "{namespace}"

  type Substitutions = map<string, string>

  // ---------- Validation ----------

  predicate NoBraces(s: string) {
    '{' !in s && '}' !in s
  }

  predicate TopicChar(c: char, first: bool) {
    IsAlnum(c) || c == '_' || c == '/' || (c == '~' && first) || c == '{' || c == '}'
  }

  /** Braces match and do not nest, and hold no slash, tilde or leading digit; scanned from position `i`. */
  predicate BracesFrom(s: string, i: nat, inside: bool, justOpened: bool)
    requires i <= |s|
    decreases |s| - i
  {
    if i == |s| then !inside
    else
      var c := s[i];
      if c == '{' then !inside && BracesFrom(s, i + 1, true, true)
      else if c == '}' then inside && BracesFrom(s, i + 1, false, false)
      else (inside ==> c != '/' && c != '~' && !(justOpened && IsDigit(c))) && BracesFrom(s, i + 1, inside, false)
  }

  /** The name checks of the original, in its order; only the first failure would be reported. */
  predicate ValidTopicName(s: string) {
    && s != "" && !IsDigit(s[0]) && s[|s| - 1] != '/'
    && (forall i :: 0 <= i < |s| ==> TopicChar(s[i], i == 0))
    && BracesFrom(s, 0, false, false)
    && (forall i :: 0 <= i < |s| - 1 ==> s[i] == '/' ==> !IsDigit(s[i + 1]))
    && (|s| > 2 && s[0] == '~' ==> s[1] == '/')
  }

  /** Every `{` is closed before the next one, and no `}` stands alone. */
  predicate Balanced(s: string)
    decreases |s|
  {
    if s == "" then true
    else if s[0] == '}' then false
    else if s[0] == '{' then
      var j := IndexOf(s, '}');
      j < |s| && '{' !in s[1..j] && Balanced(s[j + 1..])
    else Balanced(s[1..])
  }

  lemma {:induction false} InsideCloses(s: string, i: nat, k: nat, after: bool)
    requires i < k <= |s| && s[i] == '{' && BracesFrom(s, k, true, after)
    requires '{' !in s[i + 1..k] && '}' !in s[i..k]
    ensures var j := IndexOf(s[i..], '}');
            k <= i + j < |s| && '{' !in s[i + 1..i + j] && BracesFrom(s, i + j + 1, false, false)
    decreases |s| - k
  {
    if s[k] == '}' {
      assert s[i..] == s[i..k] + ['}'] + s[k + 1..];
      IndexOfFirst(s[i..k], '}', s[k + 1..]);
    } else {
      assert s[i + 1..k + 1] == s[i + 1..k] + [s[k]];
      assert s[i..k + 1] == s[i..k] + [s[k]];
      InsideCloses(s, i, k + 1, false);
    }
  }

  lemma {:induction false} ScannedIsBalanced(s: string, i: nat, after: bool)
    requires i <= |s| && BracesFrom(s, i, false, after)
    ensures Balanced(s[i..])
    decreases |s| - i
  {
    if i < |s| {
      if s[i] == '{' {
        InsideCloses(s, i, i + 1, true);
        var j := IndexOf(s[i..], '}');
        ScannedIsBalanced(s, i + j + 1, false);
        assert s[i..][j + 1..] == s[i + j + 1..];
        assert s[i..][1..j] == s[i + 1..i + j];
      } else {
        ScannedIsBalanced(s, i + 1, false);
        assert s[i..][1..] == s[i + 1..];
      }
    }
  }

  /** What the substitution loop relies on follows from the validation. */
  lemma ValidIsBalanced(s: string)
    requires ValidTopicName(s)
    ensures Balanced(s)
  {
    ScannedIsBalanced(s, 0, false);
    assert s[0..] == s;
  }

  /** Two names that pass, although the expansion counts on a slash after the tilde and on no group being empty. */
  lemma CheckLetsPass()
    ensures ValidTopicName("~a") && ValidTopicName("{}")
  {
    assert BracesFrom("~a", 2, false, false) && BracesFrom("~a", 1, false, false);
    assert BracesFrom("{}", 2, false, false) && BracesFrom("{}", 1, true, true);
  }

  /** The groups of a name, none of them empty. */
  predicate NoEmptyGroup(s: string)
    requires Balanced(s)
    decreases |s|
  {
    if s == "" then true
    else if s[0] == '{' then IndexOf(s, '}') > 1 && NoEmptyGroup(s[IndexOf(s, '}') + 1..])
    else NoEmptyGroup(s[1..])
  }

  predicate Touches(s: string, i: nat)
    requires i + 1 < |s|
  {
    s[i] == '{' && s[i + 1] == '}'
  }

  lemma {:induction false} EmptyGroupTouches(s: string)
    requires Balanced(s)
    ensures NoEmptyGroup(s) <==> forall i :: 0 <= i < |s| - 1 ==> !Touches(s, i)
    decreases |s|
  {
    if s != "" {
      var k := if s[0] == '{' then IndexOf(s, '}') + 1 else 1;
      EmptyGroupTouches(s[k..]);
      assert forall i :: k <= i < |s| - 1 ==> (Touches(s, i) <==> Touches(s[k..], i - k));
      assert forall i :: 0 <= i < |s[k..]| - 1 ==> (Touches(s[k..], i) <==> Touches(s, i + k));
      if s[0] == '{' {
        assert forall i :: 1 <= i < k - 1 ==> s[i] == s[1..k - 1][i - 1];
        assert forall i :: 1 <= i < k && i < |s| - 1 ==> !Touches(s, i);
        assert k > 2 ==> s[1] == s[..k - 1][1];
        assert |s| > 1 && (Touches(s, 0) <==> k == 2);
      }
    }
  }

  /**
   What the check does secure: the groups of a name that passes are non-empty exactly when no `}` follows a `{` directly, and
   its leading tilde is alone or followed by a slash exactly when the name has not two characters.
   */
  lemma PassingNames(s: string)
    requires ValidTopicName(s)
    ensures Balanced(s) && (NoEmptyGroup(s) <==> forall i :: 0 <= i < |s| - 1 ==> !Touches(s, i))
    ensures s[0] == '~' ==> (|s| == 1 || s[1] == '/' <==> |s| != 2)
  {
    ValidIsBalanced(s);
    EmptyGroupTouches(s);
  }

  // ---------- Substitution ----------

  /** What a group such as `{node}` stands for. */
  function Lookup(group: string, node: string, ns: string, subs: Substitutions): Option<string>
    requires |group| >= 2
  {
    if group == NODE_GROUP then Some(node)
    else if group == NS_GROUP || group == NAMESPACE_GROUP then Some(ns)
    else
      var key := group[1..|group| - 1];
      if key in subs then Some(subs[key]) else None
  }

  /** All groups replaced in one pass from left to right; nothing when some group is unknown. */
  function OnePass(s: string, node: string, ns: string, subs: Substitutions): Option<string>
    requires Balanced(s)
    decreases |s|
  {
    if s == "" then Some("")
    else if s[0] == '{' then
      var j := IndexOf(s, '}');
      var head := Lookup(s[..j + 1], node, ns, subs);
      var tail := OnePass(s[j + 1..], node, ns, subs);
      if head.None? || tail.None? then None else Some(head.value + tail.value)
    else
      var tail := OnePass(s[1..], node, ns, subs);
      if tail.None? then None else Some([s[0]] + tail.value)
  }

  predicate IsPlain(value: Option<string>) {
    value.Some? ==> NoBraces(value.value)
  }

  /** The groups that occur in `s`. */
  function Groups(s: string): (gs: set<string>)
    requires Balanced(s)
    ensures forall g :: g in gs ==> |g| >= 2
    decreases |s|
  {
    if s == "" then {}
    else if s[0] == '{' then
      var j := IndexOf(s, '}');
      {s[..j + 1]} + Groups(s[j + 1..])
    else Groups(s[1..])
  }

  /** Every group that occurs in `s` stands for a text without braces, or is unknown. */
  predicate UsedPlain(s: string, node: string, ns: string, subs: Substitutions)
    requires Balanced(s)
  {
    forall g :: g in Groups(s) ==> IsPlain(Lookup(g, node, ns, subs))
  }

  /** Every occurrence of `what` in `s`, left to right, replaced by `with_`. */
  function ReplaceAll(s: string, what: string, with_: string): string
    requires what != ""
    decreases |s|
  {
    if |s| < |what| then s
    else if what <= s then with_ + ReplaceAll(s[|what|..], what, with_)
    else [s[0]] + ReplaceAll(s[1..], what, with_)
  }

  function CountOpen(s: string): nat {
    if s == "" then 0 else (if s[0] == '{' then 1 else 0) + CountOpen(s[1..])
  }

  /** A brace-delimited group with no brace inside. */
  predicate IsGroup(g: string) {
    |g| >= 2 && g[0] == '{' && g[|g| - 1] == '}' && NoBraces(g[1..|g| - 1])
  }

  lemma {:induction false} ReplaceInPlain(p: string, s: string, g: string, with_: string)
    requires IsGroup(g) && '{' !in p
    ensures ReplaceAll(p + s, g, with_) == p + ReplaceAll(s, g, with_)
    decreases p
  {
    if p == "" {
      assert p + s == s;
    } else {
      assert (p + s)[1..] == p[1..] + s;
      PrefixChar(g, p + s, 0);
      ReplaceInPlain(p[1..], s, g, with_);
      if |p + s| < |g| {
        assert ReplaceAll(s, g, with_) == s;
      } else {
        assert ReplaceAll(p + s, g, with_) == [p[0]] + ReplaceAll(p[1..] + s, g, with_);
      }
    }
  }

  lemma {:induction false} BalancedConcat(p: string, s: string, node: string, ns: string, subs: Substitutions)
    requires NoBraces(p) && Balanced(s)
    ensures Balanced(p + s)
    ensures OnePass(p + s, node, ns, subs)
         == if OnePass(s, node, ns, subs).None? then None else Some(p + OnePass(s, node, ns, subs).value)
    ensures CountOpen(p + s) == CountOpen(s)
    decreases p
  {
    if p == "" {
      assert p + s == s;
      if OnePass(s, node, ns, subs).Some? {
        assert p + OnePass(s, node, ns, subs).value == OnePass(s, node, ns, subs).value;
      }
    } else {
      assert (p + s)[1..] == p[1..] + s;
      BalancedConcat(p[1..], s, node, ns, subs);
      if OnePass(s, node, ns, subs).Some? {
        var tail := OnePass(s, node, ns, subs).value;
        assert [p[0]] + (p[1..] + tail) == p + tail;
      }
    }
  }

  lemma GroupConcat(g: string, s: string, node: string, ns: string, subs: Substitutions)
    requires IsGroup(g) && Balanced(s)
    ensures Balanced(g + s)
    ensures OnePass(g + s, node, ns, subs)
         == if Lookup(g, node, ns, subs).None? || OnePass(s, node, ns, subs).None? then None
            else Some(Lookup(g, node, ns, subs).value + OnePass(s, node, ns, subs).value)
    ensures CountOpen(g + s) == 1 + CountOpen(s)
  {
    var inner := g[..|g| - 1];
    assert '}' !in inner by { assert inner == "{" + g[1..|g| - 1]; }
    IndexOfFirst(inner, '}', s);
    assert g + s == inner + ['}'] + s;
    assert IndexOf(g + s, '}') == |g| - 1;
    assert (g + s)[..|g|] == g && (g + s)[|g|..] == s;
    assert (g + s)[1..|g| - 1] == g[1..|g| - 1];
    var rest := g[1..|g| - 1];
    assert (g + s)[1..] == rest + ("}" + s);
    CountPlain(rest, "}" + s);
    assert ("}" + s)[1..] == s;
  }

  lemma {:induction false} CountPlain(p: string, s: string)
    requires '{' !in p
    ensures CountOpen(p + s) == CountOpen(s)
    decreases p
  {
    if p == "" {
      assert p + s == s;
    } else {
      assert (p + s)[1..] == p[1..] + s;
      CountPlain(p[1..], s);
    }
  }

  /** The leading group of a balanced string. */
  lemma LeadingGroup(s: string) returns (g: string)
    requires Balanced(s) && s != "" && s[0] == '{'
    ensures g == s[..IndexOf(s, '}') + 1] && IsGroup(g) && s == g + s[|g|..] && Balanced(s[|g|..])
  {
    var j := IndexOf(s, '}');
    g := s[..j + 1];
    assert g[1..|g| - 1] == s[1..j];
    assert '}' !in s[1..j] by { assert forall k :: 1 <= k < j ==> s[k] == s[..j][k]; }
  }

  lemma GroupEnd(g: string, s: string)
    requires IsGroup(g) && g <= s
    ensures IndexOf(s, '}') == |g| - 1
  {
    var inner := g[..|g| - 1];
    assert '}' !in inner by { assert inner == "{" + g[1..|g| - 1]; }
    IndexOfFirst(inner, '}', s[|g|..]);
    assert s == inner + ['}'] + s[|g|..];
  }

  /** `s'` is `s` with some groups replaced, without a change of meaning. */
  ghost predicate Kept(s: string, s': string, node: string, ns: string, subs: Substitutions) {
    && Balanced(s) && Balanced(s') && CountOpen(s') <= CountOpen(s)
    && OnePass(s', node, ns, subs) == OnePass(s, node, ns, subs)
  }

  lemma OtherGroupInFront(g: string, h: string, s: string)
    requires IsGroup(g) && IsGroup(h) && g != h
    ensures !(g <= h + s)
  {
    GroupEnd(h, h + s);
    if g <= h + s {
      GroupEnd(g, h + s);
    }
  }

  lemma ReplaceElsewhere(s: string, g: string, with_: string)
    requires g != "" && s != "" && !(g <= s)
    ensures ReplaceAll(s, g, with_) == [s[0]] + ReplaceAll(s[1..], g, with_)
  {
    assert s == [s[0]] + s[1..];
  }

  lemma ReplaceOtherGroup(h: string, s: string, g: string, with_: string)
    requires IsGroup(g) && IsGroup(h) && g != h
    ensures ReplaceAll(h + s, g, with_) == h + ReplaceAll(s, g, with_) && !(g <= h + s)
  {
    hide IndexOf, ReplaceAll;
    OtherGroupInFront(g, h, s);
    ReplaceElsewhere(h + s, g, with_);
    var inner, tail := h[1..], ReplaceAll(s, g, with_);
    assert '{' !in inner by { assert inner == h[1..|h| - 1] + "}"; }
    assert (h + s)[1..] == inner + s && (h + s)[0] == h[0];
    ReplaceInPlain(inner, s, g, with_);
    assert [h[0]] + (inner + tail) == h + tail;
  }

  /**
   Replacing one known group everywhere keeps the braces balanced, does not change what the one-pass substitution yields,
   and removes a group when it stood in front.
   */
  lemma {:induction false} ReplaceKeepsMeaning(
    s: string, g: string, with_: string, node: string, ns: string, subs: Substitutions)
    requires Balanced(s) && IsGroup(g) && NoBraces(with_) && Lookup(g, node, ns, subs) == Some(with_)
    ensures Kept(s, ReplaceAll(s, g, with_), node, ns, subs)
    ensures g <= s ==> CountOpen(ReplaceAll(s, g, with_)) < CountOpen(s)
    decreases |s|
  {
    hide OnePass, Lookup;
    if s == "" {
    } else if s[0] == '{' {
      var h := LeadingGroup(s);
      var rest := s[|h|..];
      var rest' := ReplaceAll(rest, g, with_);
      ReplaceKeepsMeaning(rest, g, with_, node, ns, subs);
      GroupConcat(h, rest, node, ns, subs);
      if g == h {
        BalancedConcat(with_, rest', node, ns, subs);
        assert ReplaceAll(s, g, with_) == with_ + rest';
      } else {
        ReplaceOtherGroup(h, rest, g, with_);
        GroupConcat(h, rest', node, ns, subs);
      }
    } else {
      var rest' := ReplaceAll(s[1..], g, with_);
      ReplaceKeepsMeaning(s[1..], g, with_, node, ns, subs);
      PrefixChar(g, s, 0);
      assert NoBraces([s[0]]) && s == [s[0]] + s[1..];
      BalancedConcat([s[0]], s[1..], node, ns, subs);
      BalancedConcat([s[0]], rest', node, ns, subs);
      ReplaceInPlain([s[0]], s[1..], g, with_);
    }
  }

  lemma LeadingGroupOfJoin(a: string, b: string)
    requires a != "" && a[0] == '{' && IndexOf(a, '}') < |a|
    ensures var j := IndexOf(a, '}');
            && IndexOf(a + b, '}') == j && (a + b)[j + 1..] == a[j + 1..] + b
            && (a + b)[..j + 1] == a[..j + 1] && (a + b)[1..j] == a[1..j]
  {
    var j := IndexOf(a, '}');
    assert a + b == a[..j] + ['}'] + (a[j + 1..] + b);
    IndexOfFirst(a[..j], '}', a[j + 1..] + b);
  }

  lemma JoinBehindGroup(a: string, b: string)
    requires Balanced(a) && Balanced(b) && a != "" && a[0] == '{'
    requires var rest := a[IndexOf(a, '}') + 1..]; Balanced(rest + b) && Groups(rest + b) == Groups(rest) + Groups(b)
    ensures Balanced(a + b) && Groups(a + b) == Groups(a) + Groups(b)
  {
    hide IndexOf;
    var j, all := IndexOf(a, '}'), a + b;
    LeadingGroupOfJoin(a, b);
    assert all[0] == '{' && all[j + 1..] == a[j + 1..] + b;
    assert Groups(all) == {a[..j + 1]} + Groups(all[j + 1..]);
    assert Groups(a) == {a[..j + 1]} + Groups(a[j + 1..]);
  }

  lemma BehindCharacter(s: string)
    requires s != "" && s[0] != '{' && s[0] != '}'
    ensures Balanced(s) <==> Balanced(s[1..])
    ensures Balanced(s) ==> Groups(s) == Groups(s[1..])
  {
  }

  lemma JoinBehindCharacter(a: string, b: string)
    requires Balanced(a) && Balanced(b) && a != "" && a[0] != '{'
    requires Balanced(a[1..] + b) && Groups(a[1..] + b) == Groups(a[1..]) + Groups(b)
    ensures Balanced(a + b) && Groups(a + b) == Groups(a) + Groups(b)
  {
    assert a[0] != '}';
    hide Balanced, Groups;
    BehindCharacter(a);
    BehindCharacter(a + b);
    assert (a + b)[1..] == a[1..] + b;
  }

  lemma {:induction false} BalancedJoin(a: string, b: string)
    requires Balanced(a) && Balanced(b)
    ensures Balanced(a + b) && Groups(a + b) == Groups(a) + Groups(b)
    decreases |a|
  {
    if a == "" {
      assert a + b == b;
    } else if a[0] == '{' {
      BalancedJoin(a[IndexOf(a, '}') + 1..], b);
      JoinBehindGroup(a, b);
    } else {
      BalancedJoin(a[1..], b);
      JoinBehindCharacter(a, b);
    }
  }

  lemma {:induction false} PlainHasNoGroup(p: string)
    requires NoBraces(p)
    ensures Balanced(p) && Groups(p) == {}
    decreases p
  {
    if p != "" {
      PlainHasNoGroup(p[1..]);
    }
  }

  lemma GroupIsGroup(g: string)
    requires IsGroup(g)
    ensures Balanced(g) && Groups(g) == {g}
  {
    GroupEnd(g, g);
    assert g[|g|..] == "" && g[..|g|] == g;
  }

  /** Replacing a group everywhere leaves the other groups and may bring those of its value. */
  lemma {:induction false} ReplaceKeepsGroups(s: string, g: string, value: string)
    requires Balanced(s) && IsGroup(g) && Balanced(value)
    ensures Balanced(ReplaceAll(s, g, value)) && Groups(ReplaceAll(s, g, value)) <= Groups(s) + Groups(value)
    decreases |s|
  {
    hide ReplaceAll;
    if s == "" {
      NothingToReplace(g, value);
    } else if s[0] == '{' {
      var h := LeadingGroup(s);
      ReplaceKeepsGroups(s[|h|..], g, value);
      GroupStep(h, s[|h|..], g, value);
    } else {
      ReplaceKeepsGroups(s[1..], g, value);
      assert s == [s[0]] + s[1..];
      PlainStep([s[0]], s[1..], g, value);
    }
  }

  lemma NothingToReplace(g: string, value: string)
    requires g != ""
    ensures ReplaceAll("", g, value) == ""
  {
  }

  lemma GroupStep(h: string, rest: string, g: string, value: string)
    requires IsGroup(h) && IsGroup(g) && Balanced(rest) && Balanced(value)
    requires Balanced(ReplaceAll(rest, g, value)) && Groups(ReplaceAll(rest, g, value)) <= Groups(rest) + Groups(value)
    ensures var s := h + rest;
            && Balanced(s) && Balanced(ReplaceAll(s, g, value))
            && Groups(ReplaceAll(s, g, value)) <= Groups(s) + Groups(value)
  {
    hide Balanced, Groups, ReplaceAll;
    GroupIsGroup(h);
    BalancedJoin(h, rest);
    if g == h {
      ReplaceLeading(g, rest, value);
      BalancedJoin(value, ReplaceAll(rest, g, value));
    } else {
      ReplaceOtherGroup(h, rest, g, value);
      BalancedJoin(h, ReplaceAll(rest, g, value));
    }
  }

  lemma PlainStep(p: string, rest: string, g: string, value: string)
    requires NoBraces(p) && IsGroup(g) && Balanced(rest) && Balanced(value)
    requires Balanced(ReplaceAll(rest, g, value)) && Groups(ReplaceAll(rest, g, value)) <= Groups(rest) + Groups(value)
    ensures var s := p + rest;
            && Balanced(s) && Balanced(ReplaceAll(s, g, value))
            && Groups(ReplaceAll(s, g, value)) <= Groups(s) + Groups(value)
  {
    hide Balanced, Groups, ReplaceAll;
    PlainHasNoGroup(p);
    BalancedJoin(p, rest);
    ReplaceInPlain(p, rest, g, value);
    BalancedJoin(p, ReplaceAll(rest, g, value));
  }

  lemma ReplaceLeading(g: string, tail: string, value: string)
    requires g != ""
    ensures ReplaceAll(g + tail, g, value) == value + ReplaceAll(tail, g, value)
  {
    assert (g + tail)[|g|..] == tail;
  }

  lemma {:induction false} OnePassIsPlain(s: string, node: string, ns: string, subs: Substitutions)
    requires Balanced(s) && UsedPlain(s, node, ns, subs)
    ensures OnePass(s, node, ns, subs).Some? ==> NoBraces(OnePass(s, node, ns, subs).value)
    decreases |s|
  {
    if s == "" {
    } else if s[0] == '{' {
      var j := IndexOf(s, '}');
      OnePassIsPlain(s[j + 1..], node, ns, subs);
    } else {
      OnePassIsPlain(s[1..], node, ns, subs);
    }
  }

  /** A text without braces stands for itself. */
  lemma {:induction false} PlainIsFixed(s: string, node: string, ns: string, subs: Substitutions)
    requires Balanced(s) && '{' !in s
    ensures OnePass(s, node, ns, subs) == Some(s) && UsedPlain(s, node, ns, subs) && NoBraces(s)
    decreases |s|
  {
    if s != "" {
      PlainIsFixed(s[1..], node, ns, subs);
      assert s == [s[0]] + s[1..];
    }
  }

  /** A balanced string up to its first group. */
  lemma {:induction false} PlainFront(s: string)
    requires Balanced(s)
    ensures var i := IndexOf(s, '{'); NoBraces(s[..i]) && Balanced(s[i..])
    decreases |s|
  {
    if s != "" && s[0] != '{' {
      PlainFront(s[1..]);
      var i := IndexOf(s, '{');
      assert s[..i] == [s[0]] + s[1..][..i - 1];
      assert s[i..] == s[1..][i - 1..];
    }
  }

  lemma GroupOpens(p: string, g: string, tail: string)
    requires IsGroup(g) && NoBraces(p)
    ensures var s := p + (g + tail); '{' in s && IndexOf(s, '{') == |p| && s[|p|..|p| + |g|] == g
  {
    assert p + (g + tail) == p + ['{'] + (g[1..] + tail);
    IndexOfFirst(p, '{', g[1..] + tail);
  }

  lemma GroupCloses(p: string, g: string, tail: string)
    requires IsGroup(g) && NoBraces(p)
    ensures IndexOf(p + (g + tail), '}') == |p| + |g| - 1
  {
    var inner := g[..|g| - 1];
    assert '}' !in inner by { assert inner == "{" + g[1..|g| - 1]; }
    assert p + (g + tail) == (p + inner) + ['}'] + tail;
    IndexOfFirst(p + inner, '}', tail);
  }

  /** One round of the substitution loop, at the first group of the string. */
  lemma FirstGroup(s: string) returns (i: nat, g: string)
    requires Balanced(s) && '{' in s
    ensures i == IndexOf(s, '{') < |s| && IndexOf(s, '}') == i + |g| - 1 < |s| && g == s[i..i + |g|] && IsGroup(g)
  {
    hide IndexOf, Balanced, IsGroup, NoBraces;
    i := IndexOf(s, '{');
    assert s[..|s|] == s;
    PlainFront(s);
    var p, tail := s[..i], s[i..];
    g := LeadingGroup(tail);
    var rest := tail[|g|..];
    assert s == p + (g + rest);
    GroupOpens(p, g, rest);
    GroupCloses(p, g, rest);
  }

  lemma OneRound(s: string, g: string, with_: string, node: string, ns: string, subs: Substitutions)
    requires Balanced(s) && '{' in s && IsGroup(g) && g <= s[IndexOf(s, '{')..]
    requires NoBraces(with_) && Lookup(g, node, ns, subs) == Some(with_)
    ensures Kept(s, ReplaceAll(s, g, with_), node, ns, subs)
    ensures CountOpen(ReplaceAll(s, g, with_)) < CountOpen(s)
  {
    hide OnePass, Groups, Lookup, Balanced, CountOpen, ReplaceAll, IndexOf;
    var i := IndexOf(s, '{');
    PlainFront(s);
    var tail := s[i..];
    assert s == s[..i] + tail;
    ReplaceKeepsMeaning(tail, g, with_, node, ns, subs);
    ReplaceInPlain(s[..i], tail, g, with_);
    BalancedConcat(s[..i], tail, node, ns, subs);
    BalancedConcat(s[..i], ReplaceAll(tail, g, with_), node, ns, subs);
  }

  /** The first group is one of the text's; unknown, it makes the one-pass substitution fail. */
  lemma FirstGroupDecides(s: string, g: string, node: string, ns: string, subs: Substitutions)
    requires Balanced(s) && '{' in s && IsGroup(g) && g <= s[IndexOf(s, '{')..]
    ensures Lookup(g, node, ns, subs) == None ==> OnePass(s, node, ns, subs) == None
    ensures g in Groups(s)
  {
    hide OnePass, Groups, Lookup, Balanced, IndexOf, CountOpen;
    var i := IndexOf(s, '{');
    assert s[..|s|] == s;
    PlainFront(s);
    var tail := s[i..];
    assert s == s[..i] + tail;
    var h := LeadingGroup(tail);
    GroupEnd(g, tail);
    assert g == tail[..|g|] == h;
    GroupConcat(g, tail[|g|..], node, ns, subs);
    BalancedConcat(s[..i], tail, node, ns, subs);
    GroupIsGroup(g);
    BalancedJoin(g, tail[|g|..]);
    PlainHasNoGroup(s[..i]);
    BalancedJoin(s[..i], tail);
  }

  // ---------- The whole expansion ----------

  datatype Expansion =
    | Expanded(name: string) | TopicNameInvalid | NodeInvalidName | NodeInvalidNamespace | UnknownSubstitution

  /**
   A node as the expansion sees it. The validators of node names and namespaces belong to another library;
   `nameValid` and `nsValid` are their verdicts.
   */
  datatype NodeInfo = NodeInfo(name: string, ns: string, nameValid: bool, nsValid: bool)

  /** What valid node names and namespaces are known to satisfy. */
  predicate Sane(n: NodeInfo) {
    && (n.nameValid ==> NoBraces(n.name))
    && (n.nsValid ==> NoBraces(n.ns) && n.ns != "" && n.ns[0] == '/')
  }

  function Under(ns: string, s: string): string {
    if |ns| == 1 then ns + s else ns + "/" + s
  }

  function Rooted(input: string, n: NodeInfo): string {
    if input != "" && input[0] == '~' then Under(n.ns, n.name) + input[1..] else input
  }

  lemma RootedIsBalanced(input: string, n: NodeInfo)
    requires ValidTopicName(input) && NoBraces(n.name) && NoBraces(n.ns)
    ensures Balanced(Rooted(input, n))
  {
    ValidIsBalanced(input);
    if input[0] == '~' {
      BalancedConcat(Under(n.ns, n.name), input[1..], n.name, n.ns, map[]);
    }
  }

  /** Whenever the expansion gets as far as the groups of the name, they stand for texts without braces or are unknown. */
  predicate Expandable(input: string, n: NodeInfo, subs: Substitutions) {
    ValidTopicName(input) && n.nameValid && n.nsValid ==> (ValidIsBalanced(input); UsedPlain(input, n.name, n.ns, subs))
  }

  lemma RootedIsUsedPlain(input: string, n: NodeInfo, subs: Substitutions)
    requires Sane(n) && Expandable(input, n, subs) && ValidTopicName(input) && n.nameValid && n.nsValid
    ensures Balanced(Rooted(input, n)) && UsedPlain(Rooted(input, n), n.name, n.ns, subs)
  {
    ValidIsBalanced(input);
    if input[0] == '~' {
      PlainHasNoGroup(Under(n.ns, n.name));
      BalancedJoin(Under(n.ns, n.name), input[1..]);
    }
  }

  /** A name without a group can always be expanded. */
  lemma PlainIsExpandable(input: string, n: NodeInfo, subs: Substitutions)
    requires '{' !in input
    ensures Expandable(input, n, subs)
  {
    if ValidTopicName(input) {
      ValidIsBalanced(input);
      PlainIsFixed(input, n.name, n.ns, subs);
    }
  }

  /** The expansion: the name rooted at the node if private, all groups replaced at once, then made absolute. */
  function Expand(input: string, n: NodeInfo, subs: Substitutions): Expansion
    requires Sane(n)
  {
    if !ValidTopicName(input) then TopicNameInvalid
    else if !n.nameValid then NodeInvalidName
    else if !n.nsValid then NodeInvalidNamespace
    else
      RootedIsBalanced(input, n);
      var r := OnePass(Rooted(input, n), n.name, n.ns, subs);
      if r.None? then UnknownSubstitution
      else Expanded(if r.value != "" && r.value[0] == '/' then r.value else Under(n.ns, r.value))
  }

  /** An expanded name is absolute and free of braces, and each stage of the expansion leaves it as it is. */
  lemma ExpandedIsFixed(input: string, n: NodeInfo, subs: Substitutions)
    requires Sane(n) && Expandable(input, n, subs) && Expand(input, n, subs).Expanded?
    ensures var out := Expand(input, n, subs).name;
            && out != "" && out[0] == '/' && NoBraces(out)
            && Rooted(out, n) == out && Balanced(out) && OnePass(out, n.name, n.ns, subs) == Some(out)
            && (ValidTopicName(out) ==> Expand(out, n, subs) == Expanded(out))
  {
    hide OnePass, Groups;
    RootedIsUsedPlain(input, n, subs);
    OnePassIsPlain(Rooted(input, n), n.name, n.ns, subs);
    var out := Expand(input, n, subs).name;
    assert out + "" == out;
    BalancedConcat(out, "", n.name, n.ns, subs);
    PlainIsFixed(out, n.name, n.ns, subs);
  }

  /** The bounded comparison of the original: equal on the first `len` characters. */
  predicate EqualUpTo(literal: string, s: string, len: nat)
    requires len <= |s|
  {
    len <= |literal| && literal[..len] == s[..len]
  }

  lemma BoundedCompareIsEquality(g: string, literal: string)
    requires IsGroup(g) && IsGroup(literal)
    ensures EqualUpTo(literal, g, |g|) <==> g == literal
  {
    if EqualUpTo(literal, g, |g|) {
      assert g <= literal;
      GroupEnd(g, literal);
      GroupEnd(literal, literal);
    }
  }

  method FindReplacement(group: string, n: NodeInfo, subs: Substitutions) returns (r: Option<string>)
    requires IsGroup(group)
    ensures r == Lookup(group, n.name, n.ns, subs)
  {
    BoundedCompareIsEquality(group, NODE_GROUP);
    BoundedCompareIsEquality(group, NS_GROUP);
    BoundedCompareIsEquality(group, NAMESPACE_GROUP);
    var len := |group|;
    if EqualUpTo(NODE_GROUP, group, len) {
      r := Some(n.name);
    } else if EqualUpTo(NS_GROUP, group, len) || EqualUpTo(NAMESPACE_GROUP, group, len) {
      r := Some(n.ns);
    } else {
      var key := group[1..1 + (len - 2)];
      r := if key in subs then Some(subs[key]) else None;
    }
  }

  /** The loop that replaces the first remaining group everywhere until no brace is left. */
  method SubstituteAll(input: string, n: NodeInfo, subs: Substitutions) returns (r: Option<string>)
    requires Balanced(input) && UsedPlain(input, n.name, n.ns, subs)
    ensures r == OnePass(input, n.name, n.ns, subs)
  {
    hide OnePass, Groups;
    var current := input;
    while '{' in current
      invariant Balanced(current) && UsedPlain(current, n.name, n.ns, subs)
      invariant OnePass(current, n.name, n.ns, subs) == OnePass(input, n.name, n.ns, subs)
      decreases CountOpen(current)
    {
      ghost var i, g := FirstGroup(current);
      var open := IndexOf(current, '{');
      var close := IndexOf(current, '}');
      var len := close - open + 1;
      var group := current[open..open + len];
      assert group == g && g <= current[open..];
      FirstGroupDecides(current, g, n.name, n.ns, subs);
      var replacement := FindReplacement(group, n, subs);
      if replacement.None? {
        return None;
      }
      OneRound(current, g, replacement.value, n.name, n.ns, subs);
      PlainHasNoGroup(replacement.value);
      ReplaceKeepsGroups(current, g, replacement.value);
      current := ReplaceAll(current, group, replacement.value);
    }
    PlainIsFixed(current, n.name, n.ns, subs);
    r := Some(current);
  }

  method ExpandTopicName(input: string, n: NodeInfo, subs: Substitutions) returns (r: Expansion)
    requires Sane(n) && Expandable(input, n, subs)
    ensures r == Expand(input, n, subs)
  {
    hide OnePass, Groups;
    if !ValidTopicName(input) {
      return TopicNameInvalid;
    }
    if !n.nameValid {
      return NodeInvalidName;
    }
    if !n.nsValid {
      return NodeInvalidNamespace;
    }
    RootedIsUsedPlain(input, n, subs);
    var hasSubstitution := '{' in input;
    if input[0] == '/' && !hasSubstitution {
      PlainIsFixed(input, n.name, n.ns, subs);
      return Expanded(input);
    }
    var local := input;
    if input[0] == '~' {
      local := if |n.ns| == 1 then n.ns + n.name + input[1..] else n.ns + "/" + n.name + input[1..];
    }
    assert local == Rooted(input, n);
    if !hasSubstitution {
      PlainIsFixed(local, n.name, n.ns, subs);
    }
    if hasSubstitution {
      var s := SubstituteAll(local, n, subs);
      if s.None? {
        return UnknownSubstitution;
      }
      local := s.value;
    }
    if local == "" || local[0] != '/' {
      local := if |n.ns| == 1 then n.ns + local else n.ns + "/" + local;
    }
    r := Expanded(local);
  }
}
