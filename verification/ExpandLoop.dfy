/**
 The substitution loop on values that may hold braces themselves: what it computes when it ends, and exactly when it does.
 */
module ExpandLoop {
  import opened Common
  import opened ExpandName

  /** What groups stand for: the node's name and namespace, and the substitutions. */
  datatype Env = Env(node: string, ns: string, subs: Substitutions)

  function Value(e: Env, g: string): Option<string>
    requires |g| >= 2
  {
    Lookup(g, e.node, e.ns, e.subs)
  }

  // ---------- The loop, round by round ----------

  /** One round: the text up to the first `}` from the first `{` on is looked up and replaced everywhere. */
  function Round(e: Env, s: string): Option<string> {
    var i, j := IndexOf(s, '{'), IndexOf(s, '}');
    if !(i < j < |s|) then None
    else
      var value := Value(e, s[i..j + 1]);
      if value.None? then None else Some(ReplaceAll(s, s[i..j + 1], value.value))
  }

  /** The text after at most `n` rounds; none when a round fails. */
  function AfterRounds(e: Env, s: string, n: nat): Option<string>
    decreases n
  {
    if n == 0 || '{' !in s then Some(s)
    else
      var r := Round(e, s);
      if r.None? then None else AfterRounds(e, r.value, n - 1)
  }

  /** The loop ends, with `r` as its text. */
  ghost predicate LoopYields(e: Env, s: string, r: string) {
    '{' !in r && exists n: nat :: AfterRounds(e, s, n) == Some(r)
  }

  lemma RoundReplaces(e: Env, s: string) returns (g: string)
    requires Balanced(s) && '{' in s
    ensures IsGroup(g) && g in Groups(s)
    ensures Round(e, s) == if Value(e, g).None? then None else Some(ReplaceAll(s, g, Value(e, g).value))
  {
    hide Lookup, ReplaceAll, Balanced, Groups, IndexOf, OnePass;
    var i;
    i, g := FirstGroup(s);
    assert g <= s[i..];
    FirstGroupDecides(s, g, e.node, e.ns, e.subs);
  }

  // ---------- The full expansion ----------

  /** What a text comes to, and how many replacements of single groups that takes. */
  datatype Meaning = Meaning(text: string, steps: nat)

  function Plus(a: Option<Meaning>, b: Option<Meaning>): Option<Meaning> {
    if a.None? || b.None? then None
    else Some(Meaning(a.value.text + b.value.text, a.value.steps + b.value.steps))
  }

  /** Groups replaced by their values, the groups in these by theirs, and so on; none when that takes more than `d` levels. */
  function Deep(e: Env, s: string, d: nat): Option<Meaning>
    requires Balanced(s)
    decreases d, |s| + 1
  {
    if s == "" then Some(Meaning("", 0))
    else if s[0] == '{' then
      var j := IndexOf(s, '}');
      Plus(DeepGroup(e, s[..j + 1], d), Deep(e, s[j + 1..], d))
    else Plus(Some(Meaning([s[0]], 0)), Deep(e, s[1..], d))
  }

  function DeepGroup(e: Env, g: string, d: nat): Option<Meaning>
    requires |g| >= 2
    decreases d, 0
  {
    var v := Value(e, g);
    if v.None? || !Balanced(v.value) || d == 0 then None
    else
      var m := Deep(e, v.value, d - 1);
      if m.None? then None else Some(Meaning(m.value.text, m.value.steps + 1))
  }

  lemma PlusAssociates(a: Option<Meaning>, b: Option<Meaning>, c: Option<Meaning>)
    ensures Plus(Plus(a, b), c) == Plus(a, Plus(b, c))
  {
    if a.Some? && b.Some? && c.Some? {
      assert a.value.text + b.value.text + c.value.text == a.value.text + (b.value.text + c.value.text);
    }
  }

  lemma PlusNothing(a: Option<Meaning>)
    ensures Plus(a, Some(Meaning("", 0))) == a && Plus(Some(Meaning("", 0)), a) == a
  {
    if a.Some? {
      assert a.value.text + "" == a.value.text && "" + a.value.text == a.value.text;
    }
  }

  lemma DeepBehindGroup(e: Env, s: string, d: nat)
    requires Balanced(s) && s != "" && s[0] == '{'
    ensures var j := IndexOf(s, '}');
            j < |s| && Balanced(s[j + 1..]) && Deep(e, s, d) == Plus(DeepGroup(e, s[..j + 1], d), Deep(e, s[j + 1..], d))
  {
  }

  lemma {:induction false} DeepJoin(e: Env, a: string, b: string, d: nat)
    requires Balanced(a) && Balanced(b)
    ensures Balanced(a + b) && Deep(e, a + b, d) == Plus(Deep(e, a, d), Deep(e, b, d))
    decreases |a|
  {
    BalancedJoin(a, b);
    if a == "" {
      assert a + b == b;
      PlusNothing(Deep(e, b, d));
    } else if a[0] == '{' {
      DeepJoin(e, a[IndexOf(a, '}') + 1..], b, d);
      DeepJoinGroup(e, a, b, d);
    } else {
      DeepJoin(e, a[1..], b, d);
      assert (a + b)[1..] == a[1..] + b && (a + b)[0] == a[0];
      PlusAssociates(Some(Meaning([a[0]], 0)), Deep(e, a[1..], d), Deep(e, b, d));
    }
  }

  lemma DeepJoinGroup(e: Env, a: string, b: string, d: nat)
    requires Balanced(a) && Balanced(b) && Balanced(a + b) && a != "" && a[0] == '{'
    requires var rest := a[IndexOf(a, '}') + 1..];
             Balanced(rest + b) && Deep(e, rest + b, d) == Plus(Deep(e, rest, d), Deep(e, b, d))
    ensures Deep(e, a + b, d) == Plus(Deep(e, a, d), Deep(e, b, d))
  {
    var j := IndexOf(a, '}');
    DeepBehindGroup(e, a, d);
    assert (a + b)[0] == '{';
    DeepBehindGroup(e, a + b, d);
    LeadingGroupOfJoin(a, b);
    hide Deep, DeepGroup, Balanced, IndexOf;
    PlusAssociates(DeepGroup(e, a[..j + 1], d), Deep(e, a[j + 1..], d), Deep(e, b, d));
  }

  lemma {:induction false} DeepOfPlain(e: Env, p: string, d: nat)
    requires NoBraces(p)
    ensures Balanced(p) && Deep(e, p, d) == Some(Meaning(p, 0))
    decreases p
  {
    if p != "" {
      DeepOfPlain(e, p[1..], d);
      assert [p[0]] + p[1..] == p;
    }
  }

  lemma DeepOfGroup(e: Env, g: string, d: nat)
    requires IsGroup(g)
    ensures Balanced(g) && Deep(e, g, d) == DeepGroup(e, g, d)
  {
    GroupIsGroup(g);
    GroupEnd(g, g);
    assert g[|g|..] == "" && g[..|g|] == g;
    DeepBehindGroup(e, g, d);
    hide DeepGroup;
    PlusNothing(DeepGroup(e, g, d));
  }

  /** More levels do not change what is found already. */
  lemma {:induction false} DeepLasts(e: Env, s: string, d: nat)
    requires Balanced(s)
    ensures Deep(e, s, d).Some? ==> Deep(e, s, d + 1) == Deep(e, s, d)
    decreases d, |s| + 1
  {
    if s == "" {
    } else if s[0] == '{' {
      var j := IndexOf(s, '}');
      DeepGroupLasts(e, s[..j + 1], d);
      DeepLasts(e, s[j + 1..], d);
    } else {
      DeepLasts(e, s[1..], d);
    }
  }

  lemma {:induction false} DeepGroupLasts(e: Env, g: string, d: nat)
    requires |g| >= 2
    ensures DeepGroup(e, g, d).Some? ==> DeepGroup(e, g, d + 1) == DeepGroup(e, g, d)
    decreases d, 0
  {
    if DeepGroup(e, g, d).Some? {
      DeepLasts(e, Value(e, g).value, d - 1);
    }
  }

  /** A text has a full expansion exactly when each of its groups has. */
  lemma {:induction false} DeepOfGroups(e: Env, s: string, d: nat)
    requires Balanced(s)
    ensures Deep(e, s, d).Some? <==> forall g :: g in Groups(s) ==> DeepGroup(e, g, d).Some?
    ensures Deep(e, s, d).Some? ==> '{' !in Deep(e, s, d).value.text
    decreases d, |s| + 1
  {
    hide DeepGroup;
    if s == "" {
    } else if s[0] == '{' {
      var j := IndexOf(s, '}');
      var g, rest := s[..j + 1], s[j + 1..];
      DeepOfGroups(e, rest, d);
      DeepGroupIsPlain(e, g, d);
      DeepBehindGroup(e, s, d);
      assert Groups(s) == {g} + Groups(rest);
      hide Deep, Groups;
      assert Deep(e, s, d).Some? <==> DeepGroup(e, g, d).Some? && Deep(e, rest, d).Some?;
    } else {
      DeepOfGroups(e, s[1..], d);
    }
  }

  lemma {:induction false} DeepGroupIsPlain(e: Env, g: string, d: nat)
    requires |g| >= 2
    ensures DeepGroup(e, g, d).Some? ==> '{' !in DeepGroup(e, g, d).value.text
    decreases d, 0
  {
    if DeepGroup(e, g, d).Some? {
      DeepOfGroups(e, Value(e, g).value, d - 1);
    }
  }

  // ---------- One round keeps the full expansion ----------

  /** `t` comes to the same text as `s` in at least `k` steps less, and `s` has at most one level more. */
  ghost predicate Reduces(e: Env, s: string, t: string, d: nat, k: nat) {
    && Balanced(s) && Balanced(t)
    && (Deep(e, s, d).Some? ==>
          && Deep(e, t, d).Some? && Deep(e, t, d).value.text == Deep(e, s, d).value.text
          && Deep(e, t, d).value.steps + k <= Deep(e, s, d).value.steps)
    && (Deep(e, t, d).Some? ==> Deep(e, s, d + 1).Some? && Deep(e, s, d + 1).value.text == Deep(e, t, d).value.text)
  }

  lemma ReducesItself(e: Env, s: string, d: nat)
    requires Balanced(s)
    ensures Reduces(e, s, s, d, 0)
  {
    DeepLasts(e, s, d);
  }

  lemma GroupReduces(e: Env, g: string, d: nat)
    requires IsGroup(g) && Value(e, g).Some? && Balanced(Value(e, g).value)
    ensures Reduces(e, g, Value(e, g).value, d, 1)
  {
    var v := Value(e, g).value;
    DeepOfGroup(e, g, d);
    DeepOfGroup(e, g, d + 1);
    if d > 0 {
      DeepLasts(e, v, d - 1);
    }
    hide Lookup, Balanced, IsGroup;
  }

  lemma ReducesJoin(e: Env, a: string, a': string, b: string, b': string, d: nat, j: nat, k: nat)
    requires Reduces(e, a, a', d, j) && Reduces(e, b, b', d, k)
    ensures Reduces(e, a + b, a' + b', d, j + k)
  {
    hide Deep, Balanced;
    DeepJoin(e, a, b, d);
    DeepJoin(e, a', b', d);
    DeepJoin(e, a, b, d + 1);
  }

  function Occurs(g: string, s: string): nat
    requires Balanced(s)
  {
    if g in Groups(s) then 1 else 0
  }

  lemma ReducesMore(e: Env, s: string, t: string, d: nat, j: nat, k: nat)
    requires Reduces(e, s, t, d, k) && j <= k
    ensures Reduces(e, s, t, d, j)
  {
    hide Deep, Balanced;
  }

  /** Replacing a group everywhere by its value. */
  lemma {:induction false} ReplaceReduces(e: Env, s: string, g: string, d: nat)
    requires Balanced(s) && IsGroup(g) && Value(e, g).Some? && Balanced(Value(e, g).value)
    ensures Reduces(e, s, ReplaceAll(s, g, Value(e, g).value), d, Occurs(g, s))
    decreases |s|
  {
    hide Deep, DeepGroup, ReplaceAll, Lookup, Reduces;
    var v := Value(e, g).value;
    if s == "" {
      NothingToReplace(g, v);
      ReducesItself(e, s, d);
    } else if s[0] == '{' {
      var h := LeadingGroup(s);
      ReplaceReduces(e, s[|h|..], g, d);
      GroupStepReduces(e, h, s[|h|..], g, d);
    } else {
      ReplaceReduces(e, s[1..], g, d);
      assert s == [s[0]] + s[1..];
      BehindCharacter(s);
      ReducesItself(e, [s[0]], d);
      ReplaceInPlain([s[0]], s[1..], g, v);
      ReducesJoin(e, [s[0]], [s[0]], s[1..], ReplaceAll(s[1..], g, v), d, 0, Occurs(g, s[1..]));
    }
  }

  lemma GroupStepReduces(e: Env, h: string, rest: string, g: string, d: nat)
    requires IsGroup(h) && IsGroup(g) && Balanced(rest) && Value(e, g).Some? && Balanced(Value(e, g).value)
    requires Reduces(e, rest, ReplaceAll(rest, g, Value(e, g).value), d, Occurs(g, rest))
    ensures Balanced(h + rest) && Reduces(e, h + rest, ReplaceAll(h + rest, g, Value(e, g).value), d, Occurs(g, h + rest))
  {
    hide Deep, DeepGroup, ReplaceAll, Lookup, Reduces, Balanced, Groups;
    var v := Value(e, g).value;
    var rest' := ReplaceAll(rest, g, v);
    GroupIsGroup(h);
    BalancedJoin(h, rest);
    if g == h {
      GroupReduces(e, g, d);
      ReplaceLeading(g, rest, v);
      ReducesJoin(e, g, v, rest, rest', d, 1, Occurs(g, rest));
      ReducesMore(e, h + rest, v + rest', d, Occurs(g, h + rest), 1 + Occurs(g, rest));
    } else {
      ReducesItself(e, h, d);
      ReplaceOtherGroup(h, rest, g, v);
      ReducesJoin(e, h, h, rest, rest', d, 0, Occurs(g, rest));
    }
  }

  // ---------- What the loop computes ----------

  /** A text with a full expansion: the loop ends, and ends with it. */
  lemma {:induction false} LoopReaches(e: Env, s: string, d: nat) returns (n: nat)
    requires Balanced(s) && Deep(e, s, d).Some?
    ensures AfterRounds(e, s, n) == Some(Deep(e, s, d).value.text)
    decreases Deep(e, s, d).value.steps
  {
    hide Deep, Balanced, Groups, ReplaceAll, Lookup, Round;
    if '{' !in s {
      PlainIsFixed(s, e.node, e.ns, e.subs);
      DeepOfPlain(e, s, d);
      n := 0;
    } else {
      var g := RoundReplaces(e, s);
      DeepOfGroups(e, s, d);
      assert DeepGroup(e, g, d).Some?;
      ReplaceReduces(e, s, g, d);
      var rest := LoopReaches(e, ReplaceAll(s, g, Value(e, g).value), d);
      n := rest + 1;
    }
  }

  /** With each of these groups, the groups of its value are among them too, and that value is balanced. */
  ghost predicate Closed(e: Env, used: set<string>) {
    forall g :: g in used ==>
      |g| >= 2 && (Value(e, g).Some? ==> Balanced(Value(e, g).value) && Groups(Value(e, g).value) <= used)
  }

  /** When the loop ends, the text had a full expansion. */
  lemma {:induction false} LoopReached(e: Env, s: string, used: set<string>, n: nat) returns (d: nat)
    requires Balanced(s) && Closed(e, used) && Groups(s) <= used
    requires AfterRounds(e, s, n).Some? && '{' !in AfterRounds(e, s, n).value
    ensures Deep(e, s, d).Some? && Deep(e, s, d).value.text == AfterRounds(e, s, n).value
    decreases n
  {
    hide Deep, Balanced, Groups, ReplaceAll, Lookup, Round;
    if '{' !in s {
      PlainIsFixed(s, e.node, e.ns, e.subs);
      DeepOfPlain(e, s, 0);
      d := 0;
    } else {
      var g := RoundReplaces(e, s);
      var v := Value(e, g).value;
      ReplaceKeepsGroups(s, g, v);
      var rest := LoopReached(e, ReplaceAll(s, g, v), used, n - 1);
      ReplaceReduces(e, s, g, rest);
      d := rest + 1;
    }
  }

  /** The loop ends with `r` exactly when `r` is the full expansion of the text. */
  lemma LoopYieldsIff(e: Env, s: string, used: set<string>, r: string)
    requires Balanced(s) && Closed(e, used) && Groups(s) <= used
    ensures LoopYields(e, s, r) <==> exists d: nat :: Deep(e, s, d).Some? && Deep(e, s, d).value.text == r
  {
    hide Deep, Balanced, Groups, AfterRounds, Closed;
    if LoopYields(e, s, r) {
      var n: nat :| AfterRounds(e, s, n) == Some(r);
      var d := LoopReached(e, s, used, n);
    }
    if d: nat :| Deep(e, s, d).Some? && Deep(e, s, d).value.text == r {
      var n := LoopReaches(e, s, d);
      DeepOfGroups(e, s, d);
    }
  }

  /** When all groups are known the loop never fails: it ends or goes on for ever. */
  lemma {:induction false} LoopNeverFails(e: Env, s: string, used: set<string>, n: nat)
    requires Balanced(s) && Closed(e, used) && Groups(s) <= used && forall g :: g in used ==> Value(e, g).Some?
    ensures AfterRounds(e, s, n).Some?
    decreases n
  {
    hide Balanced, Groups, ReplaceAll, Lookup, Round;
    if n > 0 && '{' in s {
      var g := RoundReplaces(e, s);
      ReplaceKeepsGroups(s, g, Value(e, g).value);
      LoopNeverFails(e, ReplaceAll(s, g, Value(e, g).value), used, n - 1);
    }
  }

  // ---------- Exactly when the loop ends ----------

  /** Following groups into their values from `s` on meets only known groups, and none that is already on the `path`. */
  ghost predicate NoCycle(e: Env, used: set<string>, s: string, path: set<string>)
    requires Balanced(s) && Closed(e, used) && Groups(s) <= used
    decreases |used - path|
  {
    forall g :: g in Groups(s) ==>
      && g !in path && Value(e, g).Some?
      && (SmallerWithout(used, path, g); NoCycle(e, used, Value(e, g).value, path + {g}))
  }

  lemma SmallerWithout(used: set<string>, path: set<string>, g: string)
    requires g in used && g !in path
    ensures |used - (path + {g})| == |used - path| - 1
  {
    assert used - path == (used - (path + {g})) + {g};
  }

  lemma {:induction false} NoCycleExpands(e: Env, used: set<string>, s: string, path: set<string>)
    requires Balanced(s) && Closed(e, used) && Groups(s) <= used && NoCycle(e, used, s, path)
    ensures Deep(e, s, |used - path|).Some?
    decreases |used - path|
  {
    hide Deep, Balanced, Groups, Lookup;
    var d := |used - path|;
    forall g | g in Groups(s) ensures DeepGroup(e, g, d).Some? {
      SmallerWithout(used, path, g);
      NoCycleExpands(e, used, Value(e, g).value, path + {g});
    }
    DeepOfGroups(e, s, d);
  }

  lemma {:induction false} DeepGroupLastsLong(e: Env, g: string, d: nat, d': nat)
    requires |g| >= 2 && d <= d' && DeepGroup(e, g, d).Some?
    ensures DeepGroup(e, g, d').Some?
    decreases d' - d
  {
    hide DeepGroup;
    if d < d' {
      DeepGroupLasts(e, g, d);
      DeepGroupLastsLong(e, g, d + 1, d');
    }
  }

  /** The least number of levels that will do. */
  lemma {:induction false} LeastLevels(e: Env, s: string, d: nat) returns (least: nat)
    requires Balanced(s) && Deep(e, s, d).Some?
    ensures least <= d && Deep(e, s, least).Some? && (least > 0 ==> Deep(e, s, least - 1).None?)
  {
    hide Deep;
    if d > 0 && Deep(e, s, d - 1).Some? {
      least := LeastLevels(e, s, d - 1);
    } else {
      least := d;
    }
  }

  lemma {:induction false} ExpandsNoCycle(e: Env, used: set<string>, s: string, path: set<string>, d: nat)
    requires Balanced(s) && Closed(e, used) && Groups(s) <= used && Deep(e, s, d).Some?
    requires forall g :: g in path ==> |g| >= 2 && DeepGroup(e, g, d).None?
    ensures NoCycle(e, used, s, path)
    decreases d
  {
    hide Deep, Balanced, Groups, Lookup, Closed;
    DeepOfGroups(e, s, d);
    forall g | g in Groups(s)
      ensures g !in path && Value(e, g).Some? && Balanced(Value(e, g).value) && Groups(Value(e, g).value) <= used
      ensures NoCycle(e, used, Value(e, g).value, path + {g})
    {
      ValueOfUsed(e, used, g);
      NoCycleBehind(e, used, path, g, d);
    }
  }

  lemma ValueOfUsed(e: Env, used: set<string>, g: string)
    requires Closed(e, used) && g in used
    ensures |g| >= 2 && (Value(e, g).Some? ==> Balanced(Value(e, g).value) && Groups(Value(e, g).value) <= used)
  {
  }

  lemma {:induction false} NoCycleBehind(e: Env, used: set<string>, path: set<string>, g: string, d: nat)
    requires Closed(e, used) && g in used && |g| >= 2 && DeepGroup(e, g, d).Some?
    requires forall h :: h in path ==> |h| >= 2 && DeepGroup(e, h, d).None?
    ensures g !in path && Value(e, g).Some? && Balanced(Value(e, g).value) && Groups(Value(e, g).value) <= used
    ensures NoCycle(e, used, Value(e, g).value, path + {g})
    decreases d, 0
  {
    hide Deep, Balanced, Groups, Lookup;
    var v := Value(e, g).value;
    var least := LeastLevels(e, v, d - 1);
    assert DeepGroup(e, g, least).None?;
    forall h | h in path ensures DeepGroup(e, h, least).None? {
      if DeepGroup(e, h, least).Some? {
        DeepGroupLastsLong(e, h, least, d);
      }
    }
    ExpandsNoCycle(e, used, v, path + {g}, least);
  }

  /**
   The loop ends with a name exactly when every group that can be reached from the text is known and no chain of groups,
   each in the value of the one before, comes back to itself.
   */
  lemma LoopEndsIff(e: Env, s: string, used: set<string>)
    requires Balanced(s) && Closed(e, used) && Groups(s) <= used
    ensures (exists r :: LoopYields(e, s, r)) <==> NoCycle(e, used, s, {})
  {
    hide Deep, Balanced, Groups, AfterRounds, Closed, NoCycle, LoopYields;
    if r :| LoopYields(e, s, r) {
      LoopYieldsIff(e, s, used, r);
      var d: nat :| Deep(e, s, d).Some? && Deep(e, s, d).value.text == r;
      ExpandsNoCycle(e, used, s, {}, d);
    }
    if NoCycle(e, used, s, {}) {
      NoCycleExpands(e, used, s, {});
      var r := Deep(e, s, |used - {}|).value.text;
      LoopYieldsIff(e, s, used, r);
    }
  }

  // ---------- The one-pass result ----------

  /** The one-pass result keeps a brace exactly when some group of the text stands for a text with braces. */
  lemma {:induction false} PlainWhenUsedPlain(e: Env, s: string)
    requires Balanced(s) && OnePass(s, e.node, e.ns, e.subs).Some?
    requires forall g :: g in Groups(s) && Value(e, g).Some? ==> Balanced(Value(e, g).value)
    ensures UsedPlain(s, e.node, e.ns, e.subs) <==> '{' !in OnePass(s, e.node, e.ns, e.subs).value
    decreases |s|
  {
    if s == "" {
    } else if s[0] == '{' {
      var j := IndexOf(s, '}');
      var g, rest := s[..j + 1], s[j + 1..];
      assert g in Groups(s);
      PlainWhenUsedPlain(e, rest);
      var value := Value(e, g).value;
      if '{' !in value {
        PlainIsFixed(value, e.node, e.ns, e.subs);
      }
      hide Lookup, Balanced, IndexOf;
    } else {
      PlainWhenUsedPlain(e, s[1..]);
    }
  }

  /** For plain values one pass is the full expansion. */
  lemma {:induction false} OnePassIsDeep(e: Env, s: string)
    requires Balanced(s) && UsedPlain(s, e.node, e.ns, e.subs) && OnePass(s, e.node, e.ns, e.subs).Some?
    ensures Deep(e, s, 1).Some? && Deep(e, s, 1).value.text == OnePass(s, e.node, e.ns, e.subs).value
    decreases |s|
  {
    if s == "" {
    } else if s[0] == '{' {
      var j := IndexOf(s, '}');
      var g := s[..j + 1];
      assert g in Groups(s);
      OnePassIsDeep(e, s[j + 1..]);
      DeepOfPlain(e, Value(e, g).value, 0);
    } else {
      OnePassIsDeep(e, s[1..]);
    }
  }

  /**
   When every group of the text is known and stands for a balanced text, the loop ends in the one-pass result exactly when
   they all stand for texts without braces.
   */
  lemma LoopIsOnePassIff(e: Env, s: string)
    requires Balanced(s) && OnePass(s, e.node, e.ns, e.subs).Some?
    requires forall g :: g in Groups(s) && Value(e, g).Some? ==> Balanced(Value(e, g).value)
    ensures LoopYields(e, s, OnePass(s, e.node, e.ns, e.subs).value) <==> UsedPlain(s, e.node, e.ns, e.subs)
  {
    hide AfterRounds, OnePass, UsedPlain, Balanced, Deep;
    PlainWhenUsedPlain(e, s);
    if UsedPlain(s, e.node, e.ns, e.subs) {
      OnePassIsDeep(e, s);
      var n := LoopReaches(e, s, 1);
    }
  }

  // ---------- A value that mentions its own group ----------

  /** The first brace opens `g`. */
  predicate FirstGroupIs(s: string, g: string) {
    var i := IndexOf(s, '{');
    i < |s| && NoBraces(s[..i]) && g <= s[i..]
  }

  lemma GroupBehindPlain(p: string, g: string, more: string)
    requires IsGroup(g) && NoBraces(p)
    ensures FirstGroupIs(p + g + more, g)
  {
    assert p + g + more == p + ['{'] + (g[1..] + more);
    IndexOfFirst(p, '{', g[1..] + more);
    assert (p + g + more)[|p|..] == g + more;
    assert (p + g + more)[..|p|] == p;
  }

  lemma Regroup(p: string, before: string, g: string, after: string, rest: string)
    ensures p + (before + g + after + rest) == (p + before) + g + (after + rest)
  {
  }

  lemma PlainThenGroup(s: string, g: string) returns (p: string, tail: string)
    requires IsGroup(g) && FirstGroupIs(s, g)
    ensures s == p + (g + tail) && NoBraces(p)
  {
    p := s[..IndexOf(s, '{')];
    tail := s[|p| + |g|..];
    assert s[|p|..] == g + tail;
  }

  lemma SelfReferenceRound(s: string, g: string, before: string, after: string)
    requires IsGroup(g) && NoBraces(before) && FirstGroupIs(s, g)
    ensures FirstGroupIs(ReplaceAll(s, g, before + g + after), g)
  {
    hide FirstGroupIs, ReplaceAll;
    var p, tail := PlainThenGroup(s, g);
    var value := before + g + after;
    ReplaceInPlain(p, g + tail, g, value);
    ReplaceLeading(g, tail, value);
    var rest := ReplaceAll(tail, g, value);
    Regroup(p, before, g, after, rest);
    GroupBehindPlain(p + before, g, after + rest);
  }

  lemma FirstGroupRound(e: Env, s: string, g: string)
    requires IsGroup(g) && FirstGroupIs(s, g) && Value(e, g).Some?
    ensures '{' in s && Round(e, s) == Some(ReplaceAll(s, g, Value(e, g).value))
  {
    hide Lookup, ReplaceAll, IndexOf, FirstGroupIs;
    var p, tail := PlainThenGroup(s, g);
    GroupOpens(p, g, tail);
    GroupCloses(p, g, tail);
  }

  /** When the value of the first group mentions that group before any other, no number of rounds ends the loop. */
  lemma {:induction false} SelfReferenceNeverEnds(e: Env, s: string, g: string, before: string, after: string, n: nat)
    requires IsGroup(g) && NoBraces(before) && FirstGroupIs(s, g) && Value(e, g) == Some(before + g + after)
    ensures var r := AfterRounds(e, s, n); r.Some? && '{' in r.value
    decreases n
  {
    hide FirstGroupIs, Lookup, ReplaceAll, Round;
    FirstGroupRound(e, s, g);
    if n > 0 {
      SelfReferenceRound(s, g, before, after);
      SelfReferenceNeverEnds(e, ReplaceAll(s, g, before + g + after), g, before, after, n - 1);
    }
  }
}
