/** The recursive-descent parser of remap rules, working on the lookahead buffer. */
module RemapParser {
  import opened Common
  import opened Lexer
  import opened Lookahead
  import opened RemapGrammar
  import opened RuleText

  /** The type bits of a rule. */
  datatype RemapType = RemapType(topic: bool, service: bool, nodename: bool, namespace_: bool)

  const TOPIC_REMAP := RemapType(true, false, false, false)
  const SERVICE_REMAP := RemapType(false, true, false, false)
  const TOPIC_OR_SERVICE := RemapType(true, true, false, false)
  const NODENAME_REMAP := RemapType(false, false, true, false)
  const NAMESPACE_REMAP := RemapType(false, false, false, true)

  datatype Rule = Rule(kind: RemapType, nodeName: Option<string>, match_: Option<string>, replacement: string)

  // ---------- What a rule means as text ----------

  function Scheme(kind: RemapType): string {
    if kind == TOPIC_REMAP then TOPIC_URL else if kind == SERVICE_REMAP then SERVICE_URL else ""
  }

  function UnparseBody(r: Rule): string {
    if r.kind == NODENAME_REMAP then "__node:=" + r.replacement
    else if r.kind == NAMESPACE_REMAP then "__ns:=" + r.replacement
    else Scheme(r.kind) + (if r.match_.Some? then r.match_.value else "") + ":=" + r.replacement
  }

  /** The argument put back together. */
  function Unparse(r: Rule): string {
    (if r.nodeName.Some? then r.nodeName.value + ":" else "") + UnparseBody(r)
  }

  function KindOf(body: string): RemapType {
    if TOPIC_URL <= body then TOPIC_REMAP else if SERVICE_URL <= body then SERVICE_REMAP else TOPIC_OR_SERVICE
  }

  /** The rule without its node prefix: a fixed head, or the text on both sides of the first `:=`. */
  function BodyRule(body: string, nodeName: Option<string>): Rule {
    if "__node:=" <= body then Rule(NODENAME_REMAP, nodeName, None, body[8..])
    else if "__ns:=" <= body then Rule(NAMESPACE_REMAP, nodeName, None, body[6..])
    else
      var kind := KindOf(body);
      var rest := body[|Scheme(kind)|..];
      var k := IndexOf(rest, ':');
      Rule(kind, nodeName, Some(rest[..k]), if k + 2 <= |rest| then rest[k + 2..] else "")
  }

  /** Where the body starts: after a leading token that a lone colon follows. */
  function BodyStart(arg: string): (n: nat)
    ensures n <= |arg|
  {
    var (t, n) := Lex(arg);
    if t == TOKEN && n < |arg| && Lex(arg[n..]).0 == COLON then n + 1 else 0
  }

  /** The rule that an argument in the grammar stands for. */
  function RuleOf(arg: string): Rule {
    var n := BodyStart(arg);
    BodyRule(arg[n..], if n > 0 then Some(arg[..n - 1]) else None)
  }

  /** The text of each lexeme type the parser accepts. */
  lemma LexemeText(text: string)
    ensures Lex(text).0 == SEPARATOR ==> Lex(text).1 == 2 && ":=" <= text
    ensures Lex(text).0 == COLON ==> Lex(text).1 == 1 && ":" <= text
    ensures Lex(text).0 == NODE ==> Lex(text).1 == 6 && "__node" <= text
    ensures Lex(text).0 == NS ==> Lex(text).1 == 4 && "__ns" <= text
    ensures Lex(text).0 == URL_TOPIC ==> Lex(text).1 == |TOPIC_URL| && TOPIC_URL <= text
    ensures Lex(text).0 == URL_SERVICE ==> Lex(text).1 == |SERVICE_URL| && SERVICE_URL <= text
    ensures TOPIC_URL <= text ==> Lex(text).0 == URL_TOPIC
    ensures SERVICE_URL <= text ==> Lex(text).0 == URL_SERVICE
    ensures "__ns" <= text ==> Lex(text).0 == NS
    ensures "__node" <= text ==> Lex(text).0 == NODE
    ensures Lex(text).0 in {TOKEN, FORWARD_SLASH, TILDE_SLASH} ==> Lex(text).1 <= |text| && ':' !in text[..Lex(text).1]
  {
    TokenEndIsLongest(text, 0);
    PrefixChar(TOPIC_URL, text, 0);
    PrefixChar(SERVICE_URL, text, 0);
    PrefixChar(TOPIC_URL, text, 3);
    PrefixChar(SERVICE_URL, text, 3);
    PrefixChar("__ns", text, 0);
    PrefixChar("__node", text, 0);
    PrefixChar("__ns", text, 3);
    PrefixChar("__node", text, 3);
  }

  // ---------- The parser ----------

  /** A token of the replacement; back references are refused. */
  method ParseReplacementToken(b: Lookahead2) returns (ok: bool)
    requires b.Valid()
    modifies b
    ensures b.Valid() && b.textIdx >= old(b.textIdx)
    ensures ok <==> old(b.Rest())[0] == TOKEN
    ensures ok ==> b.Rest() == old(b.Rest())[1..] && b.textIdx > old(b.textIdx) && ':' !in b.text[old(b.textIdx)..b.textIdx]
  {
    hide Lex;
    StreamHead(b.text, b.textIdx);
    LexemeText(b.text[b.textIdx..]);
    var lexeme := b.Peek();
    if lexeme.BR? {
      return false;
    } else if lexeme == TOKEN {
      var start, length;
      ok, start, length := b.Accept();
      assert b.text[start..][..length] == b.text[start..b.textIdx];
    } else {
      ok := false;
    }
  }

  /** A token of the match side; wildcards are refused. */
  method ParseMatchToken(b: Lookahead2) returns (ok: bool)
    requires b.Valid()
    modifies b
    ensures b.Valid() && b.textIdx >= old(b.textIdx)
    ensures ok <==> old(b.Rest())[0] == TOKEN
    ensures ok ==> b.Rest() == old(b.Rest())[1..] && b.textIdx > old(b.textIdx) && ':' !in b.text[old(b.textIdx)..b.textIdx]
  {
    hide Lex;
    StreamHead(b.text, b.textIdx);
    LexemeText(b.text[b.textIdx..]);
    var lexeme := b.Peek();
    if lexeme == TOKEN {
      var start, length;
      ok, start, length := b.Accept();
      assert b.text[start..][..length] == b.text[start..b.textIdx];
    } else if lexeme == WILD_ONE {
      return false;
    } else if lexeme == WILD_MULTI {
      return false;
    } else {
      ok := false;
    }
  }

  /** The optional `/` or `~/` in front of a name. */
  method ParseRoot(b: Lookahead2)
    requires b.Valid()
    modifies b
    ensures b.Valid() && b.textIdx >= old(b.textIdx)
    ensures b.Rest() == SkipRoot(old(b.Rest())) && ':' !in b.text[old(b.textIdx)..b.textIdx]
  {
    hide Lex;
    StreamHead(b.text, b.textIdx);
    LexemeText(b.text[b.textIdx..]);
    var lexeme := b.Peek();
    if lexeme == TILDE_SLASH || lexeme == FORWARD_SLASH {
      var ok, start, length := b.Accept();
      assert b.text[start..][..length] == b.text[start..b.textIdx];
    }
  }

  /** The slash between two segments. */
  method ParseSlash(b: Lookahead2) returns (ok: bool)
    requires b.Valid()
    modifies b
    ensures b.Valid() && b.textIdx >= old(b.textIdx)
    ensures ok <==> old(b.Rest())[0] == FORWARD_SLASH
    ensures ok ==> b.Rest() == old(b.Rest())[1..] && b.textIdx > old(b.textIdx) && ':' !in b.text[old(b.textIdx)..b.textIdx]
  {
    hide Lex;
    StreamHead(b.text, b.textIdx);
    LexemeText(b.text[b.textIdx..]);
    var start, length;
    ok, start, length := b.Expect(FORWARD_SLASH);
    if ok {
      assert b.text[start..][..length] == b.text[start..b.textIdx];
    }
  }

  lemma NoColonJoined(text: string, i: nat, j: nat, k: nat)
    requires i <= j <= k <= |text| && ':' !in text[i..j] && ':' !in text[j..k]
    ensures ':' !in text[i..k]
  {
    assert text[i..k] == text[i..j] + text[j..k];
  }

  method ParseReplacementName(b: Lookahead2) returns (ok: bool, replacement: string)
    requires b.Valid()
    modifies b
    ensures b.Valid() && b.textIdx >= old(b.textIdx)
    ensures ok <==> EatName(old(b.Rest()), EOF).Some?
    ensures ok ==> Some(b.Rest()) == EatName(old(b.Rest()), EOF) && replacement == b.text[old(b.textIdx)..b.textIdx]
  {
    hide Lex, LexAt, Lexemes;
    replacement := "";
    var start := b.textIdx;
    ParseRoot(b);
    ok := ParseReplacementToken(b);
    if !ok {
      return;
    }
    ghost var target := EatMore(b.Rest(), EOF);
    var lexeme := b.Peek();
    while lexeme != EOF
      invariant b.Valid() && b.textIdx >= start && lexeme == b.Rest()[0]
      invariant EatMore(b.Rest(), EOF) == target
      decreases |b.text| - b.textIdx
    {
      ghost var ls := b.Rest();
      var slash := ParseSlash(b);
      if !slash {
        return false, "";
      }
      ok := ParseReplacementToken(b);
      if !ok {
        return;
      }
      assert b.Rest() == ls[2..];
      lexeme := b.Peek();
    }
    replacement := b.text[start..b.textIdx];
    ok := true;
  }

  /** The optional URL scheme decides the type bits. */
  method ParseScheme(b: Lookahead2) returns (kind: RemapType)
    requires b.Valid()
    modifies b
    ensures b.Valid() && b.textIdx >= old(b.textIdx)
    ensures b.Rest() == SkipScheme(old(b.Rest()))
    ensures kind == KindOf(b.text[old(b.textIdx)..]) && b.text[old(b.textIdx)..b.textIdx] == Scheme(kind)
  {
    hide Lex;
    StreamHead(b.text, b.textIdx);
    LexemeText(b.text[b.textIdx..]);
    var lexeme := b.Peek();
    if lexeme == URL_SERVICE {
      kind := SERVICE_REMAP;
      var ok, start, length := b.Accept();
      assert b.text[start..][..length] == b.text[start..b.textIdx];
    } else if lexeme == URL_TOPIC {
      kind := TOPIC_REMAP;
      var ok, start, length := b.Accept();
      assert b.text[start..][..length] == b.text[start..b.textIdx];
    } else {
      kind := TOPIC_OR_SERVICE;
    }
  }

  method ParseMatchName(b: Lookahead2) returns (ok: bool, kind: RemapType, match_: string)
    requires b.Valid()
    modifies b
    ensures b.Valid() && b.textIdx >= old(b.textIdx)
    ensures ok <==> EatName(SkipScheme(old(b.Rest())), SEPARATOR).Some?
    ensures ok ==> && Some(b.Rest()) == EatName(SkipScheme(old(b.Rest())), SEPARATOR)
                   && ':' !in match_ && kind == KindOf(b.text[old(b.textIdx)..])
                   && b.text[old(b.textIdx)..b.textIdx] == Scheme(kind) + match_
  {
    hide Lex, LexAt, Lexemes, EatName;
    match_ := "";
    kind := ParseScheme(b);
    var start := b.textIdx;
    ok := ParseMatchPath(b);
    if ok {
      match_ := b.text[start..b.textIdx];
      assert b.text[old(b.textIdx)..b.textIdx] == b.text[old(b.textIdx)..start] + match_;
    }
  }

  /** The match side after its scheme. */
  method ParseMatchPath(b: Lookahead2) returns (ok: bool)
    requires b.Valid()
    modifies b
    ensures b.Valid() && b.textIdx >= old(b.textIdx)
    ensures ok <==> EatName(old(b.Rest()), SEPARATOR).Some?
    ensures ok ==> Some(b.Rest()) == EatName(old(b.Rest()), SEPARATOR) && ':' !in b.text[old(b.textIdx)..b.textIdx]
  {
    hide Lex, LexAt, Lexemes;
    var start := b.textIdx;
    ParseRoot(b);
    var mid := b.textIdx;
    ok := ParseMatchToken(b);
    if !ok {
      return;
    }
    NoColonJoined(b.text, start, mid, b.textIdx);
    ghost var target := EatMore(b.Rest(), SEPARATOR);
    var lexeme := b.Peek();
    while lexeme != SEPARATOR
      invariant b.Valid() && b.textIdx >= start && lexeme == b.Rest()[0]
      invariant EatMore(b.Rest(), SEPARATOR) == target
      invariant ':' !in b.text[start..b.textIdx]
      decreases |b.text| - b.textIdx
    {
      ghost var ls, p := b.Rest(), b.textIdx;
      var slash := ParseSlash(b);
      if !slash {
        return false;
      }
      ghost var q := b.textIdx;
      NoColonJoined(b.text, start, p, q);
      ok := ParseMatchToken(b);
      if !ok {
        return;
      }
      NoColonJoined(b.text, start, q, b.textIdx);
      assert b.Rest() == ls[2..];
      lexeme := b.Peek();
    }
    ok := true;
  }

  /** Accepts the slash path after `__ns:=`, as far as it goes. */
  method ParseFullyQualifiedNamespace(b: Lookahead2) returns (ok: bool)
    requires b.Valid()
    modifies b
    ensures b.Valid() && b.textIdx >= old(b.textIdx)
    ensures ok <==> old(b.Rest())[0] == FORWARD_SLASH
    ensures ok ==> b.Rest() == EatSegments(old(b.Rest())[1..])
  {
    hide Lex, LexAt, Lexemes;
    ok := ParseSlash(b);
    if !ok {
      return;
    }
    ghost var target := EatSegments(b.Rest());
    while true
      invariant b.Valid() && b.textIdx >= old(b.textIdx)
      invariant EatSegments(b.Rest()) == target
      decreases |b.text| - b.textIdx
    {
      ghost var ls := b.Rest();
      var token, _, _ := b.Expect(TOKEN);
      if !token {
        break;
      }
      var slash, _, _ := b.Expect(FORWARD_SLASH);
      if !slash {
        break;
      }
      assert b.Rest() == ls[2..];
    }
  }

  /** The `:=` between the two sides. */
  method ParseSeparator(b: Lookahead2) returns (ok: bool)
    requires b.Valid()
    modifies b
    ensures b.Valid() && b.textIdx >= old(b.textIdx)
    ensures ok <==> old(b.Rest())[0] == SEPARATOR
    ensures ok ==> b.Rest() == old(b.Rest())[1..] && b.text[old(b.textIdx)..b.textIdx] == ":="
  {
    hide Lex;
    StreamHead(b.text, b.textIdx);
    LexemeText(b.text[b.textIdx..]);
    var start, length;
    ok, start, length := b.Expect(SEPARATOR);
    if ok {
      assert b.text[start..][..length] == b.text[start..b.textIdx];
    }
  }

  /** A fixed head (`__node` or `__ns`) and the separator. */
  method ParseHead(b: Lookahead2, head: Lexeme) returns (ok: bool)
    requires b.Valid() && (head == NODE || head == NS)
    modifies b
    ensures b.Valid() && b.textIdx >= old(b.textIdx)
    ensures ok <==> old(b.Rest())[0] == head && |old(b.Rest())| >= 2 && old(b.Rest())[1] == SEPARATOR
    ensures ok ==> && b.Rest() == old(b.Rest())[2..]
                   && b.text[old(b.textIdx)..b.textIdx] == (if head == NODE then "__node:=" else "__ns:=")
  {
    hide Lex;
    StreamHead(b.text, b.textIdx);
    LexemeText(b.text[b.textIdx..]);
    ghost var ls := b.Rest();
    var start, length;
    ok, start, length := b.Expect(head);
    if !ok {
      return;
    }
    var mid := b.textIdx;
    assert b.text[start..][..length] == b.text[start..mid];
    ok := ParseSeparator(b);
    if ok {
      assert b.text[start..b.textIdx] == b.text[start..mid] + b.text[mid..b.textIdx];
    }
  }

  lemma TwoPieces(text: string, i: nat, j: nat, k: nat)
    requires i <= j <= k <= |text|
    ensures text[i..k] == text[i..j] + text[j..k]
  {
  }

  method ParseNodenameReplacement(b: Lookahead2) returns (ok: bool, replacement: string)
    requires b.Valid()
    modifies b
    ensures b.Valid() && b.textIdx >= old(b.textIdx)
    ensures var ls := old(b.Rest()); ok <==> |ls| >= 3 && ls[0] == NODE && ls[1] == SEPARATOR && ls[2] == TOKEN
    ensures ok ==> b.Rest() == old(b.Rest())[3..] && b.text[old(b.textIdx)..b.textIdx] == "__node:=" + replacement
  {
    hide Lex, LexAt, Lexemes;
    replacement := "";
    ghost var ls := b.Rest();
    ok := ParseHead(b, NODE);
    if !ok {
      return;
    }
    var mid := b.textIdx;
    var start, length;
    ok, start, length := b.Expect(TOKEN);
    if ok {
      replacement := b.text[start..start + length];
      TwoPieces(b.text, old(b.textIdx), mid, b.textIdx);
    }
  }

  method ParseNamespaceReplacement(b: Lookahead2) returns (ok: bool, replacement: string)
    requires b.Valid()
    modifies b
    ensures b.Valid() && b.textIdx >= old(b.textIdx)
    ensures var ls := old(b.Rest());
            ok <==> |ls| >= 3 && ls[0] == NS && ls[1] == SEPARATOR && ls[2] == FORWARD_SLASH && EatSegments(ls[3..]) == [EOF]
    ensures ok ==> b.Rest() == [EOF] && b.text[old(b.textIdx)..b.textIdx] == "__ns:=" + replacement
  {
    hide Lex, LexAt, Lexemes;
    replacement := "";
    ghost var ls := b.Rest();
    ok := ParseHead(b, NS);
    if !ok {
      return;
    }
    var start := b.textIdx;
    assert |ls| > 2 ==> ls[2..][1..] == ls[3..];
    ok := ParseFullyQualifiedNamespace(b);
    if !ok {
      return;
    }
    StreamHead(b.text, b.textIdx);
    var at, length;
    ok, at, length := b.Expect(EOF);
    if ok {
      replacement := b.text[start..b.textIdx];
      TwoPieces(b.text, old(b.textIdx), start, b.textIdx);
    }
  }

  lemma ThreePieces(text: string, i: nat, j: nat, k: nat, l: nat)
    requires i <= j <= k <= l <= |text|
    ensures text[i..l] == text[i..j] + text[j..k] + text[k..l]
  {
  }

  method ParseNameRemap(b: Lookahead2) returns (ok: bool, kind: RemapType, match_: string, replacement: string)
    requires b.Valid()
    modifies b
    ensures b.Valid() && b.textIdx >= old(b.textIdx)
    ensures ok ==> b.Rest()[0] == EOF
    ensures ok <==> AcceptsNameRule(old(b.Rest()))
    ensures ok ==> && ':' !in match_ && kind == KindOf(b.text[old(b.textIdx)..])
                   && b.text[old(b.textIdx)..b.textIdx] == Scheme(kind) + match_ + ":=" + replacement
  {
    hide Lex, LexAt, Lexemes, EatName, KindOf, Scheme, SkipScheme;
    replacement := "";
    ghost var ls := b.Rest();
    ok, kind, match_ := ParseMatchName(b);
    if !ok {
      return;
    }
    var p := b.textIdx;
    ghost var m := b.Rest();
    EatNameStops(SkipScheme(ls), SEPARATOR);
    ok := ParseSeparator(b);
    var q := b.textIdx;
    ok, replacement := ParseReplacementName(b);
    if ok {
      EatNameStops(m[1..], EOF);
      StreamHead(b.text, b.textIdx);
      assert b.Rest() == [EOF];
      ThreePieces(b.text, old(b.textIdx), p, q, b.textIdx);
    }
  }

  /** The colon after a node name. */
  method ParseColon(b: Lookahead2) returns (ok: bool)
    requires b.Valid()
    modifies b
    ensures b.Valid() && b.textIdx >= old(b.textIdx)
    ensures ok <==> old(b.Rest())[0] == COLON
    ensures ok ==> b.Rest() == old(b.Rest())[1..] && b.text[old(b.textIdx)..b.textIdx] == ":"
  {
    hide Lex;
    StreamHead(b.text, b.textIdx);
    LexemeText(b.text[b.textIdx..]);
    var start, length;
    ok, start, length := b.Expect(COLON);
    if ok {
      assert b.text[start..][..length] == b.text[start..b.textIdx];
    }
  }

  method ParseNodenamePrefix(b: Lookahead2) returns (ok: bool, nodeName: string)
    requires b.Valid()
    modifies b
    ensures b.Valid() && b.textIdx >= old(b.textIdx)
    ensures var ls := old(b.Rest()); ok <==> |ls| >= 2 && ls[0] == TOKEN && ls[1] == COLON
    ensures ok ==> && b.Rest() == old(b.Rest())[2..]
                   && b.text[old(b.textIdx)..b.textIdx] == nodeName + ":" && |nodeName| == LexAt(b.text, old(b.textIdx)).1
  {
    hide Lex, Lexemes;
    nodeName := "";
    ghost var ls := b.Rest();
    StreamHead(b.text, b.textIdx);
    var start, length;
    ok, start, length := b.Expect(TOKEN);
    if !ok {
      return;
    }
    var mid := b.textIdx;
    ok := ParseColon(b);
    if ok {
      nodeName := b.text[start..start + length];
      assert b.text[start..b.textIdx] == b.text[start..mid] + b.text[mid..b.textIdx];
    }
  }

  lemma SplitAtColon(match_: string, replacement: string)
    requires ':' !in match_
    ensures var rest := match_ + ":=" + replacement;
            && IndexOf(rest, ':') == |match_| && |match_| + 2 <= |rest|
            && rest[..|match_|] == match_ && rest[|match_| + 2..] == replacement
  {
    assert match_ + ":=" + replacement == match_ + [':'] + ("=" + replacement);
    IndexOfFirst(match_, ':', "=" + replacement);
  }

  lemma DropScheme(scheme: string, match_: string, replacement: string)
    ensures (scheme + match_ + ":=" + replacement)[|scheme|..] == match_ + ":=" + replacement
  {
  }

  lemma BodyRuleOfName(kind: RemapType, match_: string, replacement: string, body: string)
    requires ':' !in match_ && body == Scheme(kind) + match_ + ":=" + replacement
    requires kind == KindOf(body) && !("__node:=" <= body) && !("__ns:=" <= body)
    ensures BodyRule(body, None) == Rule(kind, None, Some(match_), replacement)
    ensures UnparseBody(Rule(kind, None, Some(match_), replacement)) == body
  {
    assert kind != NODENAME_REMAP && kind != NAMESPACE_REMAP;
    hide IndexOf, Scheme, KindOf;
    DropScheme(Scheme(kind), match_, replacement);
    SplitAtColon(match_, replacement);
  }

  lemma BodyRuleOfHead(replacement: string)
    ensures var r := Rule(NODENAME_REMAP, None, None, replacement);
            BodyRule("__node:=" + replacement, None) == r && UnparseBody(r) == "__node:=" + replacement
    ensures var r := Rule(NAMESPACE_REMAP, None, None, replacement);
            BodyRule("__ns:=" + replacement, None) == r && UnparseBody(r) == "__ns:=" + replacement
  {
    assert ("__node:=" + replacement)[8..] == replacement;
    var ns := "__ns:=" + replacement;
    assert ns[6..] == replacement && ns[2] == 'n' && ns[3] == 's';
    PrefixChar("__node:=", ns, 3);
  }

  /** A body whose first lexeme is neither `__node` nor `__ns` does not begin with those texts. */
  lemma HeadsNeedLexemes(body: string)
    ensures Lex(body).0 != NODE ==> !("__node:=" <= body)
    ensures Lex(body).0 != NS ==> !("__ns:=" <= body)
  {
    LexemeText(body);
    hide Lex;
    assert "__node:=" <= body ==> "__node" <= body by { assert "__node:="[..6] == "__node"; }
    assert "__ns:=" <= body ==> "__ns" <= body by { assert "__ns:="[..4] == "__ns"; }
  }

  lemma NotAHead(text: string, pos: nat)
    requires pos <= |text| && Lexemes(text, pos)[0] != NODE && Lexemes(text, pos)[0] != NS
    ensures !("__node:=" <= text[pos..]) && !("__ns:=" <= text[pos..])
  {
    hide Lex, Lexemes;
    StreamHead(text, pos);
    HeadsNeedLexemes(text[pos..]);
  }

  method ParseNameBody(b: Lookahead2) returns (ok: bool, rule: Rule)
    requires b.Valid() && b.Rest()[0] != NODE && b.Rest()[0] != NS
    modifies b
    ensures b.Valid() && b.textIdx >= old(b.textIdx)
    ensures ok <==> AcceptsNameRule(old(b.Rest()))
    ensures ok ==> && b.Rest()[0] == EOF
                   && rule == BodyRule(b.text[old(b.textIdx)..b.textIdx], None)
                   && UnparseBody(rule) == b.text[old(b.textIdx)..b.textIdx]
  {
    hide Lex, LexAt, Lexemes, AcceptsNameRule, BodyRule, UnparseBody, KindOf, Scheme;
    ghost var body := b.text[b.textIdx..];
    NotAHead(b.text, b.textIdx);
    var kind, match_, replacement;
    ok, kind, match_, replacement := ParseNameRemap(b);
    rule := Rule(kind, None, Some(match_), replacement);
    if ok {
      StreamHead(b.text, b.textIdx);
      assert b.text[old(b.textIdx)..b.textIdx] == body;
      BodyRuleOfName(kind, match_, replacement, body);
    }
  }

  /** The three kinds of rule. */
  method ParseKind(b: Lookahead2) returns (ok: bool, rule: Rule)
    requires b.Valid()
    modifies b
    ensures b.Valid() && b.textIdx >= old(b.textIdx)
    ensures ok && b.Rest()[0] == EOF <==> AcceptsBody(old(b.Rest()))
    ensures ok ==> && rule == BodyRule(b.text[old(b.textIdx)..b.textIdx], None)
                   && UnparseBody(rule) == b.text[old(b.textIdx)..b.textIdx]
  {
    hide Lex, LexAt, Lexemes, AcceptsNameRule, BodyRule, UnparseBody;
    ghost var ls := b.Rest();
    var replacement;
    var lexeme := b.Peek();
    if lexeme == NODE {
      ok, replacement := ParseNodenameReplacement(b);
      rule := Rule(NODENAME_REMAP, None, None, replacement);
      BodyRuleOfHead(replacement);
      if ok {
        StreamHead(b.text, b.textIdx);
        assert ls == [ls[0], ls[1], ls[2]] + b.Rest();
      }
    } else if lexeme == NS {
      ok, replacement := ParseNamespaceReplacement(b);
      rule := Rule(NAMESPACE_REMAP, None, None, replacement);
      BodyRuleOfHead(replacement);
    } else {
      ok, rule := ParseNameBody(b);
    }
  }

  /** Everything after the optional node prefix. */
  method ParseBody(b: Lookahead2) returns (ok: bool, rule: Rule)
    requires b.Valid()
    modifies b
    ensures b.Valid()
    ensures ok <==> AcceptsBody(old(b.Rest()))
    ensures ok ==> rule == BodyRule(b.text[old(b.textIdx)..], None) && UnparseBody(rule) == b.text[old(b.textIdx)..]
  {
    hide Lex, LexAt, Lexemes, AcceptsBody, BodyRule, UnparseBody;
    ok, rule := ParseKind(b);
    if !ok {
      return;
    }
    StreamHead(b.text, b.textIdx);
    ghost var idx := b.textIdx;
    var at, length;
    ok, at, length := b.Expect(EOF);
    if ok {
      assert b.text[old(b.textIdx)..idx] == b.text[old(b.textIdx)..];
    }
  }

  /** The two-lexeme peek at the start of a fresh buffer, and the node prefix if it shows one. */
  method ParseOptionalPrefix(b: Lookahead2) returns (nodeName: Option<string>, ghost behind: bool)
    requires b.Valid() && b.textIdx == 0 && b.end1 == 0
    modifies b
    ensures b.Valid() && b.textIdx == BodyStart(b.text) && b.Rest() == SkipPrefix(Lexemes(b.text, 0))
    ensures nodeName == if b.textIdx > 0 then Some(b.text[..b.textIdx - 1]) else None
    ensures b.text[..b.textIdx] == if nodeName.Some? then nodeName.value + ":" else ""
    ensures behind <==> FailsOnTerminator(b.text)
  {
    hide Lex, Lexemes, FailsOnTerminator;
    var text := b.text;
    StreamHead(text, 0);
    assert text[0..] == text;
    var lexeme1, lexeme2;
    lexeme1, lexeme2, behind := b.Peek2();
    if lexeme1 == TOKEN {
      StreamHead(text, b.end0);
    }
    nodeName := None;
    if lexeme1 == TOKEN && lexeme2 == COLON {
      var ok, name := ParseNodenamePrefix(b);
      nodeName := Some(name);
      assert text[..b.textIdx] == name + ":";
      assert text[..|name|] == text[..b.textIdx][..|name|] == name;
    }
  }

  /** The start symbol, on a fresh buffer. It looks `behind` the terminator for six arguments and no others. */
  method BeginRemapRule(b: Lookahead2) returns (ok: bool, rule: Rule, ghost behind: bool)
    requires b.Valid() && b.textIdx == 0 && b.end1 == 0
    modifies b
    ensures ok <==> AcceptsRule(Lexemes(b.text, 0))
    ensures ok ==> rule == RuleOf(b.text) && Unparse(rule) == b.text
    ensures behind <==> FailsOnTerminator(b.text)
    ensures behind ==> !ok
  {
    hide Lex, Lexemes, AcceptsBody, UnparseBody, Unparse, BodyRule, RuleOf, BodyStart, SkipPrefix, FailsOnTerminator;
    var text := b.text;
    FailingIsNoRule(text);
    var nodeName;
    nodeName, behind := ParseOptionalPrefix(b);
    var from := b.textIdx;
    ok, rule := ParseBody(b);
    if ok {
      PrefixedRule(text, from, nodeName, rule);
      rule := rule.(nodeName := nodeName);
    }
  }

  lemma PrefixedRule(text: string, from: nat, nodeName: Option<string>, bare: Rule)
    requires from == BodyStart(text) && nodeName == if from > 0 then Some(text[..from - 1]) else None
    requires text[..from] == if nodeName.Some? then nodeName.value + ":" else ""
    requires bare == BodyRule(text[from..], None) && UnparseBody(bare) == text[from..]
    ensures bare.(nodeName := nodeName) == RuleOf(text) && Unparse(RuleOf(text)) == text
  {
    hide BodyStart, BodyRule, UnparseBody;
    BodyRuleKeepsPrefix(text[from..], nodeName);
    UnparseBodyIgnoresPrefix(bare, nodeName);
    assert text == text[..from] + text[from..];
  }

  lemma FailingIsNoRule(text: string)
    ensures FailsOnTerminator(text) ==> !AcceptsRule(Lexemes(text, 0))
  {
    hide Lex, FailsOnTerminator;
    if FailsOnTerminator(text) {
      TerminatorFails(text);
      StreamHead(text, 0);
      assert text[0..] == text;
    }
  }

  lemma BodyRuleKeepsPrefix(body: string, nodeName: Option<string>)
    ensures BodyRule(body, nodeName) == BodyRule(body, None).(nodeName := nodeName)
  {
  }

  lemma UnparseBodyIgnoresPrefix(r: Rule, nodeName: Option<string>)
    ensures UnparseBody(r.(nodeName := nodeName)) == UnparseBody(r)
  {
  }

  /**
   An argument is accepted exactly when its lexemes are in the grammar, which is said of its characters as well; the parsed
   rule is the one it stands for, and putting the rule back together gives the argument: nothing is lost.
   */
  method ParseRemapRule(arg: string) returns (r: Option<Rule>)
    requires CString(arg)
    ensures r.Some? <==> IsRule(Lexemes(arg, 0))
    ensures r.Some? <==> IsRuleText(arg)
    ensures r.Some? ==> r.value == RuleOf(arg) && Unparse(r.value) == arg
  {
    hide Lex, Lexemes, AcceptsRule, RuleOf, Unparse, IsRuleText;
    RuleAccepted(Lexemes(arg, 0));
    RuleIff(arg);
    var b := new Lookahead2(arg);
    ghost var behind;
    var ok, rule;
    ok, rule, behind := BeginRemapRule(b);
    r := if ok then Some(rule) else None;
  }

  /** Different arguments never yield the same rule. */
  method ParseTwoRules(a: string, b: string) returns (r: Option<Rule>, s: Option<Rule>)
    requires CString(a) && CString(b)
    ensures r.Some? <==> IsRule(Lexemes(a, 0))
    ensures s.Some? <==> IsRule(Lexemes(b, 0))
    ensures r.Some? && r == s ==> a == b
  {
    r := ParseRemapRule(a);
    s := ParseRemapRule(b);
  }
}
