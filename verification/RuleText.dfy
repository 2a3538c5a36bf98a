/** The remap rules as texts: which arguments are accepted, said over characters alone. */
module RuleText {
  import opened Common
  import opened Lexer
  import opened Lookahead
  import opened RemapGrammar

  // ---------- The grammar over characters ----------

  /** Tokens with single slashes between them. */
  predicate IsPathText(s: string)
    decreases |s|
  {
    var k := IndexOf(s, '/');
    IsToken(s[..k]) && (k == |s| || IsPathText(s[k + 1..]))
  }

  /** A path, possibly absolute or private. */
  predicate IsNameText(s: string) {
    IsPathText(if "/" <= s then s[1..] else if "~/" <= s then s[2..] else s)
  }

  /** Tokens, each but the last followed by a slash; the last one may be. */
  predicate IsSegmentsText(s: string)
    decreases |s|
  {
    s == "" || (var k := IndexOf(s, '/'); IsToken(s[..k]) && (k == |s| || IsSegmentsText(s[k + 1..])))
  }

  predicate IsNamespaceText(s: string) {
    "/" <= s && IsSegmentsText(s[1..])
  }

  function WithoutScheme(s: string): string {
    if "rostopic://" <= s then s[11..] else if "rosservice://" <= s then s[13..] else s
  }

  /** Two names with a separator between them. */
  predicate IsPairText(s: string) {
    var k := IndexOf(s, ':');
    IsNameText(s[..k]) && ":=" <= s[k..] && IsNameText(s[k + 2..])
  }

  predicate IsNameRuleText(s: string) {
    IsPairText(WithoutScheme(s))
  }

  predicate IsBodyText(s: string) {
    if "__node:=" <= s then IsToken(s[8..])
    else if "__ns:=" <= s then IsNamespaceText(s[6..])
    else IsNameRuleText(s)
  }

  /** A body, possibly behind a token and a colon. */
  predicate IsRuleText(arg: string) {
    IsBodyText(arg) || (var k := IndexOf(arg, ':'); k < |arg| && IsToken(arg[..k]) && IsBodyText(arg[k + 1..]))
  }

  // ---------- Tokens ----------

  lemma {:induction false} IndexOfBehind(p: string, s: string, c: char)
    requires c !in p
    ensures IndexOf(p + s, c) == |p| + IndexOf(s, c)
    decreases p
  {
    if p == "" {
      assert p + s == s;
    } else {
      assert (p + s)[1..] == p[1..] + s;
      IndexOfBehind(p[1..], s, c);
    }
  }

  predicate EndsToken(rest: string) {
    rest == "" || !(IsAlnum(rest[0]) || rest[0] == '_')
  }

  lemma NoUrlBehindToken(t: string, rest: string, url: string, n: nat)
    requires IsToken(t) && EndsToken(rest) && !("://" <= rest)
    requires n + 3 == |url| && url[n..] == "://" && IsToken(url[..n])
    ensures !(url <= t + rest)
  {
    var i := if |t| < n then |t| else n;
    PrefixChar(url, t + rest, i);
    PrefixChar(url, t + rest, n + 1);
    PrefixChar(url, t + rest, n + 2);
    assert url[n] == url[n..][0] && url[n + 1] == url[n..][1] && url[n + 2] == url[n..][2];
    assert "://" <= rest <==> |rest| >= 3 && rest[0] == ':' && rest[1] == '/' && rest[2] == '/';
    assert |t| < n ==> url[|t|] == url[..n][|t|];
  }

  /** A token, followed by nothing that could go on with it or make it a scheme, is lexed as one. */
  lemma TokenIsLexed(t: string, rest: string)
    requires IsToken(t) && EndsToken(rest) && !("://" <= rest)
    ensures Lex(t + rest) == (TOKEN, |t|)
  {
    hide Lex;
    var text := t + rest;
    assert text[..|t|] == t;
    UrlHeads();
    NoUrlBehindToken(t, rest, TOPIC_URL, 8);
    NoUrlBehindToken(t, rest, SERVICE_URL, 10);
    assert !("__" <= text) by {
      PrefixChar("__", text, 0);
      PrefixChar("__", text, 1);
    }
    if rest != "" {
      TokenGrows(text, |t|);
    }
    TokenStops(text, |t|);
  }

  lemma UrlHeads()
    ensures IsToken(TOPIC_URL[..8]) && TOPIC_URL[8..] == "://" && IsToken(SERVICE_URL[..10]) && SERVICE_URL[10..] == "://"
  {
  }

  /** What is lexed as a token is one, as long as can be. */
  lemma LexedIsToken(s: string)
    requires Lex(s).0 == TOKEN
    ensures var n := Lex(s).1; 0 < n <= |s| && IsToken(s[..n]) && (n < |s| ==> !IsToken(s[..n + 1]))
    ensures var n := Lex(s).1; ':' !in s[..n] && '/' !in s[..n]
  {
    TokenEndIsLongest(s, 0);
  }

  // ---------- Paths ----------

  /** Where a text goes on after its first token. */
  lemma PathBehindToken(s: string, n: nat)
    requires 0 < n <= |s| && IsToken(s[..n]) && (n < |s| ==> !IsToken(s[..n + 1]))
    ensures IsPathText(s) <==> n == |s| || (s[n] == '/' && IsPathText(s[n + 1..]))
    ensures IsSegmentsText(s) <==> n == |s| || (s[n] == '/' && IsSegmentsText(s[n + 1..]))
  {
    var k := IndexOf(s, '/');
    assert forall i :: 0 <= i < n ==> s[i] == s[..n][i];
    assert k < |s| ==> s[k] == '/';
    assert n <= k;
    if n < k {
      assert s[..k][n] == s[n] && s[n] != '/';
      TokenShortens(s, k, n + 1);
    }
  }

  lemma TokenShortens(s: string, k: nat, n: nat)
    requires 0 < n <= k <= |s|
    ensures IsToken(s[..k]) ==> IsToken(s[..n])
  {
    if IsToken(s[..k]) {
      assert s[..k][..n] == s[..n];
      TokenPrefix(s[..k], n);
    }
  }

  /** A text whose first segment is a token is lexed as that token first, whatever follows the segment. */
  lemma SegmentIsLexed(body: string, rest: string)
    requires body != "" && IsToken(body[..IndexOf(body, '/')])
    requires rest == "" || (rest[0] == ':' && !("://" <= rest))
    ensures Lex(body + rest).0 == TOKEN
  {
    hide Lex, IsToken, IndexOf;
    var k := IndexOf(body, '/');
    var t, more := body[..k], body[k..] + rest;
    assert body + rest == t + more;
    SlashOrRest(body[k..], rest);
    TokenIsLexed(t, more);
  }

  lemma SlashOrRest(slash: string, rest: string)
    requires (slash == "" || slash[0] == '/') && (rest == "" || (rest[0] == ':' && !("://" <= rest)))
    ensures EndsToken(slash + rest) && !("://" <= slash + rest)
  {
    PrefixChar("://", slash + rest, 0);
    if slash == "" {
      assert slash + rest == rest;
    }
  }

  function Cut(rest: string, stop: Lexeme): (k: nat)
    ensures k <= |rest|
  {
    if stop == SEPARATOR then IndexOf(rest, ':') else |rest|
  }

  /** The lexeme `stop` follows the cut. */
  predicate StopsAt(rest: string, stop: Lexeme) {
    stop == SEPARATOR ==> ":=" <= rest[Cut(rest, stop)..]
  }

  function Body(rest: string, stop: Lexeme): string {
    rest[..Cut(rest, stop)]
  }

  lemma CutBehind(p: string, rest: string, stop: Lexeme)
    requires ':' !in p
    ensures Cut(p + rest, stop) == |p| + Cut(rest, stop)
    ensures Body(p + rest, stop) == p + Body(rest, stop)
    ensures StopsAt(p + rest, stop) <==> StopsAt(rest, stop)
  {
    if stop == SEPARATOR {
      IndexOfBehind(p, rest, ':');
    }
    var k := Cut(rest, stop);
    assert (p + rest)[|p| + k..] == rest[k..];
    assert (p + rest)[..|p| + k] == p + rest[..k];
  }

  /** A slash and a path, or nothing, up to the stop. */
  predicate IsMoreText(body: string) {
    body == "" || ("/" <= body && IsPathText(body[1..]))
  }

  ghost predicate PathAgrees(text: string, pos: nat, stop: Lexeme)
    requires pos <= |text|
  {
    var ls, rest := Lexemes(text, pos), text[pos..];
    var accepted := ls[0] == TOKEN && EatMore(ls[1..], stop).Some?;
    && (accepted <==> StopsAt(rest, stop) && IsPathText(Body(rest, stop)))
    && (accepted ==> EatMore(ls[1..], stop) == Some(Lexemes(text, pos + Cut(rest, stop))))
  }

  ghost predicate MoreAgrees(text: string, pos: nat, stop: Lexeme)
    requires pos <= |text|
  {
    var ls, rest := Lexemes(text, pos), text[pos..];
    var accepted := EatMore(ls, stop).Some?;
    && (accepted <==> StopsAt(rest, stop) && IsMoreText(Body(rest, stop)))
    && (accepted ==> EatMore(ls, stop) == Some(Lexemes(text, pos + Cut(rest, stop))))
  }

  lemma {:induction false} PathIff(text: string, pos: nat, stop: Lexeme)
    requires pos <= |text| && (stop == SEPARATOR || stop == EOF)
    ensures PathAgrees(text, pos, stop)
    decreases |text| - pos, 0
  {
    hide Lex, Lexemes;
    var rest := text[pos..];
    StreamHead(text, pos);
    if Lex(rest).0 == TOKEN {
      LexedIsToken(rest);
      var n := Lex(rest).1;
      MoreIff(text, pos + n, stop);
      TokenThenMore(text, pos, n, stop);
    } else {
      NoToken(rest, stop);
    }
  }

  lemma NoToken(rest: string, stop: Lexeme)
    requires Lex(rest).0 != TOKEN && (stop == SEPARATOR || stop == EOF)
    ensures !(StopsAt(rest, stop) && IsPathText(Body(rest, stop)))
  {
    hide Lex;
    var k, body := Cut(rest, stop), Body(rest, stop);
    if StopsAt(rest, stop) && IsPathText(body) {
      var more := rest[k..];
      assert rest == body + more;
      PrefixChar(":=", more, 0);
      PrefixChar(":=", more, 1);
      PrefixChar("://", more, 1);
      SegmentIsLexed(body, more);
    }
  }

  lemma BodyBehindToken(rest: string, n: nat, stop: Lexeme)
    requires 0 < n <= |rest| && IsToken(rest[..n]) && (n < |rest| ==> !IsToken(rest[..n + 1])) && ':' !in rest[..n]
    ensures Cut(rest, stop) == n + Cut(rest[n..], stop) && (StopsAt(rest, stop) <==> StopsAt(rest[n..], stop))
    ensures IsPathText(Body(rest, stop)) <==> IsMoreText(Body(rest[n..], stop))
  {
    hide IsPathText, IsToken;
    var t, more := rest[..n], rest[n..];
    assert rest == t + more;
    CutBehind(t, more, stop);
    hide Cut, StopsAt;
    var body, body' := Body(rest, stop), Body(more, stop);
    assert body == t + body';
    assert body[..n] == t;
    if n < |body| {
      assert body[..n + 1] == rest[..n + 1];
      assert body[n] == body'[0] && body[n + 1..] == body'[1..];
    }
    PathBehindToken(body, n);
  }

  lemma TokenThenMore(text: string, pos: nat, n: nat, stop: Lexeme)
    requires pos < pos + n <= |text| && (stop == SEPARATOR || stop == EOF)
    requires var rest := text[pos..];
             && Lex(rest) == (TOKEN, n) && IsToken(rest[..n]) && (n < |rest| ==> !IsToken(rest[..n + 1])) && ':' !in rest[..n]
    requires MoreAgrees(text, pos + n, stop)
    ensures PathAgrees(text, pos, stop)
  {
    hide Lex, Lexemes, IsPathText, IsMoreText, Body, Cut, StopsAt, IsToken, EatMore;
    StreamHead(text, pos);
    BodyBehindToken(text[pos..], n, stop);
    assert text[pos..][n..] == text[pos + n..];
  }

  lemma BodyBehindSlash(rest: string, stop: Lexeme)
    requires "/" <= rest
    ensures Cut(rest, stop) == 1 + Cut(rest[1..], stop) && (StopsAt(rest, stop) <==> StopsAt(rest[1..], stop))
    ensures IsMoreText(Body(rest, stop)) <==> IsPathText(Body(rest[1..], stop))
  {
    hide IsPathText;
    assert rest == "/" + rest[1..];
    CutBehind("/", rest[1..], stop);
    hide Cut, StopsAt;
    assert Body(rest, stop)[1..] == Body(rest[1..], stop);
  }

  lemma BodyElse(rest: string, stop: Lexeme)
    requires !("/" <= rest) && (stop == SEPARATOR || stop == EOF)
    ensures StopsAt(rest, stop) && IsMoreText(Body(rest, stop)) <==> if stop == SEPARATOR then ":=" <= rest else rest == ""
    ensures StopsAt(rest, stop) && IsMoreText(Body(rest, stop)) ==> Cut(rest, stop) == 0
  {
    hide IsPathText;
    IndexOfIsZero(rest, ':');
    PrefixChar(":=", rest, 0);
    PrefixChar("/", Body(rest, stop), 0);
  }

  lemma {:induction false} MoreIff(text: string, pos: nat, stop: Lexeme)
    requires pos <= |text| && (stop == SEPARATOR || stop == EOF)
    ensures MoreAgrees(text, pos, stop)
    decreases |text| - pos, 1
  {
    hide Lex, Lexemes, IsPathText, IsMoreText, Body, Cut, StopsAt;
    var rest := text[pos..];
    StreamHead(text, pos);
    PunctuationTexts(rest);
    LexLength(rest);
    if "/" <= rest {
      PathIff(text, pos + 1, stop);
      StreamHead(text, pos + 1);
      BodyBehindSlash(rest, stop);
      assert rest[1..] == text[pos + 1..];
      SlashThenPath(Lexemes(text, pos), Lexemes(text, pos + 1), stop);
    } else {
      BodyElse(rest, stop);
    }
  }

  lemma SlashThenPath(ls: seq<Lexeme>, ls': seq<Lexeme>, stop: Lexeme)
    requires ls != [] && ls' != [] && ls[0] == FORWARD_SLASH && ls[1..] == ls' && (stop == SEPARATOR || stop == EOF)
    ensures EatMore(ls, stop).Some? <==> ls'[0] == TOKEN && EatMore(ls'[1..], stop).Some?
    ensures EatMore(ls, stop).Some? ==> EatMore(ls, stop) == EatMore(ls'[1..], stop)
  {
    assert ls[1] == ls'[0] && ls[2..] == ls'[1..];
  }

  lemma IndexOfIsZero(s: string, c: char)
    ensures IndexOf(s, c) == 0 <==> s == "" || s[0] == c
    ensures s[IndexOf(s, c)..] == s <==> IndexOf(s, c) == 0
  {
    if IndexOf(s, c) > 0 {
      assert |s[IndexOf(s, c)..]| < |s|;
    }
  }

  // ---------- Names and namespaces ----------

  function RootLength(s: string): (r: nat)
    ensures r <= |s| && ':' !in s[..r]
  {
    if "/" <= s then 1 else if "~/" <= s then 2 else 0
  }

  lemma BodyBehindRoot(rest: string, stop: Lexeme)
    ensures var r := RootLength(rest);
            && Cut(rest, stop) == r + Cut(rest[r..], stop) && (StopsAt(rest, stop) <==> StopsAt(rest[r..], stop))
            && (IsNameText(Body(rest, stop)) <==> IsPathText(Body(rest[r..], stop)))
  {
    hide IsPathText;
    var r := RootLength(rest);
    var root, more := rest[..r], rest[r..];
    assert rest == root + more;
    CutBehind(root, more, stop);
    hide Cut, StopsAt;
    var body := Body(rest, stop);
    assert body == root + Body(more, stop);
    assert body[r..] == Body(more, stop);
    if r == 0 {
      PrefixOfPrefix("/", body, rest);
      PrefixOfPrefix("~/", body, rest);
    } else {
      assert root <= body;
      PrefixChar("/", body, 0);
    }
  }

  lemma PrefixOfPrefix(w: string, s: string, t: string)
    requires s <= t
    ensures w <= s ==> w <= t
  {
  }

  lemma NameIff(text: string, pos: nat, stop: Lexeme)
    requires pos <= |text| && (stop == SEPARATOR || stop == EOF)
    ensures var ls, rest := Lexemes(text, pos), text[pos..];
            && (EatName(ls, stop).Some? <==> StopsAt(rest, stop) && IsNameText(Body(rest, stop)))
            && (EatName(ls, stop).Some? ==> EatName(ls, stop) == Some(Lexemes(text, pos + Cut(rest, stop))))
  {
    hide Lexemes, IsPathText, IsNameText, Body, Cut, StopsAt, EatMore, SkipRoot, RootLength;
    var rest := text[pos..];
    var r := RootLength(rest);
    RootIff(text, pos);
    PathIff(text, pos + r, stop);
    BodyBehindRoot(rest, stop);
    assert rest[r..] == text[pos + r..];
  }

  lemma RootIff(text: string, pos: nat)
    requires pos <= |text|
    ensures SkipRoot(Lexemes(text, pos)) == Lexemes(text, pos + RootLength(text[pos..]))
  {
    hide Lex, Lexemes;
    StreamHead(text, pos);
    PunctuationTexts(text[pos..]);
  }

  lemma {:induction false} SegmentsIff(text: string, pos: nat)
    requires pos <= |text|
    ensures EatSegments(Lexemes(text, pos)) == [EOF] <==> IsSegmentsText(text[pos..])
    decreases |text| - pos
  {
    hide Lex, Lexemes, IsSegmentsText, IsToken, EatSegments;
    var rest, ls := text[pos..], Lexemes(text, pos);
    StreamHead(text, pos);
    if Lex(rest).0 == TOKEN {
      LexedIsToken(rest);
      var n := Lex(rest).1;
      assert text[pos + n..] == rest[n..];
      SegmentsBehindToken(rest, n);
      AfterSegment(text, pos + n);
      EatSegmentsToken(ls);
      if "/" <= rest[n..] {
        SegmentsIff(text, pos + n + 1);
        assert text[pos + n + 1..] == rest[n + 1..];
      }
    } else {
      NoSegment(rest);
      EatSegmentsElse(ls);
      OnlyEnd(text, pos);
    }
  }

  lemma SegmentsBehindToken(s: string, n: nat)
    requires 0 < n <= |s| && IsToken(s[..n]) && (n < |s| ==> !IsToken(s[..n + 1]))
    ensures IsSegmentsText(s) <==> s[n..] == "" || ("/" <= s[n..] && IsSegmentsText(s[n + 1..]))
  {
    hide IsToken, IsSegmentsText;
    PathBehindToken(s, n);
  }

  lemma AfterSegment(text: string, pos: nat)
    requires pos <= |text|
    ensures var ls, rest := Lexemes(text, pos), text[pos..];
            && (ls[0] == FORWARD_SLASH <==> "/" <= rest) && ("/" <= rest ==> ls[1..] == Lexemes(text, pos + 1))
            && (ls == [EOF] <==> rest == "")
  {
    hide Lex, Lexemes;
    StreamHead(text, pos);
    PunctuationTexts(text[pos..]);
    LexLength(text[pos..]);
  }

  lemma OnlyEnd(text: string, pos: nat)
    requires pos <= |text|
    ensures Lexemes(text, pos) == [EOF] <==> text[pos..] == ""
  {
    AfterSegment(text, pos);
  }

  lemma EatSegmentsToken(ls: seq<Lexeme>)
    requires |ls| >= 2 && ls[0] == TOKEN
    ensures EatSegments(ls) == if ls[1] == FORWARD_SLASH then EatSegments(ls[1..][1..]) else ls[1..]
  {
    assert ls[1..][1..] == ls[2..];
  }

  lemma EatSegmentsElse(ls: seq<Lexeme>)
    requires ls == [] || ls[0] != TOKEN
    ensures EatSegments(ls) == ls
  {
  }

  lemma NoSegment(rest: string)
    requires Lex(rest).0 != TOKEN
    ensures IsSegmentsText(rest) <==> rest == ""
  {
    hide Lex;
    assert rest + "" == rest;
    if rest != "" && IsToken(rest[..IndexOf(rest, '/')]) {
      SegmentIsLexed(rest, "");
    }
  }

  // ---------- Rules ----------

  /** A fixed text at the front, and what follows it. */
  lemma Behind(text: string, pos: nat)
    requires pos <= |text|
    ensures var ls, rest := Lexemes(text, pos), text[pos..];
            && (ls[0] == SEPARATOR <==> ":=" <= rest) && (":=" <= rest ==> ls[1..] == Lexemes(text, pos + 2))
            && (ls[0] == COLON <==> ":" <= rest && !(":=" <= rest)) && (ls[0] == COLON ==> ls[1..] == Lexemes(text, pos + 1))
            && (ls[0] == NODE <==> "__node" <= rest) && ("__node" <= rest ==> ls[1..] == Lexemes(text, pos + 6))
            && (ls[0] == NS <==> "__ns" <= rest) && ("__ns" <= rest ==> ls[1..] == Lexemes(text, pos + 4))
            && (ls[0] == URL_TOPIC <==> "rostopic://" <= rest)
            && ("rostopic://" <= rest ==> ls[1..] == Lexemes(text, pos + 11))
            && (ls[0] == URL_SERVICE <==> "rosservice://" <= rest)
            && ("rosservice://" <= rest ==> ls[1..] == Lexemes(text, pos + 13))
  {
    hide Lex, Lexemes;
    StreamHead(text, pos);
    PunctuationTexts(text[pos..]);
    WordTexts(text[pos..]);
  }

  lemma LastToken(text: string, pos: nat)
    requires pos <= |text|
    ensures Lexemes(text, pos) == [TOKEN, EOF] <==> IsToken(text[pos..])
  {
    hide Lex, Lexemes;
    var rest := text[pos..];
    StreamHead(text, pos);
    assert rest + "" == rest;
    if IsToken(rest) {
      TokenIsLexed(rest, "");
    }
    if Lex(rest).0 == TOKEN {
      LexedIsToken(rest);
      var n := Lex(rest).1;
      OnlyEnd(text, pos + n);
      assert n == |rest| ==> rest[..n] == rest;
      assert Lexemes(text, pos) == [TOKEN] + Lexemes(text, pos + n);
    }
  }

  /** A text that starts like this is no name, and so no rule for one. */
  lemma NoNameStart(s: string)
    requires "__" <= s || "=" <= s || "//" <= s
    ensures !IsNameRuleText(s)
  {
    PrefixChar("rostopic://", s, 0);
    PrefixChar("rosservice://", s, 0);
    PrefixChar("__", s, 0);
    PrefixChar("__", s, 1);
    PrefixChar("//", s, 0);
    PrefixChar("//", s, 1);
    PrefixChar("~/", s, 0);
    var k := IndexOf(s, ':');
    hide WithoutScheme;
    assert WithoutScheme(s) == s by { NoScheme(s); }
    NoNameFront(s[..k]);
  }

  lemma NoScheme(s: string)
    ensures !("rostopic://" <= s) && !("rosservice://" <= s) ==> WithoutScheme(s) == s
  {
  }

  lemma NoNameFront(b: string)
    requires b == "" || b[0] == '=' || (|b| >= 2 && ((b[0] == '_' && b[1] == '_') || (b[0] == '/' && b[1] == '/')))
    ensures !IsNameText(b)
  {
  }

  lemma JoinedPrefix(a: string, b: string, s: string)
    ensures a + b <= s <==> a <= s && b <= s[|a|..]
  {
    if a <= s && b <= s[|a|..] {
      assert s == a + s[|a|..];
      assert s[|a|..] == b + s[|a|..][|b|..];
      assert s == (a + b) + s[|a|..][|b|..];
    }
    if a + b <= s {
      assert s == (a + b) + s[|a| + |b|..];
      assert s == a + (b + s[|a| + |b|..]);
      assert s[|a|..] == b + s[|a| + |b|..];
    }
  }

  lemma NodeBodyIff(text: string, pos: nat)
    requires pos <= |text| && "__node" <= text[pos..]
    ensures AcceptsBody(Lexemes(text, pos)) <==> IsBodyText(text[pos..])
  {
    hide Lex, Lexemes, IsToken, IsNameRuleText, IsNamespaceText;
    var s, ls := text[pos..], Lexemes(text, pos);
    Behind(text, pos);
    Behind(text, pos + 6);
    assert text[pos + 6..] == s[6..];
    JoinedPrefix("__node", ":=", s);
    assert "__node" + ":=" == "__node:=";
    NoNameStart(s);
    PrefixChar("__ns:=", s, 3);
    PrefixChar("__node", s, 3);
    assert ls == [NODE] + ls[1..];
    if ":=" <= s[6..] {
      LastToken(text, pos + 8);
      assert text[pos + 8..] == s[8..];
      assert ls[1..] == [SEPARATOR] + ls[1..][1..];
    }
  }

  lemma NamespaceBodyIff(text: string, pos: nat)
    requires pos <= |text| && "__ns" <= text[pos..]
    ensures AcceptsBody(Lexemes(text, pos)) <==> IsBodyText(text[pos..])
  {
    hide Lex, Lexemes, IsToken, IsNameRuleText, IsSegmentsText, EatSegments;
    var s, ls := text[pos..], Lexemes(text, pos);
    Behind(text, pos);
    Behind(text, pos + 4);
    assert text[pos + 4..] == s[4..];
    JoinedPrefix("__ns", ":=", s);
    assert "__ns" + ":=" == "__ns:=";
    NoNameStart(s);
    PrefixChar("__node:=", s, 3);
    PrefixChar("__ns", s, 3);
    if ":=" <= s[4..] {
      AfterSegment(text, pos + 6);
      assert text[pos + 6..] == s[6..];
      assert ls[1..][1..] == ls[2..];
      if "/" <= s[6..] {
        SegmentsIff(text, pos + 7);
        assert text[pos + 7..] == s[6..][1..];
        assert ls[2..][1..] == ls[3..];
      }
    }
  }

  lemma NameBeforeSeparator(text: string, pos: nat)
    requires pos <= |text|
    ensures var ls, rest := Lexemes(text, pos), text[pos..];
            var k := IndexOf(rest, ':');
            && (EatName(ls, SEPARATOR).Some? <==> ":=" <= rest[k..] && IsNameText(rest[..k]))
            && (EatName(ls, SEPARATOR).Some? ==> EatName(ls, SEPARATOR) == Some(Lexemes(text, pos + k)))
  {
    hide Lexemes, IsNameText, EatName;
    NameIff(text, pos, SEPARATOR);
  }

  lemma NameToEnd(text: string, pos: nat)
    requires pos <= |text|
    ensures EatName(Lexemes(text, pos), EOF) == Some([EOF]) <==> IsNameText(text[pos..])
  {
    hide Lexemes, IsNameText, EatName;
    NameIff(text, pos, EOF);
    OnlyEnd(text, |text|);
    assert text[pos..][..|text[pos..]|] == text[pos..];
  }

  lemma PairIff(text: string, pos: nat)
    requires pos <= |text|
    ensures var m := EatName(Lexemes(text, pos), SEPARATOR);
            m.Some? && m.value != [] && EatName(m.value[1..], EOF) == Some([EOF]) <==> IsPairText(text[pos..])
  {
    hide Lex, Lexemes, IsNameText, EatName, IndexOf;
    var rest := text[pos..];
    var k := IndexOf(rest, ':');
    NameBeforeSeparator(text, pos);
    assert text[pos + k..] == rest[k..];
    if ":=" <= rest[k..] {
      Behind(text, pos + k);
      NameToEnd(text, pos + k + 2);
      assert text[pos + k + 2..] == rest[k + 2..];
    }
  }

  lemma NameRuleIff(text: string, pos: nat)
    requires pos <= |text|
    ensures AcceptsNameRule(Lexemes(text, pos)) <==> IsNameRuleText(text[pos..])
  {
    hide Lex, Lexemes, EatName, IsPairText;
    var s := text[pos..];
    Behind(text, pos);
    var u := if "rostopic://" <= s then 11 else if "rosservice://" <= s then 13 else 0;
    PrefixChar("rostopic://", s, 3);
    PrefixChar("rosservice://", s, 3);
    assert SkipScheme(Lexemes(text, pos)) == Lexemes(text, pos + u);
    assert text[pos + u..] == WithoutScheme(s);
    PairIff(text, pos + u);
  }

  lemma BodyIff(text: string, pos: nat)
    requires pos <= |text|
    ensures AcceptsBody(Lexemes(text, pos)) <==> IsBodyText(text[pos..])
  {
    hide Lex, Lexemes, IsNameRuleText, AcceptsNameRule;
    var s := text[pos..];
    Behind(text, pos);
    if "__node" <= s {
      NodeBodyIff(text, pos);
    } else if "__ns" <= s {
      NamespaceBodyIff(text, pos);
    } else {
      JoinedPrefix("__node", ":=", s);
      JoinedPrefix("__ns", ":=", s);
      assert "__node" + ":=" == "__node:=" && "__ns" + ":=" == "__ns:=";
      NameRuleIff(text, pos);
    }
  }

  lemma NoBodyStart(s: string)
    requires "=" <= s || "//" <= s
    ensures !IsBodyText(s)
  {
    NoNameStart(s);
    hide IsNameRuleText;
    PrefixChar("__node:=", s, 0);
    PrefixChar("__ns:=", s, 0);
  }

  /** A prefix is read exactly when it is there. */
  lemma PrefixIff(arg: string)
    ensures var ls := Lexemes(arg, 0);
            var k := IndexOf(arg, ':');
            if |ls| >= 2 && ls[0] == TOKEN && ls[1] == COLON
            then k < |arg| && IsToken(arg[..k]) && ls[2..] == Lexemes(arg, k + 1)
            else k < |arg| && IsToken(arg[..k]) ==> !IsBodyText(arg[k + 1..])
  {
    hide Lex, Lexemes, IsBodyText;
    var ls, k := Lexemes(arg, 0), IndexOf(arg, ':');
    StreamHead(arg, 0);
    assert arg[0..] == arg;
    if ls[0] == TOKEN {
      LexedIsToken(arg);
      var n := Lex(arg).1;
      Behind(arg, n);
      assert arg == arg[..n] + arg[n..];
      IndexOfBehind(arg[..n], arg[n..], ':');
      IndexOfIsZero(arg[n..], ':');
      assert ls[1] == COLON ==> k == n && ls[2..] == ls[1..][1..];
    }
    if k < |arg| && IsToken(arg[..k]) {
      PrefixedText(arg, k);
    }
  }

  lemma BehindColon(body: string)
    ensures "://" <= ":" + body <==> "//" <= body
    ensures ":=" <= ":" + body <==> "=" <= body
  {
    assert (":" + body)[1..] == body;
    JoinedPrefix(":", "//", ":" + body);
    JoinedPrefix(":", "=", ":" + body);
    assert ":" + "//" == "://" && ":" + "=" == ":=";
  }

  /** Behind a token and a colon there is no body unless the two are lexed as such. */
  lemma PrefixedText(arg: string, k: nat)
    requires k == IndexOf(arg, ':') && k < |arg| && IsToken(arg[..k])
    ensures IsBodyText(arg[k + 1..]) ==> Lex(arg) == (TOKEN, k) && ":" <= arg[k..] && !(":=" <= arg[k..])
  {
    hide Lex, IsBodyText, IndexOf, IsToken;
    var body := arg[k + 1..];
    assert arg[k..] == ":" + body;
    assert arg == arg[..k] + (":" + body);
    BehindColon(body);
    if "=" <= body || "//" <= body {
      NoBodyStart(body);
    } else {
      TokenThenColon(arg[..k], body);
    }
  }

  lemma TokenThenColon(t: string, body: string)
    requires IsToken(t) && !("//" <= body)
    ensures Lex(t + (":" + body)) == (TOKEN, |t|)
  {
    hide Lex, IsToken;
    BehindColon(body);
    TokenIsLexed(t, ":" + body);
  }

  /** The recogniser accepts exactly the rules over characters. */
  lemma RuleIff(arg: string)
    ensures IsRule(Lexemes(arg, 0)) <==> IsRuleText(arg)
  {
    hide Lex, Lexemes, IsBodyText, IsRule, AcceptsBody;
    var ls := Lexemes(arg, 0);
    RuleAccepted(ls);
    PrefixIff(arg);
    BodyIff(arg, 0);
    assert arg[0..] == arg;
    if |ls| >= 2 && ls[0] == TOKEN && ls[1] == COLON {
      BodyIff(arg, IndexOf(arg, ':') + 1);
      PrefixIsNoName(ls);
    }
  }

  lemma PrefixIsNoName(ls: seq<Lexeme>)
    requires |ls| >= 2 && ls[0] == TOKEN && ls[1] == COLON
    ensures !AcceptsBody(ls)
  {
    assert ls[1..][0] == COLON;
  }
}
