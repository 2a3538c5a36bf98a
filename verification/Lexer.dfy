/**
 The lexer of remap rules: the constant transition table, the loop that walks it (forwards and, on some
 else-transitions, backwards), and a specification of what it recognises.
 */
module Lexer {
  import opened Common

  datatype Lexeme =
    | NONE | EOF | TILDE_SLASH | URL_SERVICE | URL_TOPIC | COLON | NODE | NS | SEPARATOR
    | BR(n: nat) | TOKEN | FORWARD_SLASH | WILD_ONE | WILD_MULTI

  // ---------- The table ----------

  /** The ranges of one state, in order; the zero entry that ends the C array is `End`. */
  datatype Ranges = End | On(to: nat, lo: char, hi: char, more: Ranges)

  datatype Row = Row(elseState: nat, elseMovement: nat, ranges: Ranges)

  const LAST_STATE: nat := 30
  const FIRST_TERMINAL: nat := 31
  const T_TILDE_SLASH: nat := 31
  const T_URL_SERVICE: nat := 32
  const T_URL_TOPIC: nat := 33
  const T_COLON: nat := 34
  const T_NODE: nat := 35
  const T_NS: nat := 36
  const T_SEPARATOR: nat := 37
  const T_BR1: nat := 38
  const T_TOKEN: nat := 47
  const T_FORWARD_SLASH: nat := 48
  const T_WILD_ONE: nat := 49
  const T_WILD_MULTI: nat := 50
  const T_EOF: nat := 51
  const T_NONE: nat := 52
  const LAST_TERMINAL: nat := 52

  function One(to: nat, c: char, more: Ranges): Ranges {
    On(to, c, c, more)
  }

  function States(s: nat): Row
    requires s <= LAST_STATE
  {
    if s == 0 then
      Row(T_NONE, 0, One(T_FORWARD_SLASH, '/', One(1, '\\', One(2, '~', One(3, '_', On(8, 'a', 'q', On(8, 's', 'z',
        On(8, 'A', 'Z', One(10, 'r', One(29, '*', One(30, ':', End)))))))))))
    else if s == 1 then
      Row(T_NONE, 0, One(T_BR1, '1', One(T_BR1 + 1, '2', One(T_BR1 + 2, '3', One(T_BR1 + 3, '4', One(T_BR1 + 4, '5',
        One(T_BR1 + 5, '6', One(T_BR1 + 6, '7', One(T_BR1 + 7, '8', One(T_BR1 + 8, '9', End))))))))))
    else if s == 2 then Row(T_NONE, 0, One(T_TILDE_SLASH, '/', End))
    else if s == 3 then Row(9, 1, One(4, '_', End))
    else if s == 4 then Row(T_NONE, 0, One(5, 'n', End))
    else if s == 5 then Row(T_NONE, 0, One(T_NS, 's', One(6, 'o', End)))
    else if s == 6 then Row(T_NONE, 0, One(7, 'd', End))
    else if s == 7 then Row(T_NONE, 0, One(T_NODE, 'e', End))
    else if s == 8 then Row(T_TOKEN, 1, On(8, 'a', 'z', On(8, 'A', 'Z', On(8, '0', '9', One(9, '_', End)))))
    else if s == 9 then Row(T_TOKEN, 1, On(8, 'a', 'z', On(8, 'A', 'Z', On(8, '0', '9', End))))
    else if s == 10 then Row(8, 1, One(11, 'o', End))
    else if s == 11 then Row(8, 1, One(12, 's', End))
    else if s == 12 then Row(8, 1, One(13, 't', One(20, 's', End)))
    else if s == 13 then Row(8, 1, One(14, 'o', End))
    else if s == 14 then Row(8, 1, One(15, 'p', End))
    else if s == 15 then Row(8, 1, One(16, 'i', End))
    else if s == 16 then Row(8, 1, One(17, 'c', End))
    else if s == 17 then Row(8, 1, One(18, ':', End))
    else if s == 18 then Row(8, 2, One(19, '/', End))
    else if s == 19 then Row(8, 3, One(T_URL_TOPIC, '/', End))
    else if s == 20 then Row(8, 1, One(21, 'e', End))
    else if s == 21 then Row(8, 1, One(22, 'r', End))
    else if s == 22 then Row(8, 1, One(23, 'v', End))
    else if s == 23 then Row(8, 1, One(24, 'i', End))
    else if s == 24 then Row(8, 1, One(25, 'c', End))
    else if s == 25 then Row(8, 1, One(26, 'e', End))
    else if s == 26 then Row(8, 1, One(27, ':', End))
    else if s == 27 then Row(8, 2, One(28, '/', End))
    else if s == 28 then Row(8, 3, One(T_URL_SERVICE, '/', End))
    else if s == 29 then Row(T_WILD_ONE, 1, One(T_WILD_MULTI, '*', End))
    else Row(T_COLON, 1, One(T_SEPARATOR, '=', End))
  }

  function Terminals(s: nat): Lexeme
    requires FIRST_TERMINAL <= s <= LAST_TERMINAL
  {
    if s == T_TILDE_SLASH then TILDE_SLASH
    else if s == T_URL_SERVICE then URL_SERVICE
    else if s == T_URL_TOPIC then URL_TOPIC
    else if s == T_COLON then COLON
    else if s == T_NODE then NODE
    else if s == T_NS then NS
    else if s == T_SEPARATOR then SEPARATOR
    else if T_BR1 <= s < T_BR1 + 9 then BR(s - T_BR1 + 1)
    else if s == T_TOKEN then TOKEN
    else if s == T_FORWARD_SLASH then FORWARD_SLASH
    else if s == T_WILD_ONE then WILD_ONE
    else if s == T_WILD_MULTI then WILD_MULTI
    else if s == T_EOF then EOF
    else NONE
  }

  /** The state entered on `c`, or 0 when no range holds it. */
  function Find(r: Ranges, c: char): nat {
    match r
    case End => 0
    case On(to, lo, hi, more) => if lo <= c <= hi then to else Find(more, c)
  }

  // ---------- What the lexer is meant to recognise ----------

  predicate IsAlpha(c: char) { 'a' <= c <= 'z' || 'A' <= c <= 'Z' }
  predicate IsAlnum(c: char) { IsAlpha(c) || IsDigit(c) }

  /** A C string: the terminator is not part of the text. */
  predicate CString(s: string) {
    '\0' !in s
  }

  function CharAt(text: string, i: nat): char
    requires i <= |text|
  {
    if i < |text| then text[i] else '\0'
  }

  /** The documented expression of a token, `(([a-zA-Z](_)?)|_)([0-9a-zA-Z](_)?)*`. */
  predicate MatchesTail(s: string) {
    s == "" || (IsAlnum(s[0]) && (MatchesTail(s[1..]) || (|s| >= 2 && s[1] == '_' && MatchesTail(s[2..]))))
  }

  predicate MatchesToken(s: string) {
    s != "" && (
      (IsAlpha(s[0]) && (MatchesTail(s[1..]) || (|s| >= 2 && s[1] == '_' && MatchesTail(s[2..]))))
      || (s[0] == '_' && MatchesTail(s[1..])))
  }

  predicate IsWord(s: string) {
    && (forall i :: 0 <= i < |s| ==> IsAlnum(s[i]) || s[i] == '_')
    && (forall i :: 1 <= i < |s| ==> !(s[i - 1] == '_' && s[i] == '_'))
  }

  /** The same tokens without an expression: word characters, no digit first, no double underscore. */
  predicate IsToken(s: string) {
    s != "" && !IsDigit(s[0]) && IsWord(s)
  }

  /** How far a token can be extended from its first `n` characters. */
  function TokenEnd(text: string, n: nat): (r: nat)
    requires n <= |text|
    ensures n <= r <= |text|
    decreases |text| - n
  {
    if n < |text| && IsToken(text[..n + 1]) then TokenEnd(text, n + 1) else n
  }

  function CommonPrefix(a: string, b: string): (r: nat)
    ensures r <= |a| && r <= |b| && a[..r] == b[..r]
    ensures r < |a| && r < |b| ==> a[r] != b[r]
  {
    if a != "" && b != "" && a[0] == b[0] then 1 + CommonPrefix(a[1..], b[1..]) else 0
  }

  function Max(a: nat, b: nat): nat {
    if a < b then b else a
  }

  const TOPIC_URL: string := "rostopic://"
  const SERVICE_URL: string := "rosservice://"

  /** One more than the longest beginning of `text` that some lexeme still shares. */
  function NoneLength(text: string): nat {
    1 + Max(Max(CommonPrefix(text, "~"), CommonPrefix(text, "\\")),
            Max(CommonPrefix(text, "__ns"), CommonPrefix(text, "__node")))
  }

  /** The first lexeme of `text` and its length. */
  function Lex(text: string): (Lexeme, nat) {
    if text == "" then (EOF, 0)
    else if TOPIC_URL <= text then (URL_TOPIC, |TOPIC_URL|)
    else if SERVICE_URL <= text then (URL_SERVICE, |SERVICE_URL|)
    else if "__ns" <= text then (NS, 4)
    else if "__node" <= text then (NODE, 6)
    else if ":=" <= text then (SEPARATOR, 2)
    else if ":" <= text then (COLON, 1)
    else if "**" <= text then (WILD_MULTI, 2)
    else if "*" <= text then (WILD_ONE, 1)
    else if "/" <= text then (FORWARD_SLASH, 1)
    else if "~/" <= text then (TILDE_SLASH, 2)
    else if "\\" <= text && |text| > 1 && '1' <= text[1] <= '9' then (BR((text[1] - '0') as nat), 2)
    else if TokenEnd(text, 0) > 0 && !("__" <= text) then (TOKEN, TokenEnd(text, 0))
    else (NONE, NoneLength(text))
  }

  // ---------- The loop ----------

  predicate StartsWith(text: string, n: nat, w: string) {
    n <= |text| && n <= |w| && text[..n] == w[..n]
  }

  predicate NoUrl(text: string) {
    !(TOPIC_URL <= text) && !(SERVICE_URL <= text) && !("__" <= text)
  }

  /** What is known when the loop is in state `s` with the cursor at `n`. */
  predicate At(s: nat, n: nat, text: string) {
    && n <= |text|
    && (s == 0 ==> n == 0 && text != "")
    && (s == 1 ==> n == 1 && text[0] == '\\')
    && (s == 2 ==> n == 1 && text[0] == '~')
    && (3 <= s <= 7 ==> n == s - 2 && StartsWith(text, n, "__node"))
    && ((s == 8 || s == 9) ==> 1 <= n && IsToken(text[..n]) && NoUrl(text) && (text[n - 1] == '_' <==> s == 9))
    && (10 <= s <= 19 ==> n == s - 9 && StartsWith(text, n, TOPIC_URL))
    && (20 <= s <= 28 ==> n == s - 16 && StartsWith(text, n, SERVICE_URL))
    && (s == 29 ==> n == 1 && text[0] == '*')
    && (s == 30 ==> n == 1 && text[0] == ':')
  }

  /** Position and state together fall: a backward move leads into the token states, which only go forward. */
  function Rank(s: nat): nat {
    if s == 8 || s == 9 then 0 else 1
  }

  function Target(s: nat, c: char): (nat, nat)
    requires s <= LAST_STATE
  {
    var to := Find(States(s).ranges, c);
    if to != 0 then (to, 0) else (States(s).elseState, States(s).elseMovement)
  }

  function Moved(n: nat, movement: nat): int {
    if movement == 0 then n + 1 else n - (movement - 1)
  }

  /** One round of the loop is right: no wild move, and either a smaller open position or the specified answer. */
  ghost predicate Progress(s: nat, n: nat, text: string)
    requires s <= LAST_STATE && n <= |text|
  {
    var (s', movement) := Target(s, CharAt(text, n));
    var n' := Moved(n, movement);
    && n' >= 0 && s' <= LAST_TERMINAL
    && (s' < FIRST_TERMINAL ==>
          At(s', n', text) && (Rank(s') < Rank(s) || (Rank(s') == Rank(s) && n < n')))
    && (s' >= FIRST_TERMINAL ==> (Terminals(s'), n') == Lex(text))
  }

  lemma TokenPrefix(s: string, n: nat)
    requires IsToken(s) && 0 < n <= |s|
    ensures IsToken(s[..n])
  {
  }

  lemma {:induction false} TokenEndSkips(text: string, m: nat, n: nat)
    requires m <= n <= |text| && (n > 0 ==> IsToken(text[..n]))
    ensures TokenEnd(text, m) == TokenEnd(text, n)
    decreases n - m
  {
    if m < n {
      TokenPrefix(text[..n], m + 1);
      assert text[..n][..m + 1] == text[..m + 1];
      TokenEndSkips(text, m + 1, n);
    }
  }

  /** Four transition ranges, tried in order. */
  lemma Unfold4(r: Ranges, c: char)
    ensures r.On? ==> Find(r, c) == if r.lo <= c <= r.hi then r.to else Find(r.more, c)
    ensures r.On? && r.more.On? ==>
              Find(r.more, c) == if r.more.lo <= c <= r.more.hi then r.more.to else Find(r.more.more, c)
    ensures r.On? && r.more.On? && r.more.more.On? ==>
              Find(r.more.more, c)
              == if r.more.more.lo <= c <= r.more.more.hi then r.more.more.to else Find(r.more.more.more, c)
    ensures r.On? && r.more.On? && r.more.more.On? && r.more.more.more.On? ==>
              Find(r.more.more.more, c)
              == if r.more.more.more.lo <= c <= r.more.more.more.hi then r.more.more.more.to
                 else Find(r.more.more.more.more, c)
  {
  }

  lemma StartTarget(c: char)
    ensures var t := Target(0, c);
            t == if c == '/' then (T_FORWARD_SLASH, 0) else if c == '\\' then (1, 0) else if c == '~' then (2, 0)
                 else if c == '_' then (3, 0) else if c == 'r' then (10, 0) else if IsAlpha(c) then (8, 0)
                 else if c == '*' then (29, 0) else if c == ':' then (30, 0) else (T_NONE, 0)
  {
    var r := States(0).ranges;
    Unfold4(r, c);
    Unfold4(r.more.more.more.more, c);
    Unfold4(r.more.more.more.more.more.more.more.more, c);
  }

  lemma BackReferenceTarget(c: char)
    ensures Target(1, c) == if '1' <= c <= '9' then (T_BR1 + (c - '1') as nat, 0) else (T_NONE, 0)
  {
    var r := States(1).ranges;
    Unfold4(r, c);
    Unfold4(r.more.more.more.more, c);
    Unfold4(r.more.more.more.more.more.more.more.more, c);
  }

  lemma TokenTarget(c: char)
    ensures Target(8, c) == if IsAlnum(c) then (8, 0) else if c == '_' then (9, 0) else (T_TOKEN, 1)
    ensures Target(9, c) == if IsAlnum(c) then (8, 0) else (T_TOKEN, 1)
  {
    Unfold4(States(8).ranges, c);
    Unfold4(States(9).ranges, c);
  }

  lemma GoStart(text: string, n: nat)
    requires CString(text) && At(0, n, text)
    ensures Progress(0, n, text)
  {
    var c := text[0];
    StartTarget(c);
    if IsAlpha(c) && c != 'r' {
      assert IsToken(text[..1]);
    }
    if !(c in "/\\~_*:") && !IsAlpha(c) {
      assert text[..1][0] == c;
      assert TokenEnd(text, 0) == 0;
      assert NoneLength(text) == 1;
    }
  }

  lemma GoPrivate(s: nat, text: string, n: nat)
    requires CString(text) && 1 <= s <= 2 && At(s, n, text)
    ensures Progress(s, n, text)
  {
    BackReferenceTarget(CharAt(text, 1));
    assert text[..1][0] == text[0];
    assert TokenEnd(text, 0) == 0;
    assert NoneLength(text) == 2;
  }

  /** A text that leaves `__node` after the underscores, other than as `__ns`, is no lexeme. */
  lemma UnderscoreFails(text: string, n: nat)
    requires 2 <= n <= 5 && StartsWith(text, n, "__node")
    requires CharAt(text, n) != "__node"[n] && !(n == 3 && CharAt(text, n) == 's')
    ensures Lex(text) == (NONE, n + 1)
  {
    hide TokenEnd, CommonPrefix;
    assert forall i :: 0 <= i < n ==> text[i] == text[..n][i] == "__node"[i];
    PrefixChar("__ns", text, if n < 4 then n else 3);
    PrefixChar("__node", text, n);
    PrefixChar(TOPIC_URL, text, 0);
    PrefixChar(SERVICE_URL, text, 0);
    assert "__" <= text;
    CommonPrefixStops(text, "~", 0);
    CommonPrefixStops(text, "\\", 0);
    CommonPrefixStops(text, "__node", n);
    CommonPrefixReaches(text, "__node", n);
    CommonPrefixStops(text, "__ns", if n < 4 then n else 3);
  }

  lemma {:induction false} CommonPrefixStops(a: string, b: string, n: nat)
    requires n < |b| && (n < |a| ==> a[n] != b[n])
    ensures CommonPrefix(a, b) <= n
    decreases n
  {
    if n > 0 && a != "" && a[0] == b[0] {
      CommonPrefixStops(a[1..], b[1..], n - 1);
    }
  }

  lemma {:induction false} CommonPrefixReaches(a: string, b: string, n: nat)
    requires n <= |a| && n <= |b| && a[..n] == b[..n]
    ensures n <= CommonPrefix(a, b)
    decreases n
  {
    if n > 0 {
      assert a[0] == a[..n][0] == b[0];
      assert a[1..][..n - 1] == a[..n][1..] && b[1..][..n - 1] == b[..n][1..];
      CommonPrefixReaches(a[1..], b[1..], n - 1);
    }
  }

  lemma GoUnderscore(s: nat, text: string, n: nat)
    requires CString(text) && 3 <= s <= 7 && At(s, n, text)
    ensures Progress(s, n, text)
  {
    hide NoneLength, TokenEnd;
    var c := CharAt(text, n);
    Unfold4(States(s).ranges, c);
    if n < |text| {
      assert text[..n + 1] == text[..n] + [c];
    }
    if s == 3 {
      assert text[..1] == "_" && IsToken("_");
    } else if c != "__node"[n] && !(s == 5 && c == 's') {
      UnderscoreFails(text, n);
    } else if s == 5 && c == 's' {
      assert text[..4] == "__ns";
    } else if s == 7 {
      assert text[..6] == "__node";
      assert text[3] == 'o';
    }
  }

  lemma TokenGrows(text: string, n: nat)
    requires 1 <= n < |text| && IsToken(text[..n])
    ensures IsToken(text[..n + 1]) <==> IsAlnum(text[n]) || (text[n] == '_' && text[n - 1] != '_')
  {
    var t, u := text[..n], text[..n + 1];
    assert forall i :: 0 <= i < n ==> u[i] == t[i];
    assert u[n] == text[n] && u[n - 1] == text[n - 1];
  }

  lemma TokenStops(text: string, n: nat)
    requires 1 <= n <= |text| && IsToken(text[..n]) && NoUrl(text) && (n < |text| ==> !IsToken(text[..n + 1]))
    ensures Lex(text) == (TOKEN, n)
  {
    hide NoneLength;
    assert text[..n][0] == text[0];
    TokenEndSkips(text, 0, n);
    assert TokenEnd(text, 0) == n;
    hide TokenEnd, IsWord;
    PrefixChar("__ns", text, 0);
    PrefixChar("__node", text, 0);
  }

  lemma GoToken(s: nat, text: string, n: nat)
    requires CString(text) && 8 <= s <= 9 && At(s, n, text)
    ensures Progress(s, n, text)
  {
    hide NoneLength, States, Find, Lex, IsToken, TokenEnd;
    TokenTarget(CharAt(text, n));
    if n < |text| {
      TokenGrows(text, n);
      if !IsToken(text[..n + 1]) {
        TokenStops(text, n);
      }
    } else {
      TokenStops(text, n);
    }
  }

  lemma TopicTarget(s: nat, c: char)
    requires 10 <= s <= 19
    ensures Target(s, c) ==
      if c == TOPIC_URL[s - 9] then (if s == 19 then T_URL_TOPIC else s + 1, 0)
      else if s == 12 && c == 's' then (20, 0)
      else (8, if s <= 17 then 1 else s - 16)
  {
    Unfold4(States(s).ranges, c);
  }

  lemma ServiceTarget(s: nat, c: char)
    requires 20 <= s <= 28
    ensures Target(s, c) ==
      if c == SERVICE_URL[s - 16] then (if s == 28 then T_URL_SERVICE else s + 1, 0)
      else (8, if s <= 26 then 1 else s - 25)
  {
    Unfold4(States(s).ranges, c);
  }

  /** Giving up on a scheme falls back to the token that its letters form. */
  lemma FallBack(text: string, n: nat, m: nat, url: string)
    requires url == TOPIC_URL || url == SERVICE_URL
    requires 1 <= m <= n < |url| && StartsWith(text, n, url) && m <= (if url == TOPIC_URL then 8 else 10)
    requires CharAt(text, n) != url[n]
    requires url == TOPIC_URL && n == 3 ==> CharAt(text, n) != 's'
    requires url == SERVICE_URL ==> n >= 4
    ensures At(8, m, text)
  {
    assert forall i :: 0 <= i < n ==> text[i] == text[..n][i] == url[i];
    assert IsWord(url[..m]);
    assert text[..m] == url[..m];
    if url == TOPIC_URL {
      PrefixChar(TOPIC_URL, text, n);
      PrefixChar(SERVICE_URL, text, n);
    } else {
      PrefixChar(SERVICE_URL, text, n);
    }
    PrefixChar(TOPIC_URL, text, 3);
    PrefixChar(SERVICE_URL, text, 3);
  }

  lemma GoTopic(s: nat, text: string, n: nat)
    requires CString(text) && 10 <= s <= 19 && At(s, n, text)
    ensures Progress(s, n, text)
  {
    hide NoneLength, TokenEnd, States, Find;
    var c := CharAt(text, n);
    TopicTarget(s, c);
    if n < |text| {
      assert text[..n + 1] == text[..n] + [c];
    }
    if c == TOPIC_URL[n] || (s == 12 && c == 's') {
    } else {
      FallBack(text, n, if n <= 8 then n else 8, TOPIC_URL);
    }
  }

  lemma GoService(s: nat, text: string, n: nat)
    requires CString(text) && 20 <= s <= 28 && At(s, n, text)
    ensures Progress(s, n, text)
  {
    hide NoneLength, TokenEnd, States, Find;
    var c := CharAt(text, n);
    ServiceTarget(s, c);
    if n < |text| {
      assert text[..n + 1] == text[..n] + [c];
    }
    if c == SERVICE_URL[n] {
      if s == 28 {
        assert text[3] == text[..n][3] == 's';
      }
    } else {
      FallBack(text, n, if n <= 10 then n else 10, SERVICE_URL);
    }
  }

  lemma GoPunctuation(s: nat, text: string, n: nat)
    requires CString(text) && 29 <= s <= 30 && At(s, n, text)
    ensures Progress(s, n, text)
  {
    Unfold4(States(s).ranges, CharAt(text, 1));
  }

  lemma Go(s: nat, text: string, n: nat)
    requires CString(text) && s <= LAST_STATE && At(s, n, text)
    ensures Progress(s, n, text)
  {
    if s == 0 { GoStart(text, n); }
    else if s <= 2 { GoPrivate(s, text, n); }
    else if s <= 7 { GoUnderscore(s, text, n); }
    else if s <= 9 { GoToken(s, text, n); }
    else if s <= 19 { GoTopic(s, text, n); }
    else if s <= 28 { GoService(s, text, n); }
    else { GoPunctuation(s, text, n); }
  }

  /**
   The lexer itself. `internalBug` stands for the three returns of the original that report an internal
   bug; they are never taken, every character it looks at lies in the text or is its terminator, and
   the answer is the specified one.
   */
  method Analyze(text: string) returns (internalBug: bool, lexeme: Lexeme, length: nat)
    requires CString(text)
    ensures !internalBug && (lexeme, length) == Lex(text)
  {
    hide States, Terminals, TokenEnd, NoneLength;
    internalBug, length := false, 0;
    if text == "" {
      return false, EOF, 0;
    }
    hide Lex;
    var nextState: nat := 0;
    while nextState < FIRST_TERMINAL
      invariant nextState <= LAST_STATE || FIRST_TERMINAL <= nextState <= LAST_TERMINAL
      invariant nextState <= LAST_STATE ==> At(nextState, length, text)
      invariant nextState >= FIRST_TERMINAL ==> (Terminals(nextState), length) == Lex(text)
      decreases if nextState < FIRST_TERMINAL then 1 else 0, Rank(nextState), |text| - length
    {
      Go(nextState, text, length);
      ghost var s := nextState;
      var row := States(nextState);
      var currentChar := CharAt(text, length);
      nextState := 0;
      var movement: nat := 0;
      var transition := row.ranges;
      while transition.On?
        invariant nextState == 0
        invariant Find(transition, currentChar) == Find(row.ranges, currentChar)
        decreases transition
      {
        if transition.lo <= currentChar <= transition.hi {
          nextState := transition.to;
          break;
        }
        transition := transition.more;
      }
      assert nextState == Find(row.ranges, currentChar);
      if nextState == 0 {
        nextState := row.elseState;
        movement := row.elseMovement;
      }
      if movement == 0 {
        length := length + 1;
      } else {
        if movement - 1 > length {
          return true, NONE, length;
        }
        length := length - (movement - 1);
      }
    }
    lexeme := Terminals(nextState);
  }

  // ---------- The token expression ----------

  lemma {:induction false} TailIsWord(s: string)
    ensures MatchesTail(s) <==> IsWord(s) && (s != "" ==> s[0] != '_')
    decreases s
  {
    if s != "" {
      TailIsWord(s[1..]);
      assert forall i :: 1 <= i < |s| ==> s[i] == s[1..][i - 1];
      if |s| >= 2 {
        TailIsWord(s[2..]);
        assert forall i :: 2 <= i < |s| ==> s[i] == s[2..][i - 2];
      }
    }
  }

  /** The two descriptions of a token agree; no token begins with two underscores. */
  lemma TokenExpression(s: string)
    ensures MatchesToken(s) <==> IsToken(s)
  {
    if s != "" {
      TailIsWord(s[1..]);
      assert forall i :: 1 <= i < |s| ==> s[i] == s[1..][i - 1];
      if |s| >= 2 {
        TailIsWord(s[2..]);
        assert forall i :: 2 <= i < |s| ==> s[i] == s[2..][i - 2];
      }
    }
  }

  lemma {:induction false} TokenEndIsLongest(text: string, n: nat)
    requires n <= |text| && (n > 0 ==> IsToken(text[..n]))
    ensures TokenEnd(text, n) > 0 ==> IsToken(text[..TokenEnd(text, n)])
    ensures forall k :: TokenEnd(text, n) < k <= |text| ==> !IsToken(text[..k])
    decreases |text| - n
  {
    if n < |text| && IsToken(text[..n + 1]) {
      TokenEndIsLongest(text, n + 1);
    } else {
      forall k | n < k <= |text| ensures !IsToken(text[..k]) {
        if IsToken(text[..k]) {
          assert text[..k][..n + 1] == text[..n + 1];
          TokenPrefix(text[..k], n + 1);
        }
      }
    }
  }

  /** A TOKEN is the longest beginning of the text that matches the documented expression. */
  lemma TokenIsLongestMatch(text: string)
    requires Lex(text).0 == TOKEN
    ensures MatchesToken(text[..Lex(text).1])
    ensures forall k :: Lex(text).1 < k <= |text| ==> !MatchesToken(text[..k])
  {
    TokenEndIsLongest(text, 0);
    TokenExpression(text[..Lex(text).1]);
    forall k | Lex(text).1 < k <= |text| ensures !MatchesToken(text[..k]) {
      TokenExpression(text[..k]);
    }
  }

  /** A lexeme is never empty but at the end, and only a failed one may include the terminator. */
  lemma LexLength(text: string)
    ensures Lex(text).0 == EOF <==> text == ""
    ensures text != "" ==> 1 <= Lex(text).1
    ensures Lex(text).0 != NONE ==> Lex(text).1 <= |text|
    ensures Lex(text).1 <= |text| + 1
  {
  }

  /** The texts whose first lexeme fails on the terminator. */
  predicate FailsOnTerminator(text: string) {
    text == "~" || text == "\\" || text == "__" || text == "__n" || text == "__no" || text == "__nod"
  }

  lemma BeginningOf(text: string, w: string)
    requires text != "" && CommonPrefix(text, w) == |text|
    ensures |text| <= |w| && text == w[..|text|]
  {
    assert text[..|text|] == text;
  }

  lemma UnderscoreIsToken()
    ensures Lex("_") == (TOKEN, 1)
  {
    assert IsToken("_"[..1]) && TokenEnd("_", 1) == 1;
  }

  lemma FailingTextsAreBeginnings(text: string)
    requires Lex(text).1 == |text| + 1
    ensures FailsOnTerminator(text)
  {
    assert text != "" && Lex(text) == (NONE, NoneLength(text));
    hide CommonPrefix;
    if CommonPrefix(text, "~") == |text| {
      BeginningOf(text, "~");
    } else if CommonPrefix(text, "\\") == |text| {
      BeginningOf(text, "\\");
    } else {
      var w := if CommonPrefix(text, "__ns") == |text| then "__ns" else "__node";
      BeginningOf(text, w);
      UnderscoreIsToken();
      assert |text| == 1 ==> text == "_";
    }
  }

  lemma TerminatorFails(text: string)
    requires FailsOnTerminator(text)
    ensures Lex(text) == (NONE, |text| + 1)
  {
    if |text| == 1 {
      assert !IsToken(text[..1]);
      CommonPrefixReaches(text, text, 1);
    } else {
      UnderscoreFails(text, |text|);
    }
  }

  /** A failed lexeme includes the terminator for exactly six texts. */
  lemma OverrunsExactly(text: string)
    ensures Lex(text).1 == |text| + 1 <==> FailsOnTerminator(text)
  {
    hide Lex;
    if Lex(text).1 == |text| + 1 {
      FailingTextsAreBeginnings(text);
    }
    if FailsOnTerminator(text) {
      TerminatorFails(text);
    }
  }

  // ---------- The text of every kind of lexeme ----------

  lemma PunctuationTexts(text: string)
    ensures Lex(text).0 == FORWARD_SLASH <==> "/" <= text
    ensures Lex(text).0 == TILDE_SLASH <==> "~/" <= text
    ensures Lex(text).0 == SEPARATOR <==> ":=" <= text
    ensures Lex(text).0 == COLON <==> ":" <= text && !(":=" <= text)
    ensures Lex(text).0 == WILD_MULTI <==> "**" <= text
    ensures Lex(text).0 == WILD_ONE <==> "*" <= text && !("**" <= text)
    ensures Lex(text).0 in {FORWARD_SLASH, COLON, WILD_ONE} ==> Lex(text).1 == 1
    ensures Lex(text).0 in {TILDE_SLASH, SEPARATOR, WILD_MULTI} ==> Lex(text).1 == 2
    ensures forall n: nat :: Lex(text).0 == BR(n) <==>
              1 <= n <= 9 && |text| >= 2 && text[0] == '\\' && text[1] == '0' + n as char
    ensures Lex(text).0.BR? ==> Lex(text).1 == 2
  {
    hide TokenEnd, NoneLength;
    if text != "" {
      PrefixChar(TOPIC_URL, text, 0);
      PrefixChar(SERVICE_URL, text, 0);
      PrefixChar("__ns", text, 0);
      PrefixChar("__node", text, 0);
      NotATokenStart(text);
    }
  }

  /** Whatever can be extended to a token starts like one. */
  lemma NotATokenStart(text: string)
    requires text != ""
    ensures TokenEnd(text, 0) > 0 <==> IsAlpha(text[0]) || text[0] == '_'
  {
  }

  lemma WordTexts(text: string)
    ensures Lex(text).0 == URL_TOPIC <==> "rostopic://" <= text
    ensures Lex(text).0 == URL_SERVICE <==> "rosservice://" <= text
    ensures Lex(text).0 == NS <==> "__ns" <= text
    ensures Lex(text).0 == NODE <==> "__node" <= text
    ensures Lex(text).0 == URL_TOPIC ==> Lex(text).1 == 11
    ensures Lex(text).0 == URL_SERVICE ==> Lex(text).1 == 13
    ensures Lex(text).0 == NS ==> Lex(text).1 == 4
    ensures Lex(text).0 == NODE ==> Lex(text).1 == 6
    ensures Lex(text).0 == TOKEN <==>
              && text != "" && (IsAlpha(text[0]) || text[0] == '_')
              && !("rostopic://" <= text) && !("rosservice://" <= text) && !("__" <= text)
  {
    hide TokenEnd, NoneLength;
    if text != "" {
      NotATokenStart(text);
      PrefixChar("rostopic://", text, 3);
      PrefixChar("rosservice://", text, 3);
      PrefixChar("rostopic://", text, 0);
      PrefixChar("rosservice://", text, 0);
      PrefixChar("__ns", text, 0);
      PrefixChar("__node", text, 0);
      PrefixChar("__ns", text, 3);
      PrefixChar("__node", text, 3);
      PrefixChar("__ns", text, 1);
      PrefixChar("__node", text, 1);
    }
  }
}
