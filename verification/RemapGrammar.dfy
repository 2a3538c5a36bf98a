/**
 The grammar of remap rules over lexemes, the recogniser that the recursive-descent parser follows, and the
 rule that an argument stands for.
 */
module RemapGrammar {
  import opened Common
  import opened Lexer

  // ---------- The grammar ----------

  /** TOKEN (/ TOKEN)* */
  predicate IsPath(ls: seq<Lexeme>) {
    |ls| % 2 == 1 && forall i :: 0 <= i < |ls| ==> ls[i] == if i % 2 == 0 then TOKEN else FORWARD_SLASH
  }

  /** A path, possibly absolute or private. */
  predicate IsName(ls: seq<Lexeme>) {
    IsPath(ls) || (ls != [] && (ls[0] == FORWARD_SLASH || ls[0] == TILDE_SLASH) && IsPath(ls[1..]))
  }

  /** / (TOKEN /)* TOKEN? : alternating from a slash, of any length. */
  predicate IsNamespace(ls: seq<Lexeme>) {
    ls != [] && forall i :: 0 <= i < |ls| ==> ls[i] == if i % 2 == 0 then FORWARD_SLASH else TOKEN
  }

  /** A scheme (`u` is 1) or none (`u` is 0), a name, the separator at `k`, and a name. */
  predicate IsNameRuleAt(ls: seq<Lexeme>, u: nat, k: nat) {
    && u <= k < |ls| && u <= 1 && (u == 1 ==> ls[0] == URL_TOPIC || ls[0] == URL_SERVICE)
    && IsName(ls[u..k]) && ls[k] == SEPARATOR && IsName(ls[k + 1..])
  }

  ghost predicate IsNameRule(ls: seq<Lexeme>) {
    exists u: nat, k: nat :: IsNameRuleAt(ls, u, k)
  }

  ghost predicate IsBody(ls: seq<Lexeme>) {
    || ls == [NODE, SEPARATOR, TOKEN]
    || (|ls| >= 2 && ls[..2] == [NS, SEPARATOR] && IsNamespace(ls[2..]))
    || IsNameRule(ls)
  }

  /** An optional `token:`, a body, the end. */
  ghost predicate IsRule(ls: seq<Lexeme>) {
    && ls != [] && ls[|ls| - 1] == EOF
    && (IsBody(ls[..|ls| - 1]) || (|ls| >= 3 && ls[..2] == [TOKEN, COLON] && IsBody(ls[2..|ls| - 1])))
  }

  // ---------- The recogniser ----------

  /** (/ TOKEN)*, up to a lexeme of type `stop`. */
  function EatMore(ls: seq<Lexeme>, stop: Lexeme): Option<seq<Lexeme>> {
    if ls == [] then None
    else if ls[0] == stop then Some(ls)
    else if |ls| >= 2 && ls[0] == FORWARD_SLASH && ls[1] == TOKEN then EatMore(ls[2..], stop)
    else None
  }

  function SkipRoot(ls: seq<Lexeme>): seq<Lexeme> {
    if ls != [] && (ls[0] == TILDE_SLASH || ls[0] == FORWARD_SLASH) then ls[1..] else ls
  }

  function EatName(ls: seq<Lexeme>, stop: Lexeme): Option<seq<Lexeme>> {
    var path := SkipRoot(ls);
    if path != [] && path[0] == TOKEN then EatMore(path[1..], stop) else None
  }

  /** (TOKEN /)* TOKEN?, as much as there is. */
  function EatSegments(ls: seq<Lexeme>): seq<Lexeme> {
    if ls == [] || ls[0] != TOKEN then ls
    else if |ls| >= 2 && ls[1] == FORWARD_SLASH then EatSegments(ls[2..])
    else ls[1..]
  }

  function SkipScheme(ls: seq<Lexeme>): seq<Lexeme> {
    if ls != [] && (ls[0] == URL_TOPIC || ls[0] == URL_SERVICE) then ls[1..] else ls
  }

  function AcceptsNameRule(ls: seq<Lexeme>): bool {
    var m := EatName(SkipScheme(ls), SEPARATOR);
    m.Some? && m.value != [] && EatName(m.value[1..], EOF) == Some([EOF])
  }

  function AcceptsBody(ls: seq<Lexeme>): bool {
    if ls != [] && ls[0] == NODE then ls == [NODE, SEPARATOR, TOKEN, EOF]
    else if ls != [] && ls[0] == NS then
      |ls| >= 3 && ls[1] == SEPARATOR && ls[2] == FORWARD_SLASH && EatSegments(ls[3..]) == [EOF]
    else AcceptsNameRule(ls)
  }

  function SkipPrefix(ls: seq<Lexeme>): seq<Lexeme> {
    if |ls| >= 2 && ls[0] == TOKEN && ls[1] == COLON then ls[2..] else ls
  }

  function AcceptsRule(ls: seq<Lexeme>): bool {
    AcceptsBody(SkipPrefix(ls))
  }

  // ---------- The recogniser decides the grammar ----------

  /** The first `k` lexemes of `ls` are (/ TOKEN)*. */
  predicate MoreUpTo(ls: seq<Lexeme>, k: nat) {
    k <= |ls| && k % 2 == 0 && forall i :: 0 <= i < k ==> ls[i] == if i % 2 == 0 then FORWARD_SLASH else TOKEN
  }

  lemma {:induction false} EatMoreFinds(ls: seq<Lexeme>, k: nat, stop: Lexeme)
    requires (stop == SEPARATOR || stop == EOF) && k < |ls| && MoreUpTo(ls, k) && ls[k] == stop
    ensures EatMore(ls, stop) == Some(ls[k..])
    decreases k
  {
    if k > 0 {
      assert ls[0] == FORWARD_SLASH && ls[1] == TOKEN;
      assert forall i :: 0 <= i < k - 2 ==> ls[2..][i] == ls[i + 2];
      EatMoreFinds(ls[2..], k - 2, stop);
      assert ls[2..][k - 2..] == ls[k..];
    }
  }

  lemma {:induction false} EatMoreSound(ls: seq<Lexeme>, stop: Lexeme) returns (k: nat)
    requires EatMore(ls, stop).Some?
    ensures k < |ls| && MoreUpTo(ls, k) && ls[k] == stop && EatMore(ls, stop) == Some(ls[k..])
    decreases ls
  {
    if ls[0] == stop {
      k := 0;
    } else {
      var j := EatMoreSound(ls[2..], stop);
      k := j + 2;
      assert forall i :: 2 <= i < k ==> ls[i] == ls[2..][i - 2];
      assert ls[2..][j..] == ls[k..];
    }
  }

  lemma PathIsMore(ls: seq<Lexeme>, k: nat)
    requires k < |ls|
    ensures IsPath(ls[..k + 1]) <==> ls[0] == TOKEN && MoreUpTo(ls[1..], k)
  {
    assert forall i :: 0 <= i < k + 1 ==> ls[..k + 1][i] == ls[i];
    assert forall i :: 0 <= i < k ==> ls[1..][i] == ls[i + 1];
  }

  /** A name is recognised exactly when one stands before the first lexeme of type `stop`. */
  lemma EatNameFinds(ls: seq<Lexeme>, k: nat, stop: Lexeme)
    requires (stop == SEPARATOR || stop == EOF) && k < |ls| && IsName(ls[..k]) && ls[k] == stop
    ensures EatName(ls, stop) == Some(ls[k..])
  {
    if IsPath(ls[..k]) {
      assert ls[0] == ls[..k][0] == TOKEN;
      PathIsMore(ls, k - 1);
      EatMoreFinds(ls[1..], k - 1, stop);
      assert ls[1..][k - 1..] == ls[k..];
    } else {
      var path := ls[1..];
      assert ls[..k][1..] == path[..k - 1] && ls[..k][0] == ls[0];
      assert path[0] == path[..k - 1][0] == TOKEN;
      PathIsMore(path, k - 2);
      EatMoreFinds(path[1..], k - 2, stop);
      assert path[1..][k - 2..] == ls[k..];
    }
  }

  lemma EatNameSound(ls: seq<Lexeme>, stop: Lexeme) returns (k: nat)
    requires EatName(ls, stop).Some?
    ensures k < |ls| && IsName(ls[..k]) && ls[k] == stop && EatName(ls, stop) == Some(ls[k..])
  {
    var path := SkipRoot(ls);
    var j := EatMoreSound(path[1..], stop);
    PathIsMore(path, j);
    assert path[1..][j..] == path[j + 1..] && path[1..][j] == path[j + 1];
    if path == ls {
      k := j + 1;
    } else {
      k := j + 2;
      assert ls[..k][1..] == path[..j + 1];
      assert path[j + 1..] == ls[k..];
    }
  }

  /** What is left of a recognised name begins with the lexeme it was to stop at. */
  lemma EatNameStops(ls: seq<Lexeme>, stop: Lexeme)
    requires EatName(ls, stop).Some?
    ensures EatName(ls, stop).value != [] && EatName(ls, stop).value[0] == stop
  {
    hide IsName;
    var k := EatNameSound(ls, stop);
  }

  lemma {:induction false} SegmentsFind(ls: seq<Lexeme>)
    ensures EatSegments(ls) == [EOF]
       <==> ls != [] && ls[|ls| - 1] == EOF
            && forall i :: 0 <= i < |ls| - 1 ==> ls[i] == if i % 2 == 0 then TOKEN else FORWARD_SLASH
    decreases ls
  {
    if |ls| >= 2 && ls[0] == TOKEN && ls[1] == FORWARD_SLASH {
      SegmentsFind(ls[2..]);
      assert forall i :: 2 <= i < |ls| ==> ls[i] == ls[2..][i - 2];
    } else if ls != [] && ls[0] == TOKEN {
      assert ls[1..] == [EOF] <==> |ls| == 2 && ls[1] == EOF;
    }
  }

  lemma NameRuleSound(body: seq<Lexeme>)
    requires AcceptsNameRule(body + [EOF])
    ensures IsNameRule(body)
  {
    hide EatName, IsName;
    var ls := body + [EOF];
    var rest := SkipScheme(ls);
    var u := |ls| - |rest|;
    var k := EatNameSound(rest, SEPARATOR);
    var repl := rest[k..][1..];
    var j := EatNameSound(repl, EOF);
    assert |repl[j..]| == 1;
    assert rest[..k] == body[u..u + k];
    assert repl[..j] == body[u + k + 1..];
    assert rest[k] == ls[u + k];
    assert IsNameRuleAt(body, u, u + k);
  }

  lemma NameRuleComplete(body: seq<Lexeme>, u: nat, k: nat)
    requires IsNameRuleAt(body, u, k)
    ensures AcceptsNameRule(body + [EOF]) && body != [] && body[0] != NODE && body[0] != NS
    ensures |body| >= 2 ==> !(body[0] == TOKEN && body[1] == COLON)
  {
    hide EatName, IsName;
    var ls := body + [EOF];
    var rest := ls[u..];
    NameRuleStarts(body, u, k);
    assert rest[..k - u] == body[u..k];
    EatNameFinds(rest, k - u, SEPARATOR);
    var repl := body[k + 1..] + [EOF];
    assert rest[k - u..][1..] == repl;
    EatNameBeforeEnd(body[k + 1..]);
  }

  lemma NameRuleStarts(body: seq<Lexeme>, u: nat, k: nat)
    requires IsNameRuleAt(body, u, k)
    ensures body[0] != NODE && body[0] != NS && (|body| >= 2 ==> !(body[0] == TOKEN && body[1] == COLON))
    ensures SkipScheme(body + [EOF]) == (body + [EOF])[u..]
  {
    hide EatName, IsName;
    NameStarts(body[u..k]);
    assert body[u..k][0] == body[u];
    if u == 0 && k > 1 {
      assert body[1] == body[u..k][1];
    }
    assert (body + [EOF])[0] == body[0];
  }

  lemma EatNameBeforeEnd(name: seq<Lexeme>)
    requires IsName(name)
    ensures EatName(name + [EOF], EOF) == Some([EOF])
  {
    hide EatName, IsName;
    var ls := name + [EOF];
    assert ls[..|name|] == name && ls[|name|..] == [EOF];
    EatNameFinds(ls, |name|, EOF);
  }

  lemma NameStarts(ls: seq<Lexeme>)
    requires IsName(ls)
    ensures ls != [] && (ls[0] == TOKEN || ls[0] == FORWARD_SLASH || ls[0] == TILDE_SLASH)
    ensures |ls| > 1 ==> ls[1] == TOKEN || ls[1] == FORWARD_SLASH
  {
    if !IsPath(ls) {
      assert ls[1] == ls[1..][0];
    }
  }

  lemma NamespaceAccepted(ns: seq<Lexeme>)
    ensures ns != [] && ns[0] == FORWARD_SLASH && EatSegments((ns + [EOF])[1..]) == [EOF] <==> IsNamespace(ns)
  {
    if ns != [] {
      var ls := (ns + [EOF])[1..];
      SegmentsFind(ls);
      assert forall i :: 0 <= i < |ns| - 1 ==> ls[i] == ns[i + 1];
      assert forall i :: 1 <= i < |ns| ==> ns[i] == ls[i - 1];
    }
  }

  lemma NameBodyAccepted(body: seq<Lexeme>)
    ensures AcceptsNameRule(body + [EOF]) <==> IsNameRule(body)
    ensures IsNameRule(body) ==> body != [] && body[0] != NODE && body[0] != NS
  {
    hide AcceptsNameRule, IsNameRuleAt;
    if IsNameRule(body) {
      var u: nat, k: nat :| IsNameRuleAt(body, u, k);
      NameRuleComplete(body, u, k);
    }
    if AcceptsNameRule(body + [EOF]) {
      NameRuleSound(body);
    }
  }

  lemma NamespaceBodyAccepted(body: seq<Lexeme>)
    ensures var ls := body + [EOF];
            (ls[0] == NS && |ls| >= 3 && ls[1] == SEPARATOR && ls[2] == FORWARD_SLASH && EatSegments(ls[3..]) == [EOF])
            <==> |body| >= 2 && body[..2] == [NS, SEPARATOR] && IsNamespace(body[2..])
  {
    hide EatSegments, IsNamespace;
    var ls := body + [EOF];
    if |body| >= 2 {
      var ns := body[2..];
      NamespaceAccepted(ns);
      assert body[..2] == [ls[0], ls[1]];
      if |body| >= 3 {
        assert (ns + [EOF])[1..] == ls[3..] && ns[0] == ls[2];
      }
    }
  }

  lemma BodyAccepted(body: seq<Lexeme>)
    ensures AcceptsBody(body + [EOF]) <==> IsBody(body)
  {
    hide AcceptsNameRule, IsNameRule, EatSegments, IsNamespace;
    NameBodyAccepted(body);
    NamespaceBodyAccepted(body);
    var ls := body + [EOF];
    assert body == ls[..|ls| - 1];
    assert body == [NODE, SEPARATOR, TOKEN] <==> ls == [NODE, SEPARATOR, TOKEN, EOF];
    assert |body| >= 2 ==> body[..2][0] == body[0];
  }

  /** The recogniser accepts exactly the grammar. */
  lemma RuleAccepted(ls: seq<Lexeme>)
    ensures AcceptsRule(ls) <==> IsRule(ls)
  {
    if ls != [] && ls[|ls| - 1] == EOF {
      var body := ls[..|ls| - 1];
      assert ls == body + [EOF];
      BodyAccepted(body);
      if |ls| >= 3 && ls[..2] == [TOKEN, COLON] {
        assert ls[0] == ls[..2][0] && ls[1] == ls[..2][1];
        assert ls[2..] == ls[2..|ls| - 1] + [EOF];
        BodyAccepted(ls[2..|ls| - 1]);
        PrefixIsNoBody(body);
      } else if |ls| >= 2 {
        assert ls[..2] == [ls[0], ls[1]];
      }
    } else {
      AcceptedEnds(SkipPrefix(ls));
    }
  }

  lemma PrefixIsNoBody(body: seq<Lexeme>)
    requires |body| >= 2 && body[0] == TOKEN && body[1] == COLON
    ensures !IsBody(body)
  {
    forall u: nat, k: nat | IsNameRuleAt(body, u, k) ensures false {
      NameRuleComplete(body, u, k);
    }
    assert body[..2][0] == TOKEN;
  }

  lemma AcceptedEnds(ls: seq<Lexeme>)
    ensures AcceptsBody(ls) ==> ls != [] && ls[|ls| - 1] == EOF
  {
    if AcceptsBody(ls) {
      if ls[0] == NODE {
      } else if ls[0] == NS {
        SegmentsFind(ls[3..]);
      } else {
        var rest := SkipScheme(ls);
        var k := EatNameSound(rest, SEPARATOR);
        var repl := rest[k..][1..];
        var j := EatNameSound(repl, EOF);
        assert |repl[j..]| == 1;
      }
    }
  }
}
