/**
 The two-lexeme lookahead buffer. Its answers are those of lexing afresh at the current position, whatever
 stale data its two slots still hold.
 */
module Lookahead {
  import opened Lexer

  /** Lexing afresh at position `i`. */
  function LexAt(text: string, i: nat): (Lexeme, nat)
    requires i <= |text|
  {
    Lex(text[i..])
  }

  /** The types of all lexemes from `pos` on, up to and including the end of the text or the first failure. */
  function Lexemes(text: string, pos: nat): (ls: seq<Lexeme>)
    requires pos <= |text|
    ensures ls != []
    decreases |text| - pos
  {
    var (t, n) := LexAt(text, pos);
    LexLength(text[pos..]);
    if t == EOF || t == NONE then [t] else [t] + Lexemes(text, pos + n)
  }

  lemma StreamHead(text: string, pos: nat)
    requires pos <= |text|
    ensures Lexemes(text, pos)[0] == LexAt(text, pos).0
    ensures Lexemes(text, pos)[0] == EOF ==> pos == |text|
    ensures if Lexemes(text, pos)[0] == EOF || Lexemes(text, pos)[0] == NONE then |Lexemes(text, pos)| == 1
            else && 0 < LexAt(text, pos).1 && pos + LexAt(text, pos).1 <= |text|
                 && Lexemes(text, pos)[1..] == Lexemes(text, pos + LexAt(text, pos).1)
  {
    hide Lex;
    LexLength(text[pos..]);
  }

  function Concat(parts: seq<string>): string {
    if parts == [] then "" else Concat(parts[..|parts| - 1]) + parts[|parts| - 1]
  }

  class Lookahead2 {
    const text: string
    var textIdx: nat
    // the first and the second buffered lexeme
    var start0: nat
    var end0: nat
    var type0: Lexeme
    var start1: nat
    var end1: nat
    var type1: Lexeme
    /** The lexemes accepted so far. */
    ghost var accepted: seq<string>

    ghost predicate FirstIsBuffered()
      reads this
      requires textIdx <= |text|
    {
      textIdx < end0 && start0 == textIdx && (type0, end0 - start0) == LexAt(text, textIdx)
    }

    /** The second slot holds the lexeme after the first one (unless the first one ran past the terminator). */
    ghost predicate SecondIsAhead()
      reads this
    {
      textIdx < end0 <= end1 && start1 == end0 && (end0 <= |text| ==> (type1, end1 - start1) == LexAt(text, end0))
    }

    /** The second slot still holds a copy of the first, left there by the last accept. */
    ghost predicate Shifted()
      reads this
    {
      textIdx < end0 && start1 == start0 && end1 == end0 && type1 == type0
    }

    ghost predicate Valid()
      reads this
    {
      && CString(text) && textIdx <= |text|
      && (textIdx < end0 ==> FirstIsBuffered())
      && (type0 == EOF ==> textIdx == |text|)
      && (SecondIsAhead() || Shifted() || (end1 <= textIdx && (type1 == EOF ==> textIdx == |text|)))
      && Concat(accepted) == text[..textIdx]
    }

    /** The lexemes still to come. */
    ghost function Rest(): seq<Lexeme>
      reads this
      requires textIdx <= |text|
    {
      Lexemes(text, textIdx)
    }

    constructor (t: string)
      requires CString(t)
      ensures Valid() && text == t && textIdx == 0 && end1 == 0
    {
      text := t;
      textIdx := 0;
      start0, end0, type0 := 0, 0, NONE;
      start1, end1, type1 := 0, 0, NONE;
      accepted := [];
    }

    /** A peek answers as lexing at the current position would, and moves nothing. */
    method Peek() returns (t: Lexeme)
      requires Valid()
      modifies this`start0, this`end0, this`type0
      ensures Valid()
      ensures t == type0 == LexAt(text, textIdx).0 == Rest()[0] && end0 == textIdx + LexAt(text, textIdx).1
      ensures end1 > textIdx ==> end0 == old(end0) && start0 == old(start0) && type0 == old(type0)
    {
      hide Lex;
      StreamHead(text, textIdx);
      LexLength(text[textIdx..]);
      if textIdx >= end0 {
        var bug, lexeme, length := Analyze(text[textIdx..]);
        type0 := lexeme;
        start0 := textIdx;
        end0 := start0 + length;
      }
      t := type0;
    }

    /**
     The second answer is the lexeme after the first, except just after an accept that moved the second
     slot to the front: then the copy left behind is reported again. When the first lexeme is a failed one that
     includes the terminator, the original reads beyond the text, so the answer is arbitrary; `behind` tells of this.
     */
    method Peek2() returns (t1: Lexeme, t2: Lexeme, ghost behind: bool)
      requires Valid()
      modifies this`start0, this`end0, this`type0, this`start1, this`end1, this`type1
      ensures Valid()
      ensures t1 == type0 == LexAt(text, textIdx).0 && end0 == textIdx + LexAt(text, textIdx).1
      ensures !old(Shifted()) && end0 <= |text| ==> t2 == LexAt(text, end0).0
      ensures if old(Shifted()) then Shifted() && t2 == t1 else textIdx < end0 ==> SecondIsAhead()
      ensures behind <==> old(textIdx >= end1) && FailsOnTerminator(text[textIdx..])
    {
      hide Lex;
      t1 := Peek();
      LexLength(text[textIdx..]);
      OverrunsExactly(text[textIdx..]);
      behind := false;
      if textIdx >= end1 {
        var length: nat;
        if end0 <= |text| {
          var bug;
          bug, type1, length := Analyze(text[end0..]);
        } else {
          var anything: Lexeme, any: nat := *, *;
          type1, length := anything, any;
          behind := true;
        }
        start1 := end0;
        end1 := start1 + length;
      }
      t2 := type1;
    }

    /** Accepting a peeked lexeme moves past exactly that lexeme; at the end of the text it does nothing. */
    method Accept() returns (ok: bool, lexemeStart: nat, lexemeLength: nat)
      requires Valid()
      requires end0 <= |text|
      modifies this
      ensures Valid()
      ensures old(type0) == EOF ==> ok && lexemeStart == textIdx == old(textIdx) && lexemeLength == 0
      ensures old(type0) != EOF && old(textIdx) >= old(end0) ==> !ok && textIdx == old(textIdx)
      ensures old(type0) != EOF && old(textIdx) < old(end0) ==>
                && ok && textIdx == old(end0)
                && lexemeStart == old(textIdx) && lexemeLength == LexAt(text, old(textIdx)).1
                && accepted == old(accepted) + [text[old(textIdx)..textIdx]]
                && (old(type0) != NONE ==> Rest() == old(Rest())[1..])
                && (old(SecondIsAhead()) && old(end0) < old(end1) ==> Shifted())
    {
      hide Lex;
      ok, lexemeStart, lexemeLength := true, textIdx, 0;
      if type0 == EOF {
        return;
      }
      if textIdx >= end0 {
        ok := false;
        return;
      }
      StreamHead(text, textIdx);
      lexemeStart := start0;
      lexemeLength := end0 - start0;
      accepted := accepted + [text[textIdx..end0]];
      assert text[..end0] == text[..textIdx] + text[textIdx..end0];
      assert accepted[..|accepted| - 1] == old(accepted);
      LexLength(text[end0..]);
      textIdx := end0;
      start0 := start1;
      end0 := end1;
      type0 := type1;
    }

    /** Expecting a type succeeds exactly when the next lexeme has it, and then moves past it. */
    method Expect(t: Lexeme) returns (ok: bool, lexemeStart: nat, lexemeLength: nat)
      requires Valid() && t != NONE
      modifies this
      ensures Valid()
      ensures ok <==> old(Rest())[0] == t
      ensures ok ==> && textIdx == old(textIdx) + LexAt(text, old(textIdx)).1
                     && lexemeStart == old(textIdx) && lexemeLength == LexAt(text, old(textIdx)).1
      ensures ok && t != EOF ==> && accepted == old(accepted) + [text[old(textIdx)..textIdx]]
                                 && Rest() == old(Rest())[1..] && textIdx > old(textIdx)
      ensures !ok ==> textIdx == old(textIdx)
    {
      hide Lex;
      StreamHead(text, textIdx);
      lexemeStart, lexemeLength := textIdx, 0;
      var lexeme := Peek();
      if lexeme != t {
        return false, lexemeStart, lexemeLength;
      }
      LexLength(text[textIdx..]);
      ok, lexemeStart, lexemeLength := Accept();
    }
  }

  lemma LexemesOfExample()
    ensures LexAt("a:b", 0) == (TOKEN, 1) && LexAt("a:b", 1) == (COLON, 1) && LexAt("a:b", 2) == (TOKEN, 1)
  {
    var text := "a:b";
    assert text[0..] == text && text[1..] == ":b" && text[2..] == "b";
    assert IsToken(text[..1]) && text[..2][1] == ':';
    assert TokenEnd(text, 1) == 1 && TokenEnd(text, 0) == 1;
    assert IsToken("b"[..1]) && TokenEnd("b", 1) == 1 && TokenEnd("b", 0) == 1;
  }

  /**
   A second two-lexeme peek right after an accept: the documentation promises the next two lexemes, here `:` and a
   token, but the buffer reports `:` twice.
   */
  method PeekTwoAfterAccept() returns (t1: Lexeme, t2: Lexeme)
    ensures LexAt("a:b", 1).0 == COLON && LexAt("a:b", 2).0 == TOKEN
    ensures t1 == COLON && t2 == COLON
  {
    LexemesOfExample();
    var buffer := new Lookahead2("a:b");
    ghost var behind;
    t1, t2, behind := buffer.Peek2();
    var ok, start, length := buffer.Accept();
    t1, t2, behind := buffer.Peek2();
  }
}
