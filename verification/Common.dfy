/** Types shared by all parts of the model. */
module Common {

  /** A value that may be absent (a null pointer or a missing map entry in the original). */
  datatype Option<+T> = None | Some(value: T)

  predicate IsDigit(c: char) { '0' <= c <= '9' }

  /** Position of the last occurrence of `c` in `s`, or -1. */
  function LastIndexOf(s: string, c: char): (r: int)
    ensures -1 <= r < |s|
    ensures r >= 0 ==> s[r] == c
    ensures forall k :: r < k < |s| ==> s[k] != c
  {
    if s == "" then -1
    else if s[|s| - 1] == c then |s| - 1
    else LastIndexOf(s[..|s| - 1], c)
  }

  lemma LastIndexOfConcat(a: string, b: string, c: char)
    ensures LastIndexOf(a + b, c) == if c in b then |a| + LastIndexOf(b, c) else LastIndexOf(a, c)
  {
    var s := a + b;
    assert forall k :: |a| <= k < |s| ==> s[k] == b[k - |a|];
    assert forall k :: 0 <= k < |a| ==> s[k] == a[k];
    var r := LastIndexOf(s, c);
    if c in b {
      var q := LastIndexOf(b, c);
      assert s[|a| + q] == c;
    } else if LastIndexOf(a, c) >= 0 {
      assert s[LastIndexOf(a, c)] == c;
    }
  }

  /** Cutting `ns sep name` at its last separator gives back `ns` when `name` has none. */
  lemma LastIndexOfJoined(ns: string, sep: char, name: string)
    requires sep !in name
    ensures LastIndexOf(ns + [sep] + name, sep) == |ns|
    ensures (ns + [sep] + name)[..|ns|] == ns
  {
    LastIndexOfConcat(ns + [sep], name, sep);
    assert (ns + [sep])[|ns|] == sep;
  }

  /** Position of the first occurrence of `c` in `s`, or |s|. */
  function IndexOf(s: string, c: char): (r: nat)
    ensures r <= |s|
    ensures r < |s| ==> s[r] == c
    ensures c !in s[..r]
  {
    if s == "" || s[0] == c then 0
    else
      var r := 1 + IndexOf(s[1..], c);
      assert s[..r] == [s[0]] + s[1..][..r - 1];
      r
  }

  lemma {:induction false} IndexOfFirst(a: string, c: char, b: string)
    requires c !in a
    ensures IndexOf(a + [c] + b, c) == |a|
    decreases a
  {
    if a != "" {
      assert (a + [c] + b)[1..] == a[1..] + [c] + b;
      IndexOfFirst(a[1..], c, b);
    }
  }

  /** A string that begins with `w` has the characters of `w`. */
  lemma PrefixChar(w: string, text: string, i: nat)
    requires i < |w|
    ensures w <= text ==> i < |text| && text[i] == w[i]
  {
  }
}
