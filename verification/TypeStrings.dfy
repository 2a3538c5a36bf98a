/** Field types of message files: their strings are parsed and printed back. */
module TypeStrings {
  import opened Common

  const PRIMITIVE_TYPES: set<string> :=
    {"bool", "byte", "char", "float32", "float64", "int8", "uint8", "int16", "uint16", "int32", "uint32",
     "int64", "uint64", "string", "wstring", "duration", "time"}

  const MESSAGE_SUFFIXES: seq<string> := ["_Request", "_Response", "_Goal", "_Result", "_Feedback"]

  datatype BaseType = BaseType(pkg: Option<string>, name: string, bound: Option<int>)

  datatype Type = Type(base: BaseType, isArray: bool, size: Option<int>, isUpperBound: bool)

  /** The integer reader of the host language: it may accept more than decimal digits. */
  type IntReader = string -> Option<int>

  // ---------- Names ----------

  predicate IsLower(c: char) { 'a' <= c <= 'z' }
  predicate IsUpper(c: char) { 'A' <= c <= 'Z' }
  predicate IsWordChar(c: char) { IsLower(c) || IsUpper(c) || IsDigit(c) || c == '_' }

  predicate IsWordString(s: string) {
    forall i :: 0 <= i < |s| ==> IsWordChar(s[i])
  }

  predicate IsPackageName(s: string) {
    && s != "" && IsLower(s[0]) && s[|s| - 1] != '_'
    && (forall i :: 0 <= i < |s| ==> IsLower(s[i]) || IsDigit(s[i]) || s[i] == '_')
    && (forall i :: 1 <= i < |s| ==> !(s[i - 1] == '_' && s[i] == '_'))
  }

  predicate EndsWith(s: string, suffix: string) {
    |suffix| <= |s| && s[|s| - |suffix|..] == suffix
  }

  function StripSuffixes(s: string, suffixes: seq<string>): string
    decreases suffixes
  {
    if suffixes == [] then s
    else
      var rest := if EndsWith(s, suffixes[0]) then s[..|s| - |suffixes[0]|] else s;
      StripSuffixes(rest, suffixes[1..])
  }

  predicate IsMessageName(s: string) {
    var bare := if "Sample_" <= s then s[7..] else s;
    var core := StripSuffixes(bare, MESSAGE_SUFFIXES);
    && core != "" && IsUpper(core[0])
    && forall i :: 0 <= i < |core| ==> IsLower(core[i]) || IsUpper(core[i]) || IsDigit(core[i])
  }

  lemma {:induction false} StrippedIsWord(s: string, suffixes: seq<string>)
    requires IsWordString(StripSuffixes(s, suffixes))
    requires forall i :: 0 <= i < |suffixes| ==> IsWordString(suffixes[i])
    ensures IsWordString(s)
    decreases suffixes
  {
    if suffixes != [] {
      var rest := if EndsWith(s, suffixes[0]) then s[..|s| - |suffixes[0]|] else s;
      StrippedIsWord(rest, suffixes[1..]);
      if EndsWith(s, suffixes[0]) {
        assert s == rest + suffixes[0];
      }
    }
  }

  lemma MessageNameIsWord(s: string)
    requires IsMessageName(s)
    ensures IsWordString(s)
  {
    var bare := if "Sample_" <= s then s[7..] else s;
    StrippedIsWord(bare, MESSAGE_SUFFIXES);
    if "Sample_" <= s {
      assert s == "Sample_" + bare;
    }
  }

  // ---------- Printing ----------

  function Decimal(n: nat): (s: string)
    ensures s != "" && forall i :: 0 <= i < |s| ==> IsDigit(s[i])
  {
    if n < 10 then ['0' + n as char] else Decimal(n / 10) + ['0' + (n % 10) as char]
  }

  ghost predicate ReadsDecimals(readInt: IntReader) {
    forall n: nat :: readInt(Decimal(n)) == Some(n)
  }

  function PrintBase(b: BaseType): string
    requires b.bound.Some? ==> b.bound.value >= 0
  {
    if b.pkg.Some? then b.pkg.value + "/" + b.name
    else b.name + if b.bound.Some? && b.bound.value != 0 then "<=" + Decimal(b.bound.value) else ""
  }

  function PrintSize(t: Type): string
    requires t.size.Some? ==> t.size.value >= 0
  {
    (if t.isUpperBound then "<=" else "") + (if t.size.Some? then Decimal(t.size.value) else "")
  }

  function Print(t: Type): string
    requires WellFormed(t)
  {
    PrintBase(t.base) + if t.isArray then "[" + PrintSize(t) + "]" else ""
  }

  // ---------- Parsing ----------

  /** A bound or size: an integer above zero. */
  function ReadPositive(readInt: IntReader, s: string): Option<int> {
    match readInt(s)
    case Some(n) => if n > 0 then Some(n) else None
    case None => None
  }

  function ParseBounded(readInt: IntReader, name: string, bound: string): Option<BaseType> {
    match ReadPositive(readInt, bound)
    case Some(n) => Some(BaseType(None, name, Some(n)))
    case None => None
  }

  /** One part, or two parts separated by the only slash. */
  function ParseNamed(s: string, context: Option<string>): Option<BaseType> {
    var k := IndexOf(s, '/');
    if k < |s| then
      if '/' !in s[k + 1..] && IsPackageName(s[..k]) && IsMessageName(s[k + 1..])
      then Some(BaseType(Some(s[..k]), s[k + 1..], None))
      else None
    else if context.Some? && IsPackageName(context.value) && IsMessageName(s) then Some(BaseType(context, s, None))
    else None
  }

  function ParseBase(readInt: IntReader, s: string, context: Option<string>): Option<BaseType> {
    if s in PRIMITIVE_TYPES then Some(BaseType(None, s, None))
    else if "string<=" <= s then ParseBounded(readInt, "string", s[8..])
    else if "wstring<=" <= s then ParseBounded(readInt, "wstring", s[9..])
    else ParseNamed(s, context)
  }

  function ParseArray(readInt: IntReader, base: BaseType, size: string): Option<Type> {
    if size == "" then Some(Type(base, true, None, false))
    else
      var upper := "<=" <= size;
      match ReadPositive(readInt, if upper then size[2..] else size)
      case Some(n) => Some(Type(base, true, Some(n), upper))
      case None => None
  }

  function Parse(readInt: IntReader, s: string, context: Option<string>): Option<Type> {
    if s == "" then None
    else if s[|s| - 1] != ']' then
      match ParseBase(readInt, s, context)
      case Some(b) => Some(Type(b, false, None, false))
      case None => None
    else
      var k := LastIndexOf(s, '[');
      if k < 0 then None
      else
        match ParseBase(readInt, s[..k], context)
        case Some(b) => ParseArray(readInt, b, s[k + 1..|s| - 1])
        case None => None
  }

  // ---------- The round trip ----------

  predicate WellFormedBase(b: BaseType) {
    if b.pkg.Some? then IsPackageName(b.pkg.value) && IsMessageName(b.name) && b.bound == None
    else if b.bound.Some? then (b.name == "string" || b.name == "wstring") && b.bound.value > 0
    else b.name in PRIMITIVE_TYPES
  }

  predicate WellFormed(t: Type) {
    && WellFormedBase(t.base)
    && (t.size.Some? ==> t.isArray && t.size.value > 0) && (t.isUpperBound ==> t.size.Some?)
  }

  /** Whatever is constructed is well formed. */
  lemma ParsedIsWellFormed(readInt: IntReader, s: string, context: Option<string>)
    ensures Parse(readInt, s, context).Some? ==> WellFormed(Parse(readInt, s, context).value)
  {
    hide IsPackageName, IsMessageName;
  }

  predicate NoBrackets(s: string) {
    '[' !in s && ']' !in s
  }

  lemma WordHasNoPunctuation(s: string)
    requires IsWordString(s)
    ensures NoBrackets(s) && '<' !in s && '/' !in s
  {
  }

  lemma PackageNameIsWord(s: string)
    requires IsPackageName(s)
    ensures IsWordString(s)
  {
  }

  lemma PrimitiveIsWord(s: string)
    requires s in PRIMITIVE_TYPES
    ensures s != "" && IsWordString(s)
  {
  }

  lemma NotPrimitive(s: string, c: char)
    requires c in s && !IsWordChar(c)
    ensures s !in PRIMITIVE_TYPES
  {
    hide PRIMITIVE_TYPES;
    if s in PRIMITIVE_TYPES {
      PrimitiveIsWord(s);
    }
  }

  lemma NamedRoundTrip(readInt: IntReader, p: string, m: string, context: Option<string>)
    requires IsPackageName(p) && IsMessageName(m)
    ensures ParseBase(readInt, p + "/" + m, context) == Some(BaseType(Some(p), m, None))
    ensures NoBrackets(p + "/" + m)
  {
    PackageNameIsWord(p);
    MessageNameIsWord(m);
    hide IsPackageName, IsMessageName, PRIMITIVE_TYPES, IndexOf;
    WordHasNoPunctuation(p);
    WordHasNoPunctuation(m);
    var s := p + "/" + m;
    assert s == p + ['/'] + m && s[|p|] == '/';
    IndexOfFirst(p, '/', m);
    assert s[..|p|] == p && s[|p| + 1..] == m;
    NotPrimitive(s, '/');
    assert '<' !in s;
    PrefixChar("string<=", s, 6);
    PrefixChar("wstring<=", s, 7);
  }

  lemma BoundedRoundTrip(readInt: IntReader, name: string, n: int, context: Option<string>)
    requires ReadsDecimals(readInt) && n > 0 && (name == "string" || name == "wstring")
    ensures ParseBase(readInt, name + "<=" + Decimal(n), context) == Some(BaseType(None, name, Some(n)))
    ensures NoBrackets(name + "<=" + Decimal(n))
  {
    hide PRIMITIVE_TYPES, Decimal, ParseNamed;
    var d := Decimal(n);
    var s := name + "<=" + d;
    assert s[|name|] == '<';
    NotPrimitive(s, '<');
    assert ParseBounded(readInt, name, d) == Some(BaseType(None, name, Some(n))) by { assert readInt(d) == Some(n); }
    hide ParseBounded;
    BoundPart(name, d);
    if name == "wstring" {
      assert s[0] == 'w';
      PrefixChar("string<=", s, 0);
    }
    BoundedHasNoBrackets(name, d);
  }

  lemma BoundedHasNoBrackets(name: string, d: string)
    requires (name == "string" || name == "wstring") && forall i :: 0 <= i < |d| ==> IsDigit(d[i])
    ensures NoBrackets(name + "<=" + d)
  {
    PrimitiveIsWord(name);
    WordHasNoPunctuation(name);
    assert NoBrackets("<=") && NoBrackets(d);
  }

  lemma BoundPart(name: string, d: string)
    ensures name + "<=" <= name + "<=" + d && (name + "<=" + d)[|name| + 2..] == d
  {
  }

  lemma PrimitiveRoundTrip(readInt: IntReader, name: string, context: Option<string>)
    requires name in PRIMITIVE_TYPES
    ensures ParseBase(readInt, name, context) == Some(BaseType(None, name, None))
  {
  }

  lemma BaseRoundTrip(readInt: IntReader, b: BaseType, context: Option<string>)
    requires ReadsDecimals(readInt) && WellFormedBase(b)
    ensures ParseBase(readInt, PrintBase(b), context) == Some(b)
    ensures PrintBase(b) != "" && NoBrackets(PrintBase(b))
  {
    hide IsPackageName, IsMessageName, PRIMITIVE_TYPES, Decimal, ParseBase, NoBrackets;
    if b.pkg.Some? {
      NamedRoundTrip(readInt, b.pkg.value, b.name, context);
    } else if b.bound.Some? {
      BoundedRoundTrip(readInt, b.name, b.bound.value, context);
      assert PrintBase(b) == b.name + "<=" + Decimal(b.bound.value);
    } else {
      PrimitiveIsWord(b.name);
      WordHasNoPunctuation(b.name);
      PrimitiveRoundTrip(readInt, b.name, context);
      assert PrintBase(b) == b.name;
    }
  }

  /** Where the parser cuts a printed array type. */
  lemma ArrayCut(b: string, size: string)
    requires '[' !in size
    ensures var s := b + "[" + size + "]";
            s[|s| - 1] == ']' && LastIndexOf(s, '[') == |b| && s[..|b|] == b && s[|b| + 1..|s| - 1] == size
  {
    hide LastIndexOf;
    var s := b + "[" + size + "]";
    assert s == b + ['['] + (size + "]");
    LastIndexOfJoined(b, '[', size + "]");
  }

  /** Printing a type and parsing it again gives the same type, in any package context. */
  lemma RoundTrip(readInt: IntReader, t: Type, context: Option<string>)
    requires ReadsDecimals(readInt) && WellFormed(t)
    ensures Parse(readInt, Print(t), context) == Some(t)
  {
    hide IsPackageName, IsMessageName, PRIMITIVE_TYPES, ParseBase, PrintBase, PrintSize, ParseArray, LastIndexOf;
    var b := PrintBase(t.base);
    BaseRoundTrip(readInt, t.base, context);
    if t.isArray {
      var size := PrintSize(t);
      SizeChars(t);
      assert Print(t) == b + "[" + size + "]";
      ArrayCut(b, size);
      SizeRoundTrip(readInt, t);
    } else {
      assert Print(t) == b;
      assert b[|b| - 1] in b;
    }
  }

  lemma SizeChars(t: Type)
    requires t.size.Some? ==> t.size.value > 0
    ensures '[' !in PrintSize(t)
  {
    if t.size.Some? {
      assert forall c :: c in Decimal(t.size.value) ==> IsDigit(c);
    }
  }

  lemma SizeRoundTrip(readInt: IntReader, t: Type)
    requires ReadsDecimals(readInt) && WellFormed(t) && t.isArray
    ensures ParseArray(readInt, t.base, PrintSize(t)) == Some(t)
  {
    hide WellFormedBase;
    if t.size.Some? {
      var d := Decimal(t.size.value);
      assert readInt(d) == Some(t.size.value);
      if t.isUpperBound {
        assert PrintSize(t)[2..] == d;
      } else {
        assert PrintSize(t) == d && d[0] != '<';
      }
    }
  }

  /** For every string that constructs a type: the printed form constructs an equal one. */
  lemma ConstructedRoundTrip(readInt: IntReader, s: string, context: Option<string>, context': Option<string>)
    requires ReadsDecimals(readInt)
    ensures match Parse(readInt, s, context)
            case Some(t) => WellFormed(t) && Parse(readInt, Print(t), context') == Some(t)
            case None => true
  {
    hide Parse, WellFormed;
    ParsedIsWellFormed(readInt, s, context);
    match Parse(readInt, s, context)
    case Some(t) => RoundTrip(readInt, t, context');
    case None =>
  }

  // ---------- Which strings construct a type ----------

  /** A bare message name takes its package from the context. */
  lemma BareNameConstructs(readInt: IntReader, m: string, context: Option<string>)
    requires m !in PRIMITIVE_TYPES && '/' !in m && '<' !in m
    ensures ParseBase(readInt, m, context)
         == if context.Some? && IsPackageName(context.value) && IsMessageName(m)
            then Some(BaseType(context, m, None)) else None
  {
    hide IsPackageName, IsMessageName;
    PrefixChar("string<=", m, 6);
    PrefixChar("wstring<=", m, 7);
    assert IndexOf(m, '/') == |m|;
  }

  /** A package and a message name with a slash between them; the context does not matter. */
  lemma QualifiedNameConstructs(readInt: IntReader, p: string, m: string, context: Option<string>)
    requires '/' !in p && '<' !in p && '<' !in m
    ensures ParseBase(readInt, p + "/" + m, context)
         == if IsPackageName(p) && IsMessageName(m) then Some(BaseType(Some(p), m, None)) else None
  {
    var s := p + "/" + m;
    assert s == p + ['/'] + m;
    IndexOfFirst(p, '/', m);
    assert s[..|p|] == p && s[|p| + 1..] == m && s[|p|] == '/';
    NotPrimitive(s, '/');
    PrefixChar("string<=", s, 6);
    PrefixChar("wstring<=", s, 7);
    if '/' in m {
      MessageNameHasNoSlash(m);
    }
    hide IsPackageName, IsMessageName;
  }

  lemma MessageNameHasNoSlash(m: string)
    requires '/' in m
    ensures !IsMessageName(m)
  {
    if IsMessageName(m) {
      MessageNameIsWord(m);
    }
  }

  /** A bound makes a string type when it is read as a number above zero. */
  lemma BoundedStringConstructs(readInt: IntReader, bound: string, context: Option<string>)
    ensures ParseBase(readInt, "string<=" + bound, context)
         == if readInt(bound).Some? && readInt(bound).value > 0 then Some(BaseType(None, "string", readInt(bound))) else None
    ensures ParseBase(readInt, "wstring<=" + bound, context)
         == if readInt(bound).Some? && readInt(bound).value > 0 then Some(BaseType(None, "wstring", readInt(bound))) else None
  {
    var s, w := "string<=" + bound, "wstring<=" + bound;
    assert s[6] == '<' && w[7] == '<';
    NotPrimitive(s, '<');
    NotPrimitive(w, '<');
    assert "string<=" <= s && s[8..] == bound && "wstring<=" <= w && w[9..] == bound;
    PrefixChar("string<=", w, 0);
  }

  /** Brackets make an array: empty ones without a size, a number a fixed one, and `<=` with a number an upper bound. */
  lemma ArrayConstructs(readInt: IntReader, b: string, size: string, context: Option<string>)
    requires '[' !in size
    ensures var base := ParseBase(readInt, b, context);
            && Parse(readInt, b + "[]", context) == (if base.None? then None else Some(Type(base.value, true, None, false)))
            && (size != "" && !("<=" <= size) ==>
                  Parse(readInt, b + "[" + size + "]", context)
                  == if base.None? || readInt(size).None? || readInt(size).value <= 0 then None
                     else Some(Type(base.value, true, readInt(size), false)))
            && Parse(readInt, b + "[<=" + size + "]", context)
            == (if base.None? || readInt(size).None? || readInt(size).value <= 0 then None
                else Some(Type(base.value, true, readInt(size), true)))
  {
    hide ParseBase, LastIndexOf;
    ArrayCut(b, "");
    assert b + "[" + "" + "]" == b + "[]";
    ArrayCut(b, size);
    var bounded := "<=" + size;
    ArrayCut(b, bounded);
    assert b + "[" + bounded + "]" == b + "[<=" + size + "]";
    assert "<=" <= bounded && bounded[2..] == size;
  }

  /** Without a closing bracket there is no array. */
  lemma PlainConstructs(readInt: IntReader, s: string, context: Option<string>)
    requires s == "" || s[|s| - 1] != ']'
    ensures Parse(readInt, s, context)
         == if s == "" || ParseBase(readInt, s, context).None? then None
            else Some(Type(ParseBase(readInt, s, context).value, false, None, false))
  {
  }
}
