/**
 The event-driven reader of parameter files: the state kept between two YAML events
 and what one event does to it. The memory accesses that the C code makes outside its buffers are a
 separate outcome, `Undefined`.
 */
module YamlMachine {
  import opened Common

  const MAX_STRING_SIZE: nat := 256
  const MAX_NUM_NODE_ENTRIES: nat := 256
  const MAX_NUM_PARAMS_PER_NODE: nat := 512
  const PARAMS_KEY: string := "ros__parameters"
  const NODE_SEP: char := '/'
  const PARAM_SEP: char := '.'
  const NODE_NAME_LVL: nat := 1
  const PARAMS_LVL: nat := 2
  const U32: nat := 0x1_0000_0000

  // ---------- Scalars and their typing ----------

  datatype Scalar = Scalar(text: string, quoted: bool)

  datatype Event =
    | StreamStart | StreamEnd | DocumentStart | DocumentEnd
    | ScalarEvent(scalar: Scalar)
    | SequenceStart | SequenceEnd | MappingStart | MappingEnd
    | AliasEvent | NoEvent

  datatype Value = BoolValue(b: bool) | IntValue(i: int) | DoubleValue(d: real) | StringValue(s: string)

  datatype DataType = UnknownType | BoolType | IntType | DoubleType | StringType

  /** The C library's number readers: `Some` when the whole, non-empty text is one number in range. */
  datatype Conversions = Conversions(strtol: string -> Option<int>, strtod: string -> Option<real>)

  const TRUE_WORDS: set<string> := {"Y", "y", "yes", "Yes", "YES", "true", "True", "TRUE", "on", "On", "ON"}
  const FALSE_WORDS: set<string> := {"N", "n", "no", "No", "NO", "false", "False", "FALSE", "off", "Off", "OFF"}

  function GetValue(c: Conversions, s: Scalar): Value {
    if s.quoted then StringValue(s.text)
    else if s.text in TRUE_WORDS then BoolValue(true)
    else if s.text in FALSE_WORDS then BoolValue(false)
    else if c.strtol(s.text).Some? then IntValue(c.strtol(s.text).value)
    else if c.strtod(s.text).Some? then DoubleValue(c.strtod(s.text).value)
    else StringValue(s.text)
  }

  function TypeOf(v: Value): (t: DataType)
    ensures t != UnknownType
  {
    match v
    case BoolValue(_) => BoolType
    case IntValue(_) => IntType
    case DoubleValue(_) => DoubleType
    case StringValue(_) => StringType
  }

  // ---------- What is stored ----------

  /** The eight nullable members of the C variant. */
  datatype Variant = Variant(
    bool_: Option<bool>, integer: Option<int>, double: Option<real>, string_: Option<string>,
    boolArray: Option<seq<bool>>, integerArray: Option<seq<int>>,
    doubleArray: Option<seq<real>>, stringArray: Option<seq<string>>)

  const EMPTY_VARIANT := Variant(None, None, None, None, None, None, None, None)

  datatype Slot = Slot(name: string, value: Variant)

  /** One node: `num` live parameters, kept at the front of the zero-initialised `slots`. */
  datatype NodeParams = NodeParams(name: string, slots: seq<Slot>, num: nat)

  datatype State = State(
    isKey: bool, isSeq: bool, seqType: DataType, mapLevel: nat, mapDepth: nat, isNewMap: bool,
    nodeNs: Option<string>, numNodeNs: nat, paramNs: Option<string>, numParamNs: nat,
    nodes: seq<NodeParams>)

  const INITIAL := State(true, false, UnknownType, NODE_NAME_LVL, 0, false, None, 0, None, 0, [])

  datatype Result = Ok(st: State) | Error | Undefined

  // ---------- The namespace strings ----------

  datatype NsResult = NsOk(ns: Option<string>, count: nat) | NsError | NsUndefined

  function AddName(ns: Option<string>, count: nat, name: string, sep: char): NsResult {
    if count == 0 then NsOk(Some(name), 1)
    else if ns.None? || ns.value == "" then NsUndefined // looks at the byte before an empty string
    else
      var s := ns.value;
      var mid := if s[|s| - 1] == sep then "" else [sep];
      if |s| + |mid| + |name| + 1 > MAX_STRING_SIZE then NsError
      else NsOk(Some(s + mid + name), (count + 1) % U32)
  }

  function RemName(ns: Option<string>, count: nat, sep: char): NsResult {
    if count == 0 then NsOk(ns, 0)
    else if count == 1 then NsOk(None, 0)
    else if ns.None? then NsUndefined
    else
      var last := LastIndexOf(ns.value, sep);
      NsOk(Some(if last < 0 then ns.value else ns.value[..last]), count - 1)
  }

  // ---------- Keys ----------

  function Join(ns: Option<string>, key: string, sep: char): string {
    if ns.None? then key else ns.value + [sep] + key
  }

  /** Names the next free slot; a slot used before keeps its value. */
  function PushSlot(n: NodeParams, name: string): NodeParams
    requires n.num <= |n.slots|
  {
    if n.num < |n.slots| then n.(slots := n.slots[n.num := n.slots[n.num].(name := name)], num := n.num + 1)
    else n.(slots := n.slots + [Slot(name, EMPTY_VARIANT)], num := n.num + 1)
  }

  function SetLast(nodes: seq<NodeParams>, n: NodeParams): seq<NodeParams>
    requires |nodes| > 0
  {
    nodes[..|nodes| - 1] + [n]
  }

  function Last(nodes: seq<NodeParams>): NodeParams
    requires |nodes| > 0
  {
    nodes[|nodes| - 1]
  }

  function ParseNodeKey(st: State, key: string): Result {
    if !(PARAMS_KEY <= key) then
      match AddName(st.nodeNs, st.numNodeNs, key, NODE_SEP)
      case NsOk(ns, n) => Ok(st.(nodeNs := ns, numNodeNs := n))
      case NsError => Error
      case NsUndefined => Undefined
    else if st.numNodeNs == 0 then Error
    else if st.nodeNs.None? || |st.nodes| >= MAX_NUM_NODE_ENTRIES then Undefined
    else
      match RemName(st.nodeNs, st.numNodeNs, NODE_SEP)
      case NsOk(ns, n) =>
        Ok(st.(nodeNs := ns, numNodeNs := n, mapLevel := PARAMS_LVL,
               nodes := st.nodes + [NodeParams(st.nodeNs.value, [], 0)]))
      case NsError => Error
      case NsUndefined => Undefined
  }

  /** The key turned out to name a map: take its slot back and make its name the namespace. */
  function OpenParamMap(st: State): Result {
    if |st.nodes| == 0 then Undefined
    else
      var n := Last(st.nodes);
      if n.num == 0 || n.num > |n.slots| then Undefined
      else Ok(st.(paramNs := Some(n.slots[n.num - 1].name), numParamNs := (st.numParamNs + 1) % U32,
                  isNewMap := false, nodes := SetLast(st.nodes, n.(num := n.num - 1))))
  }

  function StoreParamName(st: State, key: string): Result {
    if |st.nodes| == 0 || Last(st.nodes).num > |Last(st.nodes).slots| then Undefined
    else if Last(st.nodes).num >= MAX_NUM_PARAMS_PER_NODE then Error
    else if st.paramNs.Some? && |st.paramNs.value| + |key| + 2 > MAX_STRING_SIZE then
      Ok(st) // an over-long name is dropped, yet success is reported
    else
      Ok(st.(nodes := SetLast(st.nodes, PushSlot(Last(st.nodes), Join(st.paramNs, key, PARAM_SEP)))))
  }

  function ParseParamKey(st: State, key: string): Result {
    if st.isNewMap then
      match OpenParamMap(st)
      case Ok(st1) => StoreParamName(st1, key)
      case Error => Error
      case Undefined => Undefined
    else StoreParamName(st, key)
  }

  function ParseKey(st: State, key: string): Result {
    if |key| > MAX_STRING_SIZE || |key| == 0 then Error
    else if st.mapLevel == NODE_NAME_LVL then ParseNodeKey(st, key)
    else if st.mapLevel == PARAMS_LVL then ParseParamKey(st, key)
    else Error
  }

  // ---------- Values ----------

  function SetScalar(p: Variant, v: Value): Variant {
    match v
    case BoolValue(b) => p.(bool_ := Some(b))
    case IntValue(i) => p.(integer := Some(i))
    case DoubleValue(d) => p.(double := Some(d))
    case StringValue(s) => p.(string_ := Some(s))
  }

  /** A fresh one-element array. */
  function StartArray(p: Variant, v: Value): Variant {
    match v
    case BoolValue(b) => p.(boolArray := Some([b]))
    case IntValue(i) => p.(integerArray := Some([i]))
    case DoubleValue(d) => p.(doubleArray := Some([d]))
    case StringValue(s) => p.(stringArray := Some([s]))
  }

  predicate HasArray(p: Variant, v: Value) {
    match v
    case BoolValue(_) => p.boolArray.Some?
    case IntValue(_) => p.integerArray.Some?
    case DoubleValue(_) => p.doubleArray.Some?
    case StringValue(_) => p.stringArray.Some?
  }

  function AppendToArray(p: Variant, v: Value): Variant
    requires HasArray(p, v)
  {
    match v
    case BoolValue(b) => p.(boolArray := Some(p.boolArray.value + [b]))
    case IntValue(i) => p.(integerArray := Some(p.integerArray.value + [i]))
    case DoubleValue(d) => p.(doubleArray := Some(p.doubleArray.value + [d]))
    case StringValue(s) => p.(stringArray := Some(p.stringArray.value + [s]))
  }

  function WithLastValue(st: State, p: Variant): State
    requires |st.nodes| > 0 && 0 < Last(st.nodes).num <= |Last(st.nodes).slots|
  {
    var n := Last(st.nodes);
    st.(nodes := SetLast(st.nodes, n.(slots := n.slots[n.num - 1 := n.slots[n.num - 1].(value := p)])))
  }

  function ParseValue(c: Conversions, st: State, s: Scalar): Result {
    if |st.nodes| == 0 || Last(st.nodes).num == 0 then Error
    else if |s.text| > MAX_STRING_SIZE || (!s.quoted && |s.text| == 0) then Error
    else if Last(st.nodes).num > |Last(st.nodes).slots| then Undefined
    else
      var p := Last(st.nodes).slots[Last(st.nodes).num - 1].value;
      var v := GetValue(c, s);
      if !st.isSeq then Ok(WithLastValue(st, SetScalar(p, v)))
      else if st.seqType == UnknownType then Ok(WithLastValue(st, StartArray(p, v)).(seqType := TypeOf(v)))
      else if st.seqType != TypeOf(v) || !HasArray(p, v) then Error
      else Ok(WithLastValue(st, AppendToArray(p, v)))
  }

  // ---------- Events ----------

  function StepMappingStart(st: State): Result {
    var depth := (st.mapDepth + 1) % U32;
    var isParamsMap := st.mapLevel == PARAMS_LVL && (depth - (st.numNodeNs + 1)) % U32 == 2;
    Ok(st.(mapDepth := depth, isKey := true, isNewMap := !isParamsMap))
  }

  function StepMappingEnd(st: State): Result {
    var up := st.(mapDepth := (st.mapDepth - 1) % U32);
    if st.mapLevel == PARAMS_LVL then
      if st.numParamNs > 0 then
        match RemName(st.paramNs, st.numParamNs, PARAM_SEP)
        case NsOk(ns, n) => Ok(up.(paramNs := ns, numParamNs := n))
        case NsError => Error
        case NsUndefined => Undefined
      else Ok(up.(mapLevel := NODE_NAME_LVL))
    else if st.mapLevel == NODE_NAME_LVL && st.mapDepth == (st.numNodeNs + 1) % U32 then
      match RemName(st.nodeNs, st.numNodeNs, NODE_SEP)
      case NsOk(ns, n) => Ok(up.(nodeNs := ns, numNodeNs := n))
      case NsError => Error
      case NsUndefined => Undefined
    else Ok(up)
  }

  function StepScalar(c: Conversions, st: State, s: Scalar): Result {
    if st.isKey then
      match ParseKey(st, s.text)
      case Ok(st1) => Ok(st1.(isKey := false))
      case Error => Error
      case Undefined => Undefined
    else if st.mapLevel < PARAMS_LVL then Error
    else
      match ParseValue(c, st, s)
      case Ok(st1) => Ok(if st1.isSeq then st1 else st1.(isKey := true))
      case Error => Error
      case Undefined => Undefined
  }

  function Step(c: Conversions, st: State, e: Event): Result {
    match e
    case ScalarEvent(s) => StepScalar(c, st, s)
    case SequenceStart =>
      if st.isKey || st.mapLevel < PARAMS_LVL then Error
      else Ok(st.(isSeq := true, seqType := UnknownType))
    case SequenceEnd => Ok(st.(isSeq := false, isKey := true))
    case MappingStart => StepMappingStart(st)
    case MappingEnd => StepMappingEnd(st)
    case AliasEvent => Error
    case NoEvent => Error
    case StreamStart => Ok(st)
    case StreamEnd => Ok(st)
    case DocumentStart => Ok(st)
    case DocumentEnd => Ok(st)
  }

  /** Handles all of `es`, stopping at the first failure. */
  function Fold(c: Conversions, st: State, es: seq<Event>): Result
    decreases es
  {
    if es == [] then Ok(st)
    else
      match Step(c, st, es[0])
      case Ok(st1) => Fold(c, st1, es[1..])
      case Error => Error
      case Undefined => Undefined
  }

  /** The event loop: it ends at the end of the stream, and a stream that stops early is an error. */
  function Run(c: Conversions, st: State, es: seq<Event>): Result
    decreases es
  {
    if es == [] then Error
    else if es[0] == StreamEnd then Ok(st)
    else
      match Step(c, st, es[0])
      case Ok(st1) => Run(c, st1, es[1..])
      case Error => Error
      case Undefined => Undefined
  }

  // ---------- General facts about runs ----------

  lemma {:induction false} FoldConcat(c: Conversions, st: State, a: seq<Event>, b: seq<Event>)
    requires Fold(c, st, a).Ok?
    ensures Fold(c, st, a + b) == Fold(c, Fold(c, st, a).st, b)
    decreases a
  {
    if a == [] {
      assert a + b == b;
    } else {
      assert (a + b)[1..] == a[1..] + b;
      FoldConcat(c, Step(c, st, a[0]).st, a[1..], b);
    }
  }

  lemma {:induction false} RunOfFold(c: Conversions, st: State, es: seq<Event>)
    requires Fold(c, st, es).Ok? && StreamEnd !in es
    ensures Run(c, st, es + [StreamEnd]) == Fold(c, st, es)
    decreases es
  {
    if es == [] {
      assert (es + [StreamEnd])[0] == StreamEnd;
    } else {
      assert (es + [StreamEnd])[1..] == es[1..] + [StreamEnd];
      RunOfFold(c, Step(c, st, es[0]).st, es[1..]);
    }
  }

  /** Where the last separator of a grown namespace string falls. */
  lemma LastSeparator(ns: string, mid: string, name: string, sep: char)
    requires ns != "" && mid == if ns[|ns| - 1] == sep then "" else [sep]
    ensures LastIndexOf(ns + mid + name, sep)
         == if sep in name then |ns| + |mid| + LastIndexOf(name, sep) else |ns| + |mid| - 1
  {
    var front := ns + mid;
    assert front[|front| - 1] == sep;
    LastIndexOfConcat(front, name, sep);
  }

  /** Cutting at the last separator gives back the string the name was put on, in exactly these cases. */
  predicate Restorable(ns: string, name: string, sep: char)
    requires ns != ""
  {
    if ns[|ns| - 1] == sep then LastIndexOf(name, sep) == 0
    else sep !in name
  }

  /**
   Taking a name off undoes putting it on exactly when the name holds no separator and the namespace
   does not end in one (or the name supplies the one separator itself). A namespace such as "/" is not
   restored after an ordinary name.
   */
  lemma PopUndoesPush(ns: string, count: nat, name: string, sep: char)
    requires 0 < count < U32 - 1 && ns != "" && AddName(Some(ns), count, name, sep).NsOk?
    ensures var up := AddName(Some(ns), count, name, sep);
            RemName(up.ns, up.count, sep) == NsOk(Some(ns), count) <==> Restorable(ns, name, sep)
  {
    var mid := if ns[|ns| - 1] == sep then "" else [sep];
    hide AddName, RemName, LastIndexOf, Restorable;
    CutRestores(ns, mid, name, sep);
    Pushed(ns, count, name, sep);
    Popped(ns + mid + name, count + 1, sep);
  }

  lemma Pushed(ns: string, count: nat, name: string, sep: char)
    requires 0 < count < U32 - 1 && ns != "" && AddName(Some(ns), count, name, sep).NsOk?
    ensures AddName(Some(ns), count, name, sep)
         == NsOk(Some(ns + (if ns[|ns| - 1] == sep then "" else [sep]) + name), count + 1)
  {
  }

  lemma Popped(s: string, count: nat, sep: char)
    requires count >= 2 && LastIndexOf(s, sep) >= 0
    ensures RemName(Some(s), count, sep) == NsOk(Some(s[..LastIndexOf(s, sep)]), count - 1)
  {
    hide LastIndexOf;
  }

  lemma CutRestores(ns: string, mid: string, name: string, sep: char)
    requires ns != "" && mid == if ns[|ns| - 1] == sep then "" else [sep]
    ensures LastIndexOf(ns + mid + name, sep) >= 0
    ensures (ns + mid + name)[..LastIndexOf(ns + mid + name, sep)] == ns <==> Restorable(ns, name, sep)
  {
    hide LastIndexOf;
    LastSeparator(ns, mid, name, sep);
    assert ns + mid + name == ns + (mid + name);
    CutIs(ns, mid + name, LastIndexOf(ns + mid + name, sep));
  }

  lemma CutIs(ns: string, tail: string, last: nat)
    requires last <= |ns + tail|
    ensures (ns + tail)[..last] == ns <==> last == |ns|
  {
    assert |(ns + tail)[..last]| == last;
  }
}
