/**
 Parameter files as trees, their recursive flattening, and the proof that the event-driven
 reader computes it.
 */
module YamlFlatten {
  import opened Common
  import opened YamlMachine

  // ---------- Documents ----------

  datatype ParamValue = One(s: Scalar) | Many(items: seq<Scalar>)

  /** The entries of a parameter map, in document order. */
  datatype Params =
    | NoParams
    | Param(key: string, value: ParamValue, rest: Params)
    | ParamMap(key: string, entries: Params, rest: Params)

  /** The entries of a namespace map: a node holds a single `ros__parameters` map. */
  datatype Nodes =
    | NoNodes
    | Node(key: string, params: Params, rest: Nodes)
    | Namespace(key: string, entries: Nodes, rest: Nodes)

  // ---------- The event stream of a document ----------

  function Key(k: string): Event {
    ScalarEvent(Scalar(k, false))
  }

  function ItemEvents(items: seq<Scalar>): seq<Event> {
    seq(|items|, i requires 0 <= i < |items| => ScalarEvent(items[i]))
  }

  function ValueEvents(v: ParamValue): seq<Event> {
    match v
    case One(s) => [ScalarEvent(s)]
    case Many(items) => [SequenceStart] + ItemEvents(items) + [SequenceEnd]
  }

  function ParamEvents(p: Params): seq<Event> {
    match p
    case NoParams => []
    case Param(k, v, rest) => [Key(k)] + ValueEvents(v) + ParamEvents(rest)
    case ParamMap(k, es, rest) => [Key(k), MappingStart] + ParamEvents(es) + [MappingEnd] + ParamEvents(rest)
  }

  function NodeEvents(n: Nodes): seq<Event> {
    match n
    case NoNodes => []
    case Node(k, ps, rest) =>
      [Key(k), MappingStart, Key(PARAMS_KEY), MappingStart] + ParamEvents(ps) + [MappingEnd, MappingEnd]
      + NodeEvents(rest)
    case Namespace(k, es, rest) => [Key(k), MappingStart] + NodeEvents(es) + [MappingEnd] + NodeEvents(rest)
  }

  function FileEvents(n: Nodes): seq<Event> {
    [StreamStart, DocumentStart, MappingStart] + NodeEvents(n) + [MappingEnd, DocumentEnd]
  }

  // ---------- The flattening ----------

  function Typed(c: Conversions, items: seq<Scalar>): seq<Value> {
    seq(|items|, i requires 0 <= i < |items| => GetValue(c, items[i]))
  }

  predicate SameType(vs: seq<Value>) {
    forall i :: 0 <= i < |vs| ==> TypeOf(vs[i]) == TypeOf(vs[0])
  }

  /** The variant holding exactly the array `vs`. */
  function ArrayVariant(vs: seq<Value>): Variant
    requires SameType(vs)
  {
    if vs == [] then EMPTY_VARIANT
    else
      match vs[0]
      case BoolValue(_) =>
        EMPTY_VARIANT.(boolArray := Some(seq(|vs|, i requires 0 <= i < |vs| && SameType(vs) =>
          assert TypeOf(vs[i]) == TypeOf(vs[0]); vs[i].b)))
      case IntValue(_) =>
        EMPTY_VARIANT.(integerArray := Some(seq(|vs|, i requires 0 <= i < |vs| && SameType(vs) =>
          assert TypeOf(vs[i]) == TypeOf(vs[0]); vs[i].i)))
      case DoubleValue(_) =>
        EMPTY_VARIANT.(doubleArray := Some(seq(|vs|, i requires 0 <= i < |vs| && SameType(vs) =>
          assert TypeOf(vs[i]) == TypeOf(vs[0]); vs[i].d)))
      case StringValue(_) =>
        EMPTY_VARIANT.(stringArray := Some(seq(|vs|, i requires 0 <= i < |vs| && SameType(vs) =>
          assert TypeOf(vs[i]) == TypeOf(vs[0]); vs[i].s)))
  }

  /** The variant holding exactly the scalar `v`. */
  function ScalarVariant(v: Value): Variant {
    match v
    case BoolValue(b) => Variant(Some(b), None, None, None, None, None, None, None)
    case IntValue(i) => Variant(None, Some(i), None, None, None, None, None, None)
    case DoubleValue(d) => Variant(None, None, Some(d), None, None, None, None, None)
    case StringValue(s) => Variant(None, None, None, Some(s), None, None, None, None)
  }

  predicate FitsScalar(s: Scalar) {
    |s.text| <= MAX_STRING_SIZE && (s.quoted || s.text != "")
  }

  predicate FitsValue(c: Conversions, v: ParamValue) {
    match v
    case One(s) => FitsScalar(s)
    case Many(items) => (forall s :: s in items ==> FitsScalar(s)) && SameType(Typed(c, items))
  }

  function ValueVariant(c: Conversions, v: ParamValue): Variant
    requires FitsValue(c, v)
  {
    match v
    case One(s) => ScalarVariant(GetValue(c, s))
    case Many(items) => ArrayVariant(Typed(c, items))
  }

  /** A name of at most 255 characters, or a lone key of at most 256. */
  predicate FitsName(ns: Option<string>, key: string) {
    && 0 < |key| <= MAX_STRING_SIZE
    && (ns.Some? ==> |ns.value| + |key| + 2 <= MAX_STRING_SIZE)
  }

  /** The parameter maps the reader promises to handle, below the namespace `ns`. */
  predicate GoodParams(c: Conversions, p: Params, ns: Option<string>) {
    match p
    case NoParams => true
    case Param(k, v, rest) => FitsName(ns, k) && FitsValue(c, v) && GoodParams(c, rest, ns)
    case ParamMap(k, es, rest) =>
      && FitsName(ns, k) && (ns.Some? ==> PARAM_SEP !in k)
      && es != NoParams && GoodParams(c, es, Some(Join(ns, k, PARAM_SEP)))
      && GoodParams(c, rest, ns)
  }

  function FlattenParams(c: Conversions, p: Params, ns: Option<string>): seq<Slot>
    requires GoodParams(c, p, ns)
  {
    match p
    case NoParams => []
    case Param(k, v, rest) => [Slot(Join(ns, k, PARAM_SEP), ValueVariant(c, v))] + FlattenParams(c, rest, ns)
    case ParamMap(k, es, rest) =>
      FlattenParams(c, es, Some(Join(ns, k, PARAM_SEP))) + FlattenParams(c, rest, ns)
  }

  predicate FitsNode(c: Conversions, p: Params) {
    GoodParams(c, p, None) && |FlattenParams(c, p, None)| <= MAX_NUM_PARAMS_PER_NODE
  }

  /** The namespace maps the reader promises to handle, below the namespace `ns`. */
  predicate GoodNodes(c: Conversions, n: Nodes, ns: Option<string>) {
    match n
    case NoNodes => true
    case Node(k, ps, rest) =>
      && FitsName(ns, k) && !(PARAMS_KEY <= k) && (ns.Some? ==> NODE_SEP !in k)
      && FitsNode(c, ps) && GoodNodes(c, rest, ns)
    case Namespace(k, es, rest) =>
      && FitsName(ns, k) && !(PARAMS_KEY <= k) && (ns.Some? ==> NODE_SEP !in k)
      && k[|k| - 1] != NODE_SEP
      && GoodNodes(c, es, Some(Join(ns, k, NODE_SEP))) && GoodNodes(c, rest, ns)
  }

  function FlattenNodes(c: Conversions, n: Nodes, ns: Option<string>): seq<NodeParams>
    requires GoodNodes(c, n, ns)
  {
    match n
    case NoNodes => []
    case Node(k, ps, rest) =>
      var slots := FlattenParams(c, ps, None);
      [NodeParams(Join(ns, k, NODE_SEP), slots, |slots|)] + FlattenNodes(c, rest, ns)
    case Namespace(k, es, rest) =>
      FlattenNodes(c, es, Some(Join(ns, k, NODE_SEP))) + FlattenNodes(c, rest, ns)
  }

  predicate GoodFile(c: Conversions, n: Nodes) {
    GoodNodes(c, n, None) && |FlattenNodes(c, n, None)| <= MAX_NUM_NODE_ENTRIES
  }

  // ---------- The reader between two entries ----------

  /** The tracked namespace string of `count` names: absent when there are none, else long enough. */
  predicate NsShape(ns: Option<string>, count: nat) {
    && (count == 0 <==> ns.None?)
    && (ns.Some? ==> count <= |ns.value| <= MAX_STRING_SIZE)
  }

  predicate InParams(st: State) {
    && st.mapLevel == PARAMS_LVL && st.isKey && !st.isSeq && !st.isNewMap
    && NsShape(st.nodeNs, st.numNodeNs) && NsShape(st.paramNs, st.numParamNs)
    && st.mapDepth == st.numNodeNs + 3 + st.numParamNs
    && |st.nodes| > 0 && Last(st.nodes).num == |Last(st.nodes).slots|
  }

  predicate InNodes(st: State) {
    && st.mapLevel == NODE_NAME_LVL && st.isKey && !st.isSeq
    && NsShape(st.nodeNs, st.numNodeNs)
    && (st.nodeNs.Some? ==> st.nodeNs.value[|st.nodeNs.value| - 1] != NODE_SEP)
    && st.mapDepth == st.numNodeNs + 1
    && st.paramNs == None && st.numParamNs == 0
  }

  function AddSlots(st: State, slots: seq<Slot>): State
    requires |st.nodes| > 0
  {
    var n := Last(st.nodes);
    st.(nodes := SetLast(st.nodes, n.(slots := n.slots + slots, num := |n.slots| + |slots|)))
  }

  lemma AddSlotsTwice(st: State, a: seq<Slot>, b: seq<Slot>)
    requires |st.nodes| > 0
    ensures AddSlots(AddSlots(st, a), b) == AddSlots(st, a + b)
  {
    var n := Last(st.nodes);
    assert n.slots + a + b == n.slots + (a + b);
    assert AddSlots(st, a).nodes[..|st.nodes| - 1] == st.nodes[..|st.nodes| - 1];
  }

  // ---------- Values ----------

  ghost predicate ReadsInto(c: Conversions, st: State, es: seq<Event>, st': State) {
    var r := Fold(c, st, es);
    r.Ok? && r.st == st'.(seqType := r.st.seqType)
  }

  /** `st` has just read the key of a new, still empty, parameter named `name`. */
  predicate AwaitsValue(st: State, before: State, name: string) {
    InParams(before) && st == AddSlots(before, [Slot(name, EMPTY_VARIANT)]).(isKey := false)
  }

  /** Inside a sequence, with the elements `vs` already stored. */
  function Filling(before: State, name: string, vs: seq<Value>): State
    requires |before.nodes| > 0 && SameType(vs)
  {
    AddSlots(before, [Slot(name, ArrayVariant(vs))]).(
      isKey := false, isSeq := true, seqType := if vs == [] then UnknownType else TypeOf(vs[0]))
  }

  lemma {:induction false} ItemsRun(c: Conversions, before: State, name: string, vs: seq<Value>, items: seq<Scalar>)
    requires InParams(before) && SameType(vs + Typed(c, items)) && SameType(vs)
    requires forall s :: s in items ==> FitsScalar(s)
    ensures Fold(c, Filling(before, name, vs), ItemEvents(items)) == Ok(Filling(before, name, vs + Typed(c, items)))
    decreases items
  {
    if items == [] {
      assert vs + Typed(c, items) == vs;
    } else {
      var vs1 := vs + [GetValue(c, items[0])];
      assert vs + Typed(c, items) == vs1 + Typed(c, items[1..]);
      assert forall i :: 0 <= i < |vs1| ==> vs1[i] == (vs + Typed(c, items))[i];
      OneItem(c, before, name, vs, items[0]);
      assert ItemEvents(items)[1..] == ItemEvents(items[1..]);
      ItemsRun(c, before, name, vs1, items[1..]);
    }
  }

  ghost predicate FoldOne(c: Conversions, st: State, e: Event)
    ensures FoldOne(c, st, e)
    ensures Fold(c, st, [e]) == Step(c, st, e)
  {
    assert [e][1..] == [];
    true
  }

  lemma OneItem(c: Conversions, before: State, name: string, vs: seq<Value>, s: Scalar)
    requires InParams(before) && FitsScalar(s) && SameType(vs + [GetValue(c, s)]) && SameType(vs)
    ensures Step(c, Filling(before, name, vs), ScalarEvent(s)) == Ok(Filling(before, name, vs + [GetValue(c, s)]))
  {
    var v := GetValue(c, s);
    assert TypeOf((vs + [v])[|vs|]) == TypeOf((vs + [v])[0]);
    var p := if vs == [] then StartArray(EMPTY_VARIANT, v) else AppendToArray(ArrayVariant(vs), v);
    if vs == [] {
      assert vs + [v] == [v];
      ArrayStarts(v);
    } else {
      ArrayGrows(vs, v);
    }
    ReplaceLast(before, name, ArrayVariant(vs), p);
  }

  lemma ArrayStarts(v: Value)
    ensures ArrayVariant([v]) == StartArray(EMPTY_VARIANT, v)
  {
    var p, q := ArrayVariant([v]), StartArray(EMPTY_VARIANT, v);
    match v
    case BoolValue(_) => assert p.boolArray.value == q.boolArray.value;
    case IntValue(_) => assert p.integerArray.value == q.integerArray.value;
    case DoubleValue(_) => assert p.doubleArray.value == q.doubleArray.value;
    case StringValue(_) => assert p.stringArray.value == q.stringArray.value;
  }

  lemma ArrayGrows(vs: seq<Value>, v: Value)
    requires SameType(vs + [v]) && SameType(vs) && vs != [] && HasArray(ArrayVariant(vs), v)
    ensures ArrayVariant(vs + [v]) == AppendToArray(ArrayVariant(vs), v)
  {
    var p, q := ArrayVariant(vs + [v]), AppendToArray(ArrayVariant(vs), v);
    assert (vs + [v])[0] == vs[0];
    match v
    case BoolValue(_) => assert p.boolArray.value == q.boolArray.value;
    case IntValue(_) => assert p.integerArray.value == q.integerArray.value;
    case DoubleValue(_) => assert p.doubleArray.value == q.doubleArray.value;
    case StringValue(_) => assert p.stringArray.value == q.stringArray.value;
  }

  /** Rewriting the value of the last slot. */
  lemma ReplaceLast(before: State, name: string, p: Variant, q: Variant)
    requires InParams(before)
    ensures WithLastValue(AddSlots(before, [Slot(name, p)]), q) == AddSlots(before, [Slot(name, q)])
  {
    var n := Last(before.nodes);
    assert (n.slots + [Slot(name, p)])[|n.slots| := Slot(name, q)] == n.slots + [Slot(name, q)];
    var st := AddSlots(before, [Slot(name, p)]);
    assert st.nodes[..|before.nodes| - 1] == before.nodes[..|before.nodes| - 1];
  }

  lemma ValueRun(c: Conversions, st: State, before: State, name: string, v: ParamValue)
    requires AwaitsValue(st, before, name) && FitsValue(c, v)
    ensures ReadsInto(c, st, ValueEvents(v), AddSlots(before, [Slot(name, ValueVariant(c, v))]))
  {
    match v
    case One(s) =>
      ReplaceLast(before, name, EMPTY_VARIANT, ValueVariant(c, v));
      assert FoldOne(c, st, ScalarEvent(s));
    case Many(items) =>
      ItemsRun(c, before, name, [], items);
      assert [] + Typed(c, items) == Typed(c, items);
      var st1 := st.(isSeq := true, seqType := UnknownType);
      var st2 := Fold(c, st1, ItemEvents(items)).st;
      assert FoldOne(c, st, SequenceStart);
      FoldConcat(c, st, [SequenceStart], ItemEvents(items));
      FoldConcat(c, st, [SequenceStart] + ItemEvents(items), [SequenceEnd]);
      assert FoldOne(c, st2, SequenceEnd);
  }

  // ---------- Parameter maps ----------

  lemma ParamKeyStep(c: Conversions, st: State, k: string)
    requires InParams(st) && FitsName(st.paramNs, k) && |Last(st.nodes).slots| < MAX_NUM_PARAMS_PER_NODE
    ensures Step(c, st, Key(k))
         == Ok(AddSlots(st, [Slot(Join(st.paramNs, k, PARAM_SEP), EMPTY_VARIANT)]).(isKey := false))
  {
  }

  /** The state in which the entries of a nested parameter map are read. */
  function Entered(st: State, k: string): State {
    st.(paramNs := Some(Join(st.paramNs, k, PARAM_SEP)), numParamNs := st.numParamNs + 1, mapDepth := st.mapDepth + 1)
  }

  /** A first key right after the start of a nested map takes back the slot of the map's own key. */
  lemma EnterMap(c: Conversions, st: State, k: string, first: string)
    requires InParams(st) && FitsName(st.paramNs, k) && |Last(st.nodes).slots| < MAX_NUM_PARAMS_PER_NODE
    requires FitsName(Some(Join(st.paramNs, k, PARAM_SEP)), first)
    ensures InParams(Entered(st, k))
    ensures Fold(c, st, [Key(k), MappingStart]).Ok?
    ensures Step(c, Fold(c, st, [Key(k), MappingStart]).st, Key(first)) == Step(c, Entered(st, k), Key(first))
  {
    hide Step;
    ParamKeyStep(c, st, k);
    var st1 := AddSlots(st, [Slot(Join(st.paramNs, k, PARAM_SEP), EMPTY_VARIANT)]).(isKey := false);
    assert FoldOne(c, st, Key(k));
    assert FoldOne(c, st1, MappingStart);
    assert [Key(k), MappingStart] == [Key(k)] + [MappingStart];
    FoldConcat(c, st, [Key(k)], [MappingStart]);
    var st2 := st1.(mapDepth := st.mapDepth + 1, isKey := true, isNewMap := true);
    ParamMapStarts(c, st, st1);
    ReusesSlot(c, st, k, first, st2);
    ParamKeyStep(c, Entered(st, k), first);
  }

  lemma ParamMapStarts(c: Conversions, st: State, st1: State)
    requires InParams(st) && st1 == st.(nodes := st1.nodes, isKey := false)
    ensures Step(c, st1, MappingStart) == Ok(st1.(mapDepth := st.mapDepth + 1, isKey := true, isNewMap := true))
  {
  }

  lemma ReusesSlot(c: Conversions, st: State, k: string, first: string, st2: State)
    requires InParams(st) && FitsName(st.paramNs, k) && |Last(st.nodes).slots| < MAX_NUM_PARAMS_PER_NODE
    requires FitsName(Some(Join(st.paramNs, k, PARAM_SEP)), first)
    requires st2 == AddSlots(st, [Slot(Join(st.paramNs, k, PARAM_SEP), EMPTY_VARIANT)]).(
                      mapDepth := st.mapDepth + 1, isKey := true, isNewMap := true)
    ensures Step(c, st2, Key(first))
         == Ok(AddSlots(Entered(st, k), [Slot(Join(Entered(st, k).paramNs, first, PARAM_SEP), EMPTY_VARIANT)]).(
                 isKey := false))
  {
    var st3 := OpenParamMap(st2).st;
    var n := Last(st.nodes);
    var slot := Slot(Join(st.paramNs, k, PARAM_SEP), EMPTY_VARIANT);
    assert Last(st2.nodes).slots == n.slots + [slot];
    var name := Join(st3.paramNs, first, PARAM_SEP);
    assert (n.slots + [slot])[|n.slots| := Slot(name, EMPTY_VARIANT)] == n.slots + [Slot(name, EMPTY_VARIANT)];
    assert st3.nodes[..|st.nodes| - 1] == st.nodes[..|st.nodes| - 1];
  }

  lemma LeaveMap(c: Conversions, st: State, st': State, k: string)
    requires InParams(st) && FitsName(st.paramNs, k) && (st.paramNs.Some? ==> PARAM_SEP !in k)
    requires InParams(Entered(st, k)) && InParams(st')
    requires st' == Entered(st, k).(nodes := st'.nodes, seqType := st'.seqType)
    ensures Step(c, st', MappingEnd) == Ok(st.(nodes := st'.nodes, seqType := st'.seqType))
  {
    if st.paramNs.Some? {
      LastIndexOfJoined(st.paramNs.value, PARAM_SEP, k);
    }
  }

  lemma FirstKey(c: Conversions, p: Params, ns: Option<string>) returns (k: string)
    requires p != NoParams && GoodParams(c, p, ns)
    ensures ParamEvents(p) != [] && ParamEvents(p)[0] == Key(k) && FitsName(ns, k)
    ensures |FlattenParams(c, p, ns)| > 0
  {
    k := p.key;
    if p.ParamMap? {
      var k' := FirstKey(c, p.entries, Some(Join(ns, k, PARAM_SEP)));
    }
  }

  /** Reading a parameter map appends its flattening to the current node, in document order. */
  lemma {:induction false} ParamsRun(c: Conversions, st: State, p: Params)
    requires InParams(st) && GoodParams(c, p, st.paramNs)
    requires |Last(st.nodes).slots| + |FlattenParams(c, p, st.paramNs)| <= MAX_NUM_PARAMS_PER_NODE
    ensures ReadsInto(c, st, ParamEvents(p), AddSlots(st, FlattenParams(c, p, st.paramNs)))
    decreases p
  {
    match p
    case NoParams =>
      assert Last(st.nodes).slots + [] == Last(st.nodes).slots;
      assert SetLast(st.nodes, Last(st.nodes)) == st.nodes;
    case Param(k, v, rest) =>
      ParamEntryRun(c, st, k, v);
      var slots := [Slot(Join(st.paramNs, k, PARAM_SEP), ValueVariant(c, v))];
      var st1 := AfterEntry(c, st, [Key(k)] + ValueEvents(v), slots);
      ParamsRun(c, st1, rest);
      ThenRest(c, st, [Key(k)] + ValueEvents(v), slots, ParamEvents(rest), FlattenParams(c, rest, st.paramNs));
    case ParamMap(k, entries, rest) =>
      var slots := FlattenParams(c, entries, Some(Join(st.paramNs, k, PARAM_SEP)));
      var es := [Key(k), MappingStart] + ParamEvents(entries) + [MappingEnd];
      var first := FirstKey(c, entries, Some(Join(st.paramNs, k, PARAM_SEP)));
      EnterMap(c, st, k, first);
      ParamsRun(c, Entered(st, k), entries);
      MapEntryRun(c, st, k, entries, first, slots);
      var st1 := AfterEntry(c, st, es, slots);
      ParamsRun(c, st1, rest);
      ThenRest(c, st, es, slots, ParamEvents(rest), FlattenParams(c, rest, st.paramNs));
  }

  lemma AfterEntry(c: Conversions, st: State, es: seq<Event>, slots: seq<Slot>) returns (st1: State)
    requires InParams(st) && ReadsInto(c, st, es, AddSlots(st, slots))
    ensures Fold(c, st, es) == Ok(st1) && InParams(st1) && st1.paramNs == st.paramNs
    ensures st1 == AddSlots(st, slots).(seqType := st1.seqType)
    ensures |Last(st1.nodes).slots| == |Last(st.nodes).slots| + |slots|
  {
    st1 := Fold(c, st, es).st;
  }

  lemma ThenRest(c: Conversions, st: State, es: seq<Event>, a: seq<Slot>, es': seq<Event>, b: seq<Slot>)
    requires InParams(st) && ReadsInto(c, st, es, AddSlots(st, a))
    requires ReadsInto(c, Fold(c, st, es).st, es', AddSlots(Fold(c, st, es).st, b))
    ensures ReadsInto(c, st, es + es', AddSlots(st, a + b))
  {
    hide Step, Fold, SetLast;
    FoldConcat(c, st, es, es');
    AddSlotsTwice(st, a, b);
  }

  lemma ParamEntryRun(c: Conversions, st: State, k: string, v: ParamValue)
    requires InParams(st) && FitsName(st.paramNs, k) && FitsValue(c, v)
    requires |Last(st.nodes).slots| < MAX_NUM_PARAMS_PER_NODE
    ensures ReadsInto(c, st, [Key(k)] + ValueEvents(v),
                      AddSlots(st, [Slot(Join(st.paramNs, k, PARAM_SEP), ValueVariant(c, v))]))
  {
    ParamKeyStep(c, st, k);
    assert FoldOne(c, st, Key(k));
    FoldConcat(c, st, [Key(k)], ValueEvents(v));
    ValueRun(c, Step(c, st, Key(k)).st, st, Join(st.paramNs, k, PARAM_SEP), v);
  }

  lemma MapEntryRun(c: Conversions, st: State, k: string, entries: Params, first: string, slots: seq<Slot>)
    requires InParams(st) && FitsName(st.paramNs, k) && (st.paramNs.Some? ==> PARAM_SEP !in k)
    requires Fold(c, st, [Key(k), MappingStart]).Ok? && ParamEvents(entries) != [] && ParamEvents(entries)[0] == Key(first)
    requires Step(c, Fold(c, st, [Key(k), MappingStart]).st, Key(first)) == Step(c, Entered(st, k), Key(first))
    requires InParams(Entered(st, k))
    requires ReadsInto(c, Entered(st, k), ParamEvents(entries), AddSlots(Entered(st, k), slots))
    ensures ReadsInto(c, st, [Key(k), MappingStart] + ParamEvents(entries) + [MappingEnd], AddSlots(st, slots))
  {
    hide Step;
    var st1 := AfterEntry(c, Entered(st, k), ParamEvents(entries), slots);
    FoldConcat(c, st, [Key(k), MappingStart], ParamEvents(entries));
    FoldConcat(c, st, [Key(k), MappingStart] + ParamEvents(entries), [MappingEnd]);
    assert FoldOne(c, st1, MappingEnd);
    LeaveMap(c, st, st1, k);
  }

  // ---------- Namespace maps ----------

  ghost predicate ReadsNodes(c: Conversions, st: State, es: seq<Event>, nodes: seq<NodeParams>) {
    var r := Fold(c, st, es);
    r.Ok? && r.st == st.(nodes := st.nodes + nodes, seqType := r.st.seqType, isNewMap := r.st.isNewMap)
  }

  predicate FitsNodeKey(ns: Option<string>, k: string) {
    FitsName(ns, k) && !(PARAMS_KEY <= k) && (ns.Some? ==> NODE_SEP !in k)
  }

  /** The state in which the entries of a namespace map are read. */
  function Inside(st: State, k: string): State {
    st.(nodeNs := Some(Join(st.nodeNs, k, NODE_SEP)), numNodeNs := st.numNodeNs + 1, mapDepth := st.mapDepth + 1,
        isNewMap := true)
  }

  lemma EnterNamespace(c: Conversions, st: State, k: string)
    requires InNodes(st) && FitsNodeKey(st.nodeNs, k)
    ensures Fold(c, st, [Key(k), MappingStart]) == Ok(Inside(st, k))
    ensures NsShape(Inside(st, k).nodeNs, Inside(st, k).numNodeNs)
  {
    assert FoldOne(c, st, Key(k));
    var st1 := st.(nodeNs := Some(Join(st.nodeNs, k, NODE_SEP)), numNodeNs := st.numNodeNs + 1, isKey := false);
    assert Step(c, st, Key(k)) == Ok(st1);
    assert FoldOne(c, st1, MappingStart);
    assert [Key(k), MappingStart] == [Key(k)] + [MappingStart];
    FoldConcat(c, st, [Key(k)], [MappingStart]);
  }

  lemma PopNodeName(st: State, k: string)
    requires InNodes(st) && FitsNodeKey(st.nodeNs, k)
    ensures RemName(Inside(st, k).nodeNs, Inside(st, k).numNodeNs, NODE_SEP) == NsOk(st.nodeNs, st.numNodeNs)
  {
    if st.nodeNs.Some? {
      LastIndexOfJoined(st.nodeNs.value, NODE_SEP, k);
    }
  }

  /** The state in which the parameters of the node `k` are read. */
  function AtParams(st: State, k: string): State {
    st.(mapLevel := PARAMS_LVL, mapDepth := st.mapDepth + 2, isNewMap := false,
        nodes := st.nodes + [NodeParams(Join(st.nodeNs, k, NODE_SEP), [], 0)])
  }

  lemma EnterNode(c: Conversions, st: State, k: string)
    requires InNodes(st) && FitsNodeKey(st.nodeNs, k) && |st.nodes| < MAX_NUM_NODE_ENTRIES
    ensures Fold(c, st, [Key(k), MappingStart, Key(PARAMS_KEY), MappingStart]) == Ok(AtParams(st, k))
    ensures InParams(AtParams(st, k))
  {
    EnterNamespace(c, st, k);
    PopNodeName(st, k);
    var st1 := Inside(st, k);
    var st2 := AtParams(st, k).(mapDepth := st.mapDepth + 1, isKey := false, isNewMap := true);
    assert Step(c, st1, Key(PARAMS_KEY)) == Ok(st2);
    assert Step(c, st2, MappingStart) == Ok(AtParams(st, k));
    hide Step;
    assert FoldOne(c, st1, Key(PARAMS_KEY));
    assert FoldOne(c, st2, MappingStart);
    FoldConcat(c, st1, [Key(PARAMS_KEY)], [MappingStart]);
    FoldConcat(c, st, [Key(k), MappingStart], [Key(PARAMS_KEY)] + [MappingStart]);
    assert [Key(k), MappingStart, Key(PARAMS_KEY), MappingStart]
        == [Key(k), MappingStart] + ([Key(PARAMS_KEY)] + [MappingStart]);
  }

  function NodeEntry(k: string, ps: Params): seq<Event> {
    [Key(k), MappingStart, Key(PARAMS_KEY), MappingStart] + ParamEvents(ps) + [MappingEnd, MappingEnd]
  }

  lemma LeaveNode(c: Conversions, st: State)
    requires InParams(st) && st.paramNs == None
    ensures Fold(c, st, [MappingEnd, MappingEnd])
         == Ok(st.(mapLevel := NODE_NAME_LVL, mapDepth := st.mapDepth - 2))
  {
    var st1 := st.(mapLevel := NODE_NAME_LVL, mapDepth := st.mapDepth - 1);
    assert Step(c, st, MappingEnd) == Ok(st1);
    assert Step(c, st1, MappingEnd) == Ok(st1.(mapDepth := st.mapDepth - 2));
    hide Step;
    assert FoldOne(c, st, MappingEnd);
    assert FoldOne(c, st1, MappingEnd);
    assert [MappingEnd, MappingEnd] == [MappingEnd] + [MappingEnd];
    FoldConcat(c, st, [MappingEnd], [MappingEnd]);
  }

  lemma ThreeParts(c: Conversions, st: State, a: seq<Event>, b: seq<Event>, d: seq<Event>)
    requires Fold(c, st, a).Ok? && Fold(c, Fold(c, st, a).st, b).Ok?
    ensures Fold(c, st, a + b + d) == Fold(c, Fold(c, Fold(c, st, a).st, b).st, d)
  {
    FoldConcat(c, st, a, b);
    FoldConcat(c, st, a + b, d);
  }

  lemma NodeEntryRun(c: Conversions, st: State, k: string, ps: Params)
    requires InNodes(st) && FitsNodeKey(st.nodeNs, k) && |st.nodes| < MAX_NUM_NODE_ENTRIES && FitsNode(c, ps)
    ensures var slots := FlattenParams(c, ps, None);
            ReadsNodes(c, st, NodeEntry(k, ps), [NodeParams(Join(st.nodeNs, k, NODE_SEP), slots, |slots|)])
  {
    EnterNode(c, st, k);
    var st1 := AtParams(st, k);
    var slots := FlattenParams(c, ps, None);
    ParamsRun(c, st1, ps);
    var st2 := AfterEntry(c, st1, ParamEvents(ps), slots);
    LeaveNode(c, st2);
    ThreeParts(c, st, [Key(k), MappingStart, Key(PARAMS_KEY), MappingStart], ParamEvents(ps), [MappingEnd, MappingEnd]);
    var node := NodeParams(Join(st.nodeNs, k, NODE_SEP), slots, |slots|);
    assert [] + slots == slots;
    assert AddSlots(st1, slots).nodes == st.nodes + [node];
  }

  lemma LeaveNamespace(c: Conversions, st: State, st1: State, k: string)
    requires InNodes(st) && FitsNodeKey(st.nodeNs, k) && NsShape(Inside(st, k).nodeNs, Inside(st, k).numNodeNs)
    requires st1 == Inside(st, k).(nodes := st1.nodes, seqType := st1.seqType, isNewMap := st1.isNewMap)
    ensures Step(c, st1, MappingEnd) == Ok(st.(nodes := st1.nodes, seqType := st1.seqType, isNewMap := st1.isNewMap))
  {
    PopNodeName(st, k);
  }

  lemma NamespaceEntryRun(c: Conversions, st: State, k: string, entries: Nodes, nodes: seq<NodeParams>)
    requires InNodes(st) && FitsNodeKey(st.nodeNs, k)
    requires ReadsNodes(c, Inside(st, k), NodeEvents(entries), nodes)
    ensures ReadsNodes(c, st, [Key(k), MappingStart] + NodeEvents(entries) + [MappingEnd], nodes)
  {
    hide Step;
    EnterNamespace(c, st, k);
    var st1 := Fold(c, Inside(st, k), NodeEvents(entries)).st;
    LeaveNamespace(c, st, st1, k);
    assert FoldOne(c, st1, MappingEnd);
    ThreeParts(c, st, [Key(k), MappingStart], NodeEvents(entries), [MappingEnd]);
  }

  lemma ThenRestOfNodes(c: Conversions, st: State, es: seq<Event>, a: seq<NodeParams>, es': seq<Event>, b: seq<NodeParams>)
    requires ReadsNodes(c, st, es, a) && ReadsNodes(c, Fold(c, st, es).st, es', b)
    ensures ReadsNodes(c, st, es + es', a + b)
  {
    FoldConcat(c, st, es, es');
    assert st.nodes + a + b == st.nodes + (a + b);
  }

  /** Reading a namespace map appends its nodes, named by the path of keys that leads to them. */
  lemma {:induction false} NodesRun(c: Conversions, st: State, n: Nodes)
    requires InNodes(st) && GoodNodes(c, n, st.nodeNs)
    requires |st.nodes| + |FlattenNodes(c, n, st.nodeNs)| <= MAX_NUM_NODE_ENTRIES
    ensures ReadsNodes(c, st, NodeEvents(n), FlattenNodes(c, n, st.nodeNs))
    decreases n
  {
    hide Step;
    match n
    case NoNodes =>
      assert st.nodes + [] == st.nodes;
    case Node(k, ps, rest) =>
      NodeEntryRun(c, st, k, ps);
      var slots := FlattenParams(c, ps, None);
      var st1 := Fold(c, st, NodeEntry(k, ps)).st;
      NodesRun(c, st1, rest);
      ThenRestOfNodes(c, st, NodeEntry(k, ps), [NodeParams(Join(st.nodeNs, k, NODE_SEP), slots, |slots|)],
                      NodeEvents(rest), FlattenNodes(c, rest, st.nodeNs));
    case Namespace(k, entries, rest) =>
      EnterNamespace(c, st, k);
      var inner := FlattenNodes(c, entries, Some(Join(st.nodeNs, k, NODE_SEP)));
      assert Join(st.nodeNs, k, NODE_SEP)[|Join(st.nodeNs, k, NODE_SEP)| - 1] == k[|k| - 1];
      NodesRun(c, Inside(st, k), entries);
      NamespaceEntryRun(c, st, k, entries, inner);
      var es := [Key(k), MappingStart] + NodeEvents(entries) + [MappingEnd];
      var st1 := Fold(c, st, es).st;
      NodesRun(c, st1, rest);
      ThenRestOfNodes(c, st, es, inner, NodeEvents(rest), FlattenNodes(c, rest, st.nodeNs));
  }

  lemma {:induction false} NoStreamEndInParams(p: Params)
    ensures StreamEnd !in ParamEvents(p)
  {
    match p
    case NoParams =>
    case Param(_, _, rest) => NoStreamEndInParams(rest);
    case ParamMap(_, entries, rest) =>
      NoStreamEndInParams(entries);
      NoStreamEndInParams(rest);
  }

  lemma {:induction false} NoStreamEndInNodes(n: Nodes)
    ensures StreamEnd !in NodeEvents(n)
  {
    match n
    case NoNodes =>
    case Node(_, ps, rest) =>
      NoStreamEndInParams(ps);
      NoStreamEndInNodes(rest);
    case Namespace(_, entries, rest) =>
      NoStreamEndInNodes(entries);
      NoStreamEndInNodes(rest);
  }

  lemma FileStarts(c: Conversions)
    ensures Fold(c, INITIAL, [StreamStart, DocumentStart, MappingStart]) == Ok(INITIAL.(mapDepth := 1, isNewMap := true))
  {
    var start := [StreamStart, DocumentStart, MappingStart];
    assert start[1..] == [DocumentStart, MappingStart] && start[1..][1..] == [MappingStart];
    assert FoldOne(c, INITIAL, MappingStart);
  }

  lemma FileEnds(c: Conversions, st: State)
    requires InNodes(st) && st.numNodeNs == 0
    ensures Fold(c, st, [MappingEnd, DocumentEnd]) == Ok(st.(mapDepth := 0))
  {
    assert [MappingEnd, DocumentEnd][1..] == [DocumentEnd];
    assert FoldOne(c, st.(mapDepth := 0), DocumentEnd);
  }

  lemma FileFold(c: Conversions, n: Nodes)
    requires GoodFile(c, n)
    ensures var r := Fold(c, INITIAL, FileEvents(n));
            && r.Ok? && r.st.nodes == FlattenNodes(c, n, None)
            && r.st.mapDepth == 0 && r.st.nodeNs == None && r.st.paramNs == None
  {
    hide Step, Fold;
    var st := INITIAL.(mapDepth := 1, isNewMap := true);
    FileStarts(c);
    NodesRun(c, st, n);
    var st1 := Fold(c, st, NodeEvents(n)).st;
    FileEnds(c, st1);
    ThreeParts(c, INITIAL, [StreamStart, DocumentStart, MappingStart], NodeEvents(n), [MappingEnd, DocumentEnd]);
    assert [] + FlattenNodes(c, n, None) == FlattenNodes(c, n, None);
  }

  /**
   The central promise of the reader: on the event stream of every well-formed file it succeeds, and what
   it has stored is exactly the recursive flattening of the file, in document order.
   */
  lemma FileRun(c: Conversions, n: Nodes)
    requires GoodFile(c, n)
    ensures var r := Run(c, INITIAL, FileEvents(n) + [StreamEnd]);
            && r.Ok? && r.st.nodes == FlattenNodes(c, n, None)
            && r.st.mapDepth == 0 && r.st.nodeNs == None && r.st.paramNs == None
  {
    FileFold(c, n);
    NoStreamEndInNodes(n);
    RunOfFold(c, INITIAL, FileEvents(n));
  }
}
