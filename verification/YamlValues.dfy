/** What is stored for the texts of a file: the typing of scalars, and which member of a parameter's value holds them. */
module YamlValues {
  import opened Common
  import opened YamlMachine
  import opened YamlFlatten
  import opened YamlReader

  /** A file with one parameter of one node. */
  function OneParam(node: string, key: string, v: ParamValue): Nodes {
    Node(node, Param(key, v, NoParams), NoNodes)
  }

  predicate PlainName(name: string) {
    0 < |name| <= MAX_STRING_SIZE && !(PARAMS_KEY <= name)
  }

  lemma OneParamIsRead(c: Conversions, node: string, key: string, v: ParamValue)
    requires PlainName(node) && 0 < |key| <= MAX_STRING_SIZE && FitsValue(c, v)
    ensures GoodFile(c, OneParam(node, key, v))
    ensures FlattenNodes(c, OneParam(node, key, v), None) == [NodeParams(node, [Slot(key, ValueVariant(c, v))], 1)]
  {
    hide ValueVariant, FitsValue;
    var ps := Param(key, v, NoParams);
    assert GoodParams(c, NoParams, None) && GoodParams(c, ps, None);
    assert FlattenParams(c, ps, None) == [Slot(key, ValueVariant(c, v))];
    assert GoodNodes(c, NoNodes, None) && GoodNodes(c, OneParam(node, key, v), None);
    assert FlattenNodes(c, NoNodes, None) == [];
    assert FlattenNodes(c, OneParam(node, key, v), None) == [NodeParams(node, [Slot(key, ValueVariant(c, v))], 1)] + [];
  }

  /** A file with one node in a namespace, and one parameter in a nested map. */
  function NestedParam(ns: string, node: string, group: string, key: string, v: ParamValue): Nodes {
    Namespace(ns, Node(node, ParamMap(group, Param(key, v, NoParams), NoParams), NoNodes), NoNodes)
  }

  lemma NestedParamIsGood(c: Conversions, ns: string, node: string, group: string, key: string, v: ParamValue)
    requires PlainName(ns) && PlainName(node) && group != "" && key != "" && FitsValue(c, v)
    requires '/' !in node && ns[|ns| - 1] != '/' && |ns| + |node| <= 254 && |group| + |key| <= 254
    ensures GoodFile(c, NestedParam(ns, node, group, key, v))
    ensures FlattenNodes(c, NestedParam(ns, node, group, key, v), None)
         == [NodeParams(ns + "/" + node, [Slot(group + "." + key, ValueVariant(c, v))], 1)]
  {
    hide ValueVariant, FitsValue;
    var inner := Param(key, v, NoParams);
    var ps := ParamMap(group, inner, NoParams);
    assert GoodParams(c, NoParams, None) && GoodParams(c, NoParams, Some(group)) && GoodParams(c, inner, Some(group));
    assert FlattenParams(c, inner, Some(group)) == [Slot(group + "." + key, ValueVariant(c, v))] + [];
    var slots := [Slot(group + "." + key, ValueVariant(c, v))];
    assert FlattenParams(c, ps, None) == FlattenParams(c, inner, Some(group)) + [] == slots;
    var n := Node(node, ps, NoNodes);
    assert GoodNodes(c, NoNodes, None) && GoodNodes(c, NoNodes, Some(ns)) && GoodNodes(c, n, Some(ns));
    var nodes := [NodeParams(ns + "/" + node, slots, 1)];
    assert FlattenNodes(c, NoNodes, Some(ns)) == [];
    assert FlattenNodes(c, n, Some(ns)) == [NodeParams(Join(Some(ns), node, NODE_SEP), slots, |slots|)] + [] == nodes;
    assert FlattenNodes(c, NestedParam(ns, node, group, key, v), None) == nodes + [];
  }

  /** Names of nodes are joined with slashes and names of parameters with dots, event by event. */
  method ReadNested(c: Conversions, ns: string, node: string, group: string, key: string, s: Scalar)
    returns (es: seq<Event>, nodes: seq<NodeParams>)
    requires PlainName(ns) && PlainName(node) && group != "" && key != "" && FitsScalar(s)
    requires '/' !in node && ns[|ns| - 1] != '/' && |ns| + |node| <= 254 && |group| + |key| <= 254
    ensures es == [StreamStart, DocumentStart, MappingStart, Key(ns), MappingStart, Key(node), MappingStart,
                   Key("ros__parameters"), MappingStart, Key(group), MappingStart, Key(key), ScalarEvent(s),
                   MappingEnd, MappingEnd, MappingEnd, MappingEnd, MappingEnd, DocumentEnd, StreamEnd]
    ensures Run(c, INITIAL, es).Ok? && Run(c, INITIAL, es).st.nodes == nodes
    ensures |nodes| == 1 && nodes[0].name == ns + "/" + node && nodes[0].num == 1 && |nodes[0].slots| == 1
    ensures nodes[0].slots[0].name == group + "." + key && HoldsScalar(c, nodes[0].slots[0].value, s)
  {
    hide Run, GoodFile, FlattenNodes, GetValue, HoldsScalar;
    var n := NestedParam(ns, node, group, key, One(s));
    NestedParamIsGood(c, ns, node, group, key, One(s));
    FileRun(c, n);
    ScalarHolds(c, s);
    nodes := ReadFile(c, n);
    es := FileEvents(n) + [StreamEnd];
    NestedEvents(ns, node, group, key, s);
  }

  lemma NestedEvents(ns: string, node: string, group: string, key: string, s: Scalar)
    ensures FileEvents(NestedParam(ns, node, group, key, One(s))) + [StreamEnd]
         == [StreamStart, DocumentStart, MappingStart, Key(ns), MappingStart, Key(node), MappingStart,
             Key("ros__parameters"), MappingStart, Key(group), MappingStart, Key(key), ScalarEvent(s),
             MappingEnd, MappingEnd, MappingEnd, MappingEnd, MappingEnd, DocumentEnd, StreamEnd]
  {
    var inner := Param(key, One(s), NoParams);
    assert ParamEvents(inner) == [Key(key), ScalarEvent(s)];
    var ps := ParamMap(group, inner, NoParams);
    assert ParamEvents(ps) == [Key(group), MappingStart, Key(key), ScalarEvent(s), MappingEnd];
    var n := Node(node, ps, NoNodes);
    assert NodeEvents(n)
        == [Key(node), MappingStart, Key("ros__parameters"), MappingStart] + ParamEvents(ps) + [MappingEnd, MappingEnd];
    assert NodeEvents(Namespace(ns, n, NoNodes)) == [Key(ns), MappingStart] + NodeEvents(n) + [MappingEnd];
  }

  /** Texts that stand for a truth value when they are not quoted. */
  predicate SaysTrue(text: string) {
    || text == "Y" || text == "y" || text == "yes" || text == "Yes" || text == "YES" || text == "true" || text == "True"
    || text == "TRUE" || text == "on" || text == "On" || text == "ON"
  }

  predicate SaysFalse(text: string) {
    || text == "N" || text == "n" || text == "no" || text == "No" || text == "NO" || text == "false" || text == "False"
    || text == "FALSE" || text == "off" || text == "Off" || text == "OFF"
  }

  /**
   The members of a stored scalar: a quoted text is a string; otherwise a truth word comes before an integer, an integer
   before a real number, and anything else is a string. One member is set.
   */
  ghost predicate HoldsScalar(c: Conversions, p: Variant, s: Scalar) {
    var isWord := SaysTrue(s.text) || SaysFalse(s.text);
    var isText := s.quoted || (!isWord && c.strtol(s.text).None? && c.strtod(s.text).None?);
    && p.boolArray == None && p.integerArray == None && p.doubleArray == None && p.stringArray == None
    && p.bool_ == (if s.quoted || !isWord then None else Some(SaysTrue(s.text)))
    && p.integer == (if s.quoted || isWord then None else c.strtol(s.text))
    && p.double == (if s.quoted || isWord || c.strtol(s.text).Some? then None else c.strtod(s.text))
    && p.string_ == (if isText then Some(s.text) else None)
  }

  lemma ScalarHolds(c: Conversions, s: Scalar)
    requires FitsScalar(s)
    ensures HoldsScalar(c, ValueVariant(c, One(s)), s)
  {
    assert s.text in TRUE_WORDS <==> SaysTrue(s.text);
    assert s.text in FALSE_WORDS <==> SaysFalse(s.text);
  }

  /** A scalar stored over another value sets the member of its type and leaves the other seven. */
  lemma ScalarOver(p: Variant, v: Value)
    ensures var q := SetScalar(p, v);
            match v
            case BoolValue(b) => q.bool_ == Some(b) && q.(bool_ := p.bool_) == p
            case IntValue(i) => q.integer == Some(i) && q.(integer := p.integer) == p
            case DoubleValue(d) => q.double == Some(d) && q.(double := p.double) == p
            case StringValue(s) => q.string_ == Some(s) && q.(string_ := p.string_) == p
  {
  }

  /** A scalar parameter, from the text in the file to the members of the stored value. */
  method ReadScalar(c: Conversions, node: string, key: string, s: Scalar) returns (p: Variant)
    requires PlainName(node) && 0 < |key| <= MAX_STRING_SIZE && FitsScalar(s)
    ensures Run(c, INITIAL, FileEvents(OneParam(node, key, One(s))) + [StreamEnd]).Ok?
    ensures Run(c, INITIAL, FileEvents(OneParam(node, key, One(s))) + [StreamEnd]).st.nodes
         == [NodeParams(node, [Slot(key, p)], 1)]
    ensures HoldsScalar(c, p, s)
  {
    hide Run, FileEvents, GoodFile, FlattenNodes, GetValue, HoldsScalar;
    OneParamIsRead(c, node, key, One(s));
    FileRun(c, OneParam(node, key, One(s)));
    ScalarHolds(c, s);
    var nodes := ReadFile(c, OneParam(node, key, One(s)));
    p := nodes[0].slots[0].value;
  }

  /** The elements of an array are the values, in order, and no other member is set. */
  ghost predicate Holds(p: Variant, vs: seq<Value>) {
    && p.bool_ == None && p.integer == None && p.double == None && p.string_ == None
    && (forall v :: v in vs ==>
          match v
          case BoolValue(_) => p.boolArray.Some? && p.integerArray == None && p.doubleArray == None && p.stringArray == None
          case IntValue(_) => p.integerArray.Some? && p.boolArray == None && p.doubleArray == None && p.stringArray == None
          case DoubleValue(_) =>
            p.doubleArray.Some? && p.boolArray == None && p.integerArray == None && p.stringArray == None
          case StringValue(_) =>
            p.stringArray.Some? && p.boolArray == None && p.integerArray == None && p.doubleArray == None)
    && (p.boolArray.Some? ==>
          |p.boolArray.value| == |vs| && forall i :: 0 <= i < |vs| ==> vs[i] == BoolValue(p.boolArray.value[i]))
    && (p.integerArray.Some? ==>
          |p.integerArray.value| == |vs| && forall i :: 0 <= i < |vs| ==> vs[i] == IntValue(p.integerArray.value[i]))
    && (p.doubleArray.Some? ==>
          |p.doubleArray.value| == |vs| && forall i :: 0 <= i < |vs| ==> vs[i] == DoubleValue(p.doubleArray.value[i]))
    && (p.stringArray.Some? ==>
          |p.stringArray.value| == |vs| && forall i :: 0 <= i < |vs| ==> vs[i] == StringValue(p.stringArray.value[i]))
  }

  lemma ArrayHolds(vs: seq<Value>)
    requires SameType(vs) && vs != []
    ensures Holds(ArrayVariant(vs), vs)
  {
    assert forall i :: 0 <= i < |vs| ==> TypeOf(vs[i]) == TypeOf(vs[0]);
  }

  /** A sequence of values of one type, from the file to the stored array. */
  method ReadSequence(c: Conversions, node: string, key: string, items: seq<Scalar>) returns (p: Variant)
    requires PlainName(node) && 0 < |key| <= MAX_STRING_SIZE && items != []
    requires (forall s :: s in items ==> FitsScalar(s)) && SameType(Typed(c, items))
    ensures Run(c, INITIAL, FileEvents(OneParam(node, key, Many(items))) + [StreamEnd]).Ok?
    ensures Run(c, INITIAL, FileEvents(OneParam(node, key, Many(items))) + [StreamEnd]).st.nodes
         == [NodeParams(node, [Slot(key, p)], 1)]
    ensures Holds(p, seq(|items|, i requires 0 <= i < |items| => GetValue(c, items[i])))
  {
    hide Run, FileEvents, GoodFile, FlattenNodes, GetValue;
    OneParamIsRead(c, node, key, Many(items));
    FileRun(c, OneParam(node, key, Many(items)));
    var nodes := ReadFile(c, OneParam(node, key, Many(items)));
    p := nodes[0].slots[0].value;
    ArrayHolds(Typed(c, items));
    assert Typed(c, items) == seq(|items|, i requires 0 <= i < |items| => GetValue(c, items[i]));
  }
}
