/** The limits of the reader: what holds for event streams of every kind, and which files fit. */
module YamlLimits {
  import opened Common
  import opened YamlMachine
  import opened YamlFlatten

  // ---------- The limits, over every run ----------

  predicate ShortNs(ns: Option<string>) {
    ns.Some? ==> |ns.value| <= MAX_STRING_SIZE
  }

  predicate NodeWithin(n: NodeParams) {
    && |n.name| <= MAX_STRING_SIZE && n.num <= |n.slots| && n.num <= MAX_NUM_PARAMS_PER_NODE
    && forall i :: 0 <= i < |n.slots| ==> |n.slots[i].name| <= MAX_STRING_SIZE
  }

  /** No more nodes and parameters than there is room for, and no name beyond the limit. */
  predicate WithinLimits(st: State) {
    && |st.nodes| <= MAX_NUM_NODE_ENTRIES && ShortNs(st.nodeNs) && ShortNs(st.paramNs)
    && forall i :: 0 <= i < |st.nodes| ==> NodeWithin(st.nodes[i])
  }

  lemma SetLastWithin(nodes: seq<NodeParams>, n: NodeParams)
    requires |nodes| > 0 && NodeWithin(n) && forall i :: 0 <= i < |nodes| ==> NodeWithin(nodes[i])
    ensures forall i :: 0 <= i < |SetLast(nodes, n)| ==> NodeWithin(SetLast(nodes, n)[i])
  {
  }

  lemma StoreKeepsLimits(st: State, key: string)
    requires WithinLimits(st) && |key| <= MAX_STRING_SIZE && StoreParamName(st, key).Ok?
    ensures WithinLimits(StoreParamName(st, key).st)
  {
    var n := Last(st.nodes);
    if !(st.paramNs.Some? && |st.paramNs.value| + |key| + 2 > MAX_STRING_SIZE) {
      SetLastWithin(st.nodes, PushSlot(n, Join(st.paramNs, key, PARAM_SEP)));
    }
  }

  lemma KeyKeepsLimits(st: State, key: string)
    requires WithinLimits(st) && ParseKey(st, key).Ok?
    ensures WithinLimits(ParseKey(st, key).st)
  {
    if st.mapLevel == PARAMS_LVL {
      if st.isNewMap {
        var n := Last(st.nodes);
        SetLastWithin(st.nodes, n.(num := n.num - 1));
        StoreKeepsLimits(OpenParamMap(st).st, key);
      } else {
        StoreKeepsLimits(st, key);
      }
    }
  }

  lemma ValueKeepsLimits(c: Conversions, st: State, s: Scalar)
    requires WithinLimits(st) && ParseValue(c, st, s).Ok?
    ensures WithinLimits(ParseValue(c, st, s).st)
  {
    hide GetValue, SetScalar, StartArray, AppendToArray;
    var n, st' := Last(st.nodes), ParseValue(c, st, s).st;
    var p := Last(st'.nodes).slots[n.num - 1].value;
    var n' := n.(slots := n.slots[n.num - 1 := n.slots[n.num - 1].(value := p)]);
    assert st'.nodes == SetLast(st.nodes, n');
    SetLastWithin(st.nodes, n');
  }

  lemma StepKeepsLimits(c: Conversions, st: State, e: Event)
    requires WithinLimits(st) && Step(c, st, e).Ok?
    ensures WithinLimits(Step(c, st, e).st)
  {
    match e
    case ScalarEvent(s) =>
      hide ParseKey, ParseValue;
      if st.isKey { KeyKeepsLimits(st, s.text); } else { ValueKeepsLimits(c, st, s); }
    case _ =>
  }

  /** Whatever the stream of events, a run that succeeds has stayed within the limits. */
  lemma {:induction false} RunKeepsLimits(c: Conversions, st: State, es: seq<Event>)
    requires WithinLimits(st) && Run(c, st, es).Ok?
    ensures WithinLimits(Run(c, st, es).st)
    decreases es
  {
    hide Step, WithinLimits;
    if es[0] != StreamEnd {
      StepKeepsLimits(c, st, es[0]);
      RunKeepsLimits(c, Step(c, st, es[0]).st, es[1..]);
    }
  }

  // ---------- More nodes than there is room for ----------

  lemma {:induction false} FoldStops(c: Conversions, st: State, a: seq<Event>, b: seq<Event>)
    requires !Fold(c, st, a).Ok?
    ensures Fold(c, st, a + b) == Fold(c, st, a)
    decreases a
  {
    assert (a + b)[1..] == a[1..] + b;
    if Step(c, st, a[0]).Ok? {
      FoldStops(c, Step(c, st, a[0]).st, a[1..], b);
    }
  }

  lemma {:induction false} RunStops(c: Conversions, st: State, es: seq<Event>)
    requires !Fold(c, st, es).Ok? && StreamEnd !in es
    ensures Run(c, st, es + [StreamEnd]) == Fold(c, st, es)
    decreases es
  {
    assert (es + [StreamEnd])[1..] == es[1..] + [StreamEnd];
    if Step(c, st, es[0]).Ok? {
      RunStops(c, Step(c, st, es[0]).st, es[1..]);
    }
  }

  /** With the table full, the parameters of one more node are announced and its name goes behind the table. */
  lemma NodeBehindTable(c: Conversions, st: State, k: string)
    requires InNodes(st) && FitsNodeKey(st.nodeNs, k) && |st.nodes| == MAX_NUM_NODE_ENTRIES
    ensures Fold(c, st, [Key(k), MappingStart, Key(PARAMS_KEY)]) == Undefined
  {
    EnterNamespace(c, st, k);
    assert FoldOne(c, Inside(st, k), Key(PARAMS_KEY));
    FoldConcat(c, st, [Key(k), MappingStart], [Key(PARAMS_KEY)]);
    assert [Key(k), MappingStart] + [Key(PARAMS_KEY)] == [Key(k), MappingStart, Key(PARAMS_KEY)];
  }

  lemma NodeEntryBehindTable(c: Conversions, st: State, k: string, ps: Params)
    requires InNodes(st) && FitsNodeKey(st.nodeNs, k) && |st.nodes| == MAX_NUM_NODE_ENTRIES
    ensures Fold(c, st, NodeEntry(k, ps)) == Undefined
  {
    hide Step, Fold, InNodes, FitsNodeKey, NodeEntry, ParamEvents;
    NodeBehindTable(c, st, k);
    NodeEntryStarts(k, ps);
    FoldStops(c, st, [Key(k), MappingStart, Key(PARAMS_KEY)], [MappingStart] + ParamEvents(ps) + [MappingEnd, MappingEnd]);
  }

  lemma NodeEntryStarts(k: string, ps: Params)
    ensures NodeEntry(k, ps)
         == [Key(k), MappingStart, Key(PARAMS_KEY)] + ([MappingStart] + ParamEvents(ps) + [MappingEnd, MappingEnd])
  {
    hide ParamEvents;
  }

  lemma NamespaceOverflows(c: Conversions, st: State, k: string, entries: Nodes)
    requires InNodes(st) && FitsNodeKey(st.nodeNs, k)
    requires Fold(c, Inside(st, k), NodeEvents(entries)) == Undefined
    ensures Fold(c, st, [Key(k), MappingStart] + NodeEvents(entries) + [MappingEnd]) == Undefined
  {
    hide Step, Fold;
    EnterNamespace(c, st, k);
    FoldConcat(c, st, [Key(k), MappingStart], NodeEvents(entries));
    FoldStops(c, st, [Key(k), MappingStart] + NodeEvents(entries), [MappingEnd]);
  }

  /** The events of more nodes than fit. */
  lemma {:induction false} NodesOverflow(c: Conversions, st: State, n: Nodes)
    requires InNodes(st) && GoodNodes(c, n, st.nodeNs)
    requires |st.nodes| <= MAX_NUM_NODE_ENTRIES < |st.nodes| + |FlattenNodes(c, n, st.nodeNs)|
    ensures Fold(c, st, NodeEvents(n)) == Undefined
    decreases n
  {
    hide Step, Fold, ParamEvents, FlattenParams;
    match n
    case NoNodes =>
    case Node(k, ps, rest) =>
      var es := NodeEntry(k, ps);
      if |st.nodes| == MAX_NUM_NODE_ENTRIES {
        NodeEntryBehindTable(c, st, k, ps);
        FoldStops(c, st, es, NodeEvents(rest));
      } else {
        NodeEntryRun(c, st, k, ps);
        NodesOverflow(c, Fold(c, st, es).st, rest);
        FoldConcat(c, st, es, NodeEvents(rest));
      }
    case Namespace(k, entries, rest) =>
      var es := [Key(k), MappingStart] + NodeEvents(entries) + [MappingEnd];
      var inner := FlattenNodes(c, entries, Some(Join(st.nodeNs, k, NODE_SEP)));
      EnterNamespace(c, st, k);
      assert Join(st.nodeNs, k, NODE_SEP)[|Join(st.nodeNs, k, NODE_SEP)| - 1] == k[|k| - 1];
      if |st.nodes| + |inner| > MAX_NUM_NODE_ENTRIES {
        NodesOverflow(c, Inside(st, k), entries);
        NamespaceOverflows(c, st, k, entries);
        FoldStops(c, st, es, NodeEvents(rest));
      } else {
        NodesRun(c, Inside(st, k), entries);
        NamespaceEntryRun(c, st, k, entries, inner);
        NodesOverflow(c, Fold(c, st, es).st, rest);
        FoldConcat(c, st, es, NodeEvents(rest));
      }
  }

  lemma FileOverflows(c: Conversions, n: Nodes)
    requires GoodNodes(c, n, None) && |FlattenNodes(c, n, None)| > MAX_NUM_NODE_ENTRIES
    ensures Run(c, INITIAL, FileEvents(n) + [StreamEnd]) == Undefined
  {
    hide Step, Fold, Run;
    var start, end := [StreamStart, DocumentStart, MappingStart], [MappingEnd, DocumentEnd];
    FileStarts(c);
    NodesOverflow(c, INITIAL.(mapDepth := 1, isNewMap := true), n);
    FoldConcat(c, INITIAL, start, NodeEvents(n));
    FoldStops(c, INITIAL, start + NodeEvents(n), end);
    NoStreamEndInNodes(n);
    RunStops(c, INITIAL, FileEvents(n));
  }

  /** A file of well-formed nodes is read as its flattening exactly when it has at most 256 nodes; else memory is overrun. */
  lemma FileIsReadIffItFits(c: Conversions, n: Nodes)
    requires GoodNodes(c, n, None)
    ensures var r, nodes := Run(c, INITIAL, FileEvents(n) + [StreamEnd]), FlattenNodes(c, n, None);
            && (r.Ok? && r.st.nodes == nodes <==> |nodes| <= MAX_NUM_NODE_ENTRIES)
            && (|nodes| > MAX_NUM_NODE_ENTRIES ==> r == Undefined)
  {
    hide Run, GoodNodes;
    if |FlattenNodes(c, n, None)| <= MAX_NUM_NODE_ENTRIES {
      FileRun(c, n);
    } else {
      FileOverflows(c, n);
    }
  }

  /** So many nodes, without parameters. */
  function BareNodes(count: nat): Nodes {
    if count == 0 then NoNodes else Node("n", NoParams, BareNodes(count - 1))
  }

  lemma {:induction false} BareNodesFlatten(c: Conversions, count: nat)
    ensures GoodNodes(c, BareNodes(count), None) && |FlattenNodes(c, BareNodes(count), None)| == count
  {
    if count > 0 {
      BareNodesFlatten(c, count - 1);
      assert "n"[0] != PARAMS_KEY[0];
    }
  }

  /** The 257th node. */
  lemma OneNodeTooMany(c: Conversions)
    ensures Run(c, INITIAL, FileEvents(BareNodes(257)) + [StreamEnd]) == Undefined
  {
    BareNodesFlatten(c, 257);
    FileOverflows(c, BareNodes(257));
  }
}
