/**
 What holds between any two events of a well-formed file: the reader's flags, counters and namespace strings
 are those of the maps that are open at that point.
 */
module YamlInvariant {
  import opened Common
  import opened YamlMachine
  import opened YamlFlatten

  // ---------- Where in the file an event is ----------

  /** Before, at the key of, inside and after the `ros__parameters` map of a node. */
  datatype Section = Outside | Announced | Inside | Left

  /**
   The open maps, followed along the events without any of the reader's machinery: the keys of the open namespace and
   node maps, those of the open parameter maps, and the key that still waits for its value.
   */
  datatype Place = Place(
    started: bool, nodes: seq<string>, section: Section, params: seq<string>, pending: Option<string>,
    justOpened: bool, inSeq: bool)

  const BEFORE := Place(false, [], Outside, [], None, false, false)

  function DropLast<T>(s: seq<T>): seq<T> {
    if s == [] then [] else s[..|s| - 1]
  }

  function Follow(x: Place, e: Event): Place {
    match e
    case ScalarEvent(s) =>
      if x.inSeq then x
      else if x.pending.Some? then x.(pending := None)
      else if x.section == Outside && PARAMS_KEY <= s.text then x.(section := Announced, pending := Some(s.text))
      else x.(pending := Some(s.text), justOpened := false)
    case SequenceStart => x.(inSeq := true)
    case SequenceEnd => x.(inSeq := false, pending := None)
    case MappingStart =>
      var y := x.(pending := None);
      if !x.started || x.pending.None? then y.(started := true)
      else if x.section == Outside then y.(nodes := x.nodes + [x.pending.value])
      else if x.section == Announced then y.(section := Inside, params := [])
      else y.(params := x.params + [x.pending.value], justOpened := true)
    case MappingEnd =>
      if x.section == Inside && x.params == [] then x.(section := Left)
      else if x.section == Inside then x.(params := DropLast(x.params), justOpened := false)
      else if x.nodes == [] then x.(started := false)
      else x.(nodes := DropLast(x.nodes), section := Outside)
    case _ => x
  }

  function FollowAll(x: Place, es: seq<Event>): Place
    decreases es
  {
    if es == [] then x else FollowAll(Follow(x, es[0]), es[1..])
  }

  // ---------- The link between the reader and the place ----------

  function JoinAll(keys: seq<string>, sep: char): Option<string> {
    if keys == [] then None else Some(Join(JoinAll(keys[..|keys| - 1], sep), keys[|keys| - 1], sep))
  }

  function OpenMaps(x: Place): nat {
    (if x.started then 1 else 0) + |x.nodes| + (if x.section == Inside then 1 + |x.params| else 0)
  }

  /** The names in the node namespace: the reader drops the node's own name when its parameters are announced. */
  function NodeNames(x: Place): seq<string> {
    if x.section == Outside then x.nodes + (if x.pending.Some? then [x.pending.value] else [])
    else DropLast(x.nodes)
  }

  /** The names in the parameter namespace: a map's own key is added with the first key inside it. */
  function ParamNames(x: Place): seq<string> {
    if x.justOpened then DropLast(x.params) else x.params
  }

  /** Non-empty keys, and no separator but in the first one, all together within the limit. */
  predicate PathOk(keys: seq<string>, sep: char) {
    && (forall i :: 0 <= i < |keys| ==> keys[i] != "")
    && (forall i :: 1 <= i < |keys| ==> sep !in keys[i])
    && (keys != [] ==> |JoinAll(keys, sep).value| <= MAX_STRING_SIZE)
  }

  /** Keys are where keys can be. */
  predicate PlaceOk(x: Place) {
    && (x.inSeq ==> x.pending.Some? && x.section == Inside)
    && (!x.started ==> x.nodes == [] && x.section == Outside && x.pending.None?)
    && (x.section != Outside ==> x.nodes != [])
    && (x.section == Announced ==> x.pending.Some?) && (x.section == Left ==> x.pending.None?)
    && (x.section != Inside ==> x.params == []) && (x.justOpened ==> x.params != [] && x.pending.None?)
    && PathOk(x.nodes, NODE_SEP) && PathOk(x.params, PARAM_SEP)
    && (x.section == Outside ==> PathOk(NodeNames(x), NODE_SEP))
    && (x.section == Inside && x.pending.Some? ==> FitsName(JoinAll(x.params, PARAM_SEP), x.pending.value))
  }

  /** The name of the last stored parameter. */
  predicate LastNameIs(st: State, name: Option<string>) {
    && |st.nodes| > 0 && 0 < Last(st.nodes).num <= |Last(st.nodes).slots|
    && name == Some(Last(st.nodes).slots[Last(st.nodes).num - 1].name)
  }

  /**
   Both namespace strings are the separator-joins of the open keys, the counters are their lengths, the depth is the number
   of open maps, and the last slot is named after the key whose value, or map, comes next.
   */
  predicate Linked(st: State, x: Place) {
    && PlaceOk(x)
    && st.mapDepth == OpenMaps(x)
    && st.isSeq == x.inSeq && (st.isKey <==> x.pending.None?)
    && st.mapLevel == (if x.section == Announced || x.section == Inside then PARAMS_LVL else NODE_NAME_LVL)
    && st.nodeNs == JoinAll(NodeNames(x), NODE_SEP) && st.numNodeNs == |NodeNames(x)|
    && st.paramNs == JoinAll(ParamNames(x), PARAM_SEP) && st.numParamNs == |ParamNames(x)|
    && (x.section == Inside ==> st.isNewMap == x.justOpened)
    && (x.section == Inside && x.justOpened ==> LastNameIs(st, JoinAll(x.params, PARAM_SEP)))
    && (x.section == Inside && x.pending.Some? ==>
          LastNameIs(st, Some(Join(JoinAll(x.params, PARAM_SEP), x.pending.value, PARAM_SEP))))
  }

  predicate EndsIn(s: string, c: char) {
    s != "" && s[|s| - 1] == c
  }

  /** What a well-formed file guarantees of its next event. */
  predicate Expected(x: Place, e: Event) {
    match e
    case ScalarEvent(s) =>
      x.inSeq || (x.pending.Some? && x.section == Inside) ||
      (x.started && x.pending.None? && x.section != Left && (
        if x.section == Inside then FitsName(JoinAll(x.params, PARAM_SEP), s.text)
        else if PARAMS_KEY <= s.text then x.nodes != [] && x.section == Outside
        else FitsName(JoinAll(x.nodes, NODE_SEP), s.text)
             && (x.nodes != [] ==> NODE_SEP !in s.text && !EndsIn(x.nodes[|x.nodes| - 1], NODE_SEP))))
    case SequenceStart => x.section == Inside && x.pending.Some? && !x.inSeq
    case SequenceEnd => x.inSeq
    case MappingStart =>
      !x.inSeq && (if x.started
                   then x.pending.Some? && (x.section == Inside && x.params != [] ==> PARAM_SEP !in x.pending.value)
                   else true)
    case MappingEnd => x.started && x.pending.None? && !x.justOpened
    case AliasEvent => false
    case NoEvent => false
    case _ => true
  }

  // ---------- Joined names ----------

  lemma JoinAllStep(keys: seq<string>, k: string, sep: char)
    ensures JoinAll(keys + [k], sep) == Some(Join(JoinAll(keys, sep), k, sep))
  {
    assert (keys + [k])[..|keys|] == keys;
  }

  lemma {:induction false} JoinAllLength(keys: seq<string>, sep: char)
    requires keys != [] && forall i :: 0 <= i < |keys| ==> keys[i] != ""
    ensures JoinAll(keys, sep).Some? && |keys| <= |JoinAll(keys, sep).value|
    ensures |keys[|keys| - 1]| <= |JoinAll(keys, sep).value|
    ensures JoinAll(keys, sep).value[|JoinAll(keys, sep).value| - 1] == keys[|keys| - 1][|keys[|keys| - 1]| - 1]
    decreases keys
  {
    if |keys| > 1 {
      JoinAllLength(keys[..|keys| - 1], sep);
    }
  }

  lemma PathOkDrop(keys: seq<string>, sep: char)
    requires PathOk(keys, sep)
    ensures PathOk(DropLast(keys), sep)
  {
    if |keys| > 1 {
      JoinAllLength(keys[..|keys| - 1], sep);
    }
  }

  /** The counters stay far below their range. */
  lemma PathOkLength(keys: seq<string>, sep: char)
    requires PathOk(keys, sep)
    ensures |keys| <= MAX_STRING_SIZE
  {
    if keys != [] {
      JoinAllLength(keys, sep);
    }
  }

  lemma PathOkExtend(keys: seq<string>, k: string, sep: char)
    requires PathOk(keys, sep) && FitsName(JoinAll(keys, sep), k) && (keys != [] ==> sep !in k)
    ensures PathOk(keys + [k], sep)
  {
    JoinAllStep(keys, k, sep);
    if keys != [] { JoinAllLength(keys, sep); }
  }

  /** Taking the last name off the joined string gives the joined string of the others. */
  lemma RemNameOfPath(keys: seq<string>, sep: char)
    requires PathOk(keys, sep)
    ensures RemName(JoinAll(keys, sep), |keys|, sep) == NsOk(JoinAll(DropLast(keys), sep), |DropLast(keys)|)
  {
    if |keys| > 1 {
      JoinAllLength(keys[..|keys| - 1], sep);
      LastIndexOfJoined(JoinAll(keys[..|keys| - 1], sep).value, sep, keys[|keys| - 1]);
    }
  }

  lemma AddNameToPath(keys: seq<string>, k: string, sep: char)
    requires PathOk(keys, sep) && FitsName(JoinAll(keys, sep), k)
    requires keys != [] ==> !EndsIn(keys[|keys| - 1], sep)
    ensures AddName(JoinAll(keys, sep), |keys|, k, sep) == NsOk(JoinAll(keys + [k], sep), |keys| + 1)
  {
    JoinAllStep(keys, k, sep);
    PathOkLength(keys, sep);
    if keys != [] {
      JoinAllLength(keys, sep);
    }
  }

  // ---------- One event ----------

  lemma NodeKeyKeeps(c: Conversions, st: State, x: Place, s: Scalar)
    requires Linked(st, x) && Expected(x, ScalarEvent(s)) && x.section == Outside && x.pending.None? && !x.inSeq
    requires Step(c, st, ScalarEvent(s)).Ok?
    ensures Linked(Step(c, st, ScalarEvent(s)).st, Follow(x, ScalarEvent(s)))
  {
    hide JoinAll, PathOk;
    assert x.nodes + [] == x.nodes;
    if PARAMS_KEY <= s.text {
      RemNameOfPath(x.nodes, NODE_SEP);
    } else {
      AddNameToPath(x.nodes, s.text, NODE_SEP);
      PathOkExtend(x.nodes, s.text, NODE_SEP);
    }
  }

  lemma StoredName(st: State, key: string)
    requires FitsName(st.paramNs, key) && StoreParamName(st, key).Ok?
    ensures var st' := StoreParamName(st, key).st;
            st' == st.(nodes := st'.nodes) && LastNameIs(st', Some(Join(st.paramNs, key, PARAM_SEP)))
  {
  }

  lemma ParamKeyKeeps(c: Conversions, st: State, x: Place, s: Scalar)
    requires Linked(st, x) && Expected(x, ScalarEvent(s)) && x.section == Inside && x.pending.None? && !x.inSeq
    requires Step(c, st, ScalarEvent(s)).Ok?
    ensures Linked(Step(c, st, ScalarEvent(s)).st, Follow(x, ScalarEvent(s)))
  {
    hide PathOk, JoinAll;
    PathOkLength(x.params, PARAM_SEP);
    if x.justOpened {
      var st1 := OpenParamMap(st).st;
      assert st1.paramNs == JoinAll(x.params, PARAM_SEP) && st1.numParamNs == |x.params|;
      StoredName(st1, s.text);
    } else {
      StoredName(st, s.text);
    }
  }

  lemma ScalarKeeps(c: Conversions, st: State, x: Place, s: Scalar)
    requires Linked(st, x) && Expected(x, ScalarEvent(s)) && Step(c, st, ScalarEvent(s)).Ok?
    ensures Linked(Step(c, st, ScalarEvent(s)).st, Follow(x, ScalarEvent(s)))
  {
    hide JoinAll, PathOk;
    if x.pending.None? && !x.inSeq {
      if x.section == Outside {
        NodeKeyKeeps(c, st, x, s);
      } else {
        ParamKeyKeeps(c, st, x, s);
      }
    }
  }

  /** Without wrap-around of the counters. */
  lemma DeeperByOne(st: State)
    requires st.mapDepth < 1000 && st.numNodeNs < 1000
    ensures StepMappingStart(st)
         == Ok(st.(mapDepth := st.mapDepth + 1, isKey := true,
                   isNewMap := !(st.mapLevel == PARAMS_LVL && st.mapDepth == st.numNodeNs + 2)))
  {
  }

  lemma LeavingNamespace(st: State)
    requires 0 < st.mapDepth < 1000 && st.numNodeNs < 1000 && st.mapLevel == NODE_NAME_LVL
    ensures StepMappingEnd(st)
         == if st.mapDepth != st.numNodeNs + 1 then Ok(st.(mapDepth := st.mapDepth - 1))
            else match RemName(st.nodeNs, st.numNodeNs, NODE_SEP)
                 case NsOk(ns, n) => Ok(st.(mapDepth := st.mapDepth - 1, nodeNs := ns, numNodeNs := n))
                 case NsError => Error
                 case NsUndefined => Undefined
  {
  }

  lemma MappingStartKeeps(c: Conversions, st: State, x: Place)
    requires Linked(st, x) && Expected(x, MappingStart)
    ensures Step(c, st, MappingStart).Ok? && Linked(Step(c, st, MappingStart).st, Follow(x, MappingStart))
  {
    hide JoinAll, PathOk, StepMappingStart;
    PathOkLength(x.nodes, NODE_SEP);
    PathOkLength(x.params, PARAM_SEP);
    DeeperByOne(st);
    var y := Follow(x, MappingStart);
    if x.started && x.section == Inside {
      var k := x.pending.value;
      JoinAllStep(x.params, k, PARAM_SEP);
      PathOkExtend(x.params, k, PARAM_SEP);
      assert DropLast(y.params) == x.params;
    } else if x.started && x.section == Outside {
      PathOkLength(NodeNames(x), NODE_SEP);
      assert y.nodes + [] == y.nodes;
    } else {
      assert NodeNames(y) == NodeNames(x);
    }
  }

  lemma ParamMapEndKeeps(c: Conversions, st: State, x: Place)
    requires Linked(st, x) && Expected(x, MappingEnd) && x.section == Inside
    ensures Step(c, st, MappingEnd).Ok? && Linked(Step(c, st, MappingEnd).st, Follow(x, MappingEnd))
  {
    hide JoinAll, PathOk;
    PathOkLength(x.nodes, NODE_SEP);
    PathOkLength(x.params, PARAM_SEP);
    RemNameOfPath(x.params, PARAM_SEP);
    PathOkDrop(x.params, PARAM_SEP);
  }

  lemma NamespaceEndKeeps(c: Conversions, st: State, x: Place)
    requires Linked(st, x) && Expected(x, MappingEnd) && x.section == Outside
    ensures Step(c, st, MappingEnd).Ok? && Linked(Step(c, st, MappingEnd).st, Follow(x, MappingEnd))
  {
    hide JoinAll, PathOk, RemName, StepMappingEnd;
    PathOkLength(x.nodes, NODE_SEP);
    RemNameOfPath(x.nodes, NODE_SEP);
    PathOkDrop(x.nodes, NODE_SEP);
    assert NodeNames(x) == x.nodes;
    LeavingNamespace(st);
    var y := Follow(x, MappingEnd);
    assert y.nodes == DropLast(x.nodes) && NodeNames(y) == y.nodes;
  }

  lemma NodeEndKeeps(c: Conversions, st: State, x: Place)
    requires Linked(st, x) && Expected(x, MappingEnd) && x.section == Left
    ensures Step(c, st, MappingEnd).Ok? && Linked(Step(c, st, MappingEnd).st, Follow(x, MappingEnd))
  {
    hide JoinAll, PathOk, RemName, StepMappingEnd;
    PathOkLength(x.nodes, NODE_SEP);
    PathOkDrop(x.nodes, NODE_SEP);
    LeavingNamespace(st);
    var y := Follow(x, MappingEnd);
    assert y.nodes == DropLast(x.nodes) && NodeNames(y) == y.nodes == NodeNames(x);
  }

  /** Every expected event keeps the link. */
  lemma EventKeepsLink(c: Conversions, st: State, x: Place, e: Event)
    requires Linked(st, x) && Expected(x, e) && Step(c, st, e).Ok?
    ensures Linked(Step(c, st, e).st, Follow(x, e))
  {
    hide JoinAll, PathOk;
    match e
    case ScalarEvent(s) => ScalarKeeps(c, st, x, s);
    case MappingStart => MappingStartKeeps(c, st, x);
    case MappingEnd =>
      if x.section == Inside { ParamMapEndKeeps(c, st, x); }
      else if x.section == Outside { NamespaceEndKeeps(c, st, x); }
      else { NodeEndKeeps(c, st, x); }
    case _ =>
  }

  // ---------- A whole file ----------

  /** Every event of `es` is expected where it comes. */
  ghost predicate Smooth(x: Place, es: seq<Event>)
    decreases es
  {
    es == [] || (Expected(x, es[0]) && Smooth(Follow(x, es[0]), es[1..]))
  }

  lemma {:induction false} SmoothConcat(x: Place, a: seq<Event>, b: seq<Event>)
    requires Smooth(x, a)
    ensures FollowAll(x, a + b) == FollowAll(FollowAll(x, a), b)
    ensures Smooth(FollowAll(x, a), b) ==> Smooth(x, a + b)
    decreases a
  {
    hide Expected, Follow;
    if a == [] {
      assert a + b == b;
    } else {
      assert (a + b)[1..] == a[1..] + b;
      SmoothConcat(Follow(x, a[0]), a[1..], b);
    }
  }

  /** `es` is smooth from `x` and leads to `y`. */
  ghost predicate Leads(x: Place, es: seq<Event>, y: Place) {
    Smooth(x, es) && FollowAll(x, es) == y
  }

  lemma LeadsOn(x: Place, a: seq<Event>, y: Place, b: seq<Event>, z: Place)
    requires Leads(x, a, y) && Leads(y, b, z)
    ensures Leads(x, a + b, z)
  {
    SmoothConcat(x, a, b);
  }

  lemma LeadsOne(x: Place, e: Event)
    requires Expected(x, e)
    ensures Leads(x, [e], Follow(x, e))
  {
    hide Expected, Follow;
    assert [e][0] == e && [e][1..] == [];
    assert Smooth(Follow(x, e), []) && FollowAll(Follow(x, e), []) == Follow(x, e);
  }

  lemma {:induction false} ItemsLead(x: Place, items: seq<Scalar>)
    requires x.inSeq
    ensures Leads(x, ItemEvents(items), x)
    decreases items
  {
    if items != [] {
      assert ItemEvents(items)[1..] == ItemEvents(items[1..]);
      ItemsLead(x, items[1..]);
    }
  }

  lemma ValueLeads(x: Place, v: ParamValue)
    requires x.section == Inside && x.pending.Some? && !x.inSeq
    ensures Leads(x, ValueEvents(v), x.(pending := None))
  {
    match v
    case One(s) => LeadsOne(x, ScalarEvent(s));
    case Many(items) =>
      var y := x.(inSeq := true);
      LeadsOne(x, SequenceStart);
      ItemsLead(y, items);
      LeadsOne(y, SequenceEnd);
      LeadsOn(x, [SequenceStart], y, ItemEvents(items), y);
      LeadsOn(x, [SequenceStart] + ItemEvents(items), y, [SequenceEnd], x.(pending := None));
  }

  predicate AtParamKey(x: Place) {
    x.started && x.section == Inside && x.pending.None? && !x.inSeq
  }

  lemma {:induction false} ParamsLead(c: Conversions, x: Place, p: Params)
    requires AtParamKey(x) && GoodParams(c, p, JoinAll(x.params, PARAM_SEP))
    ensures Leads(x, ParamEvents(p), if p == NoParams then x else x.(justOpened := false))
    decreases p
  {
    hide JoinAll;
    match p
    case NoParams =>
    case Param(k, v, rest) =>
      var y := x.(justOpened := false);
      LeadsOne(x, Key(k));
      ValueLeads(y.(pending := Some(k)), v);
      LeadsOn(x, [Key(k)], y.(pending := Some(k)), ValueEvents(v), y);
      ParamsLead(c, y, rest);
      LeadsOn(x, [Key(k)] + ValueEvents(v), y, ParamEvents(rest), y);
    case ParamMap(k, entries, rest) =>
      var y := x.(justOpened := false);
      var inner := y.(params := x.params + [k], justOpened := true);
      JoinAllStep(x.params, k, PARAM_SEP);
      ParamsLead(c, inner, entries);
      ParamMapLeads(c, x, k, entries);
      ParamsLead(c, y, rest);
      LeadsOn(x, [Key(k), MappingStart] + ParamEvents(entries) + [MappingEnd], y, ParamEvents(rest), y);
  }

  lemma NoneIsEmpty(keys: seq<string>, sep: char)
    ensures JoinAll(keys, sep).None? <==> keys == []
  {
  }

  lemma ParamMapLeads(c: Conversions, x: Place, k: string, entries: Params)
    requires AtParamKey(x) && FitsName(JoinAll(x.params, PARAM_SEP), k)
    requires (JoinAll(x.params, PARAM_SEP).Some? ==> PARAM_SEP !in k)
    requires var inner := x.(params := x.params + [k], justOpened := true);
             Leads(inner, ParamEvents(entries), inner.(justOpened := false))
    ensures Leads(x, [Key(k), MappingStart] + ParamEvents(entries) + [MappingEnd], x.(justOpened := false))
  {
    hide JoinAll, Smooth, FollowAll;
    NoneIsEmpty(x.params, PARAM_SEP);
    var y := x.(justOpened := false, pending := Some(k));
    var inner := x.(params := x.params + [k], justOpened := true);
    LeadsOne(x, Key(k));
    LeadsOne(y, MappingStart);
    LeadsOn(x, [Key(k)], y, [MappingStart], inner);
    assert [Key(k), MappingStart] == [Key(k)] + [MappingStart];
    LeadsOn(x, [Key(k), MappingStart], inner, ParamEvents(entries), inner.(justOpened := false));
    LeadsOne(inner.(justOpened := false), MappingEnd);
    assert DropLast(x.params + [k]) == x.params;
    LeadsOn(x, [Key(k), MappingStart] + ParamEvents(entries), inner.(justOpened := false),
            [MappingEnd], x.(justOpened := false));
  }

  predicate AtNodeKey(x: Place) {
    && x.started && x.section == Outside && x.params == [] && x.pending.None? && !x.inSeq && !x.justOpened
    && (x.nodes != [] ==> !EndsIn(x.nodes[|x.nodes| - 1], NODE_SEP))
  }

  lemma EnterLeads(x: Place, k: string)
    requires AtNodeKey(x) && FitsNodeKey(JoinAll(x.nodes, NODE_SEP), k)
    ensures Leads(x, [Key(k), MappingStart], x.(nodes := x.nodes + [k]))
  {
    hide JoinAll, Smooth, FollowAll;
    NoneIsEmpty(x.nodes, NODE_SEP);
    var y := x.(pending := Some(k));
    LeadsOne(x, Key(k));
    LeadsOne(y, MappingStart);
    LeadsOn(x, [Key(k)], y, [MappingStart], x.(nodes := x.nodes + [k]));
    assert [Key(k), MappingStart] == [Key(k)] + [MappingStart];
  }

  lemma NodeLeads(c: Conversions, x: Place, k: string, ps: Params)
    requires AtNodeKey(x) && FitsNodeKey(JoinAll(x.nodes, NODE_SEP), k) && GoodParams(c, ps, None)
    ensures Leads(x, NodeEntry(k, ps), x)
  {
    hide Smooth, FollowAll;
    EnterLeads(x, k);
    var y := x.(nodes := x.nodes + [k]);
    var y1 := y.(section := Announced, pending := Some(PARAMS_KEY));
    var y2 := y.(section := Inside);
    var y3 := y.(section := Left);
    LeadsOne(y, Key(PARAMS_KEY));
    LeadsOne(y1, MappingStart);
    LeadsOn(y, [Key(PARAMS_KEY)], y1, [MappingStart], y2);
    LeadsOn(x, [Key(k), MappingStart], y, [Key(PARAMS_KEY)] + [MappingStart], y2);
    var enter := [Key(k), MappingStart, Key(PARAMS_KEY), MappingStart];
    assert enter == [Key(k), MappingStart] + ([Key(PARAMS_KEY)] + [MappingStart]);
    ParamsLead(c, y2, ps);
    LeadsOne(y2, MappingEnd);
    LeadsOne(y3, MappingEnd);
    assert DropLast(x.nodes + [k]) == x.nodes;
    LeadsOn(y2, [MappingEnd], y3, [MappingEnd], x);
    assert [MappingEnd, MappingEnd] == [MappingEnd] + [MappingEnd];
    LeadsOn(x, enter, y2, ParamEvents(ps), y2);
    LeadsOn(x, enter + ParamEvents(ps), y2, [MappingEnd, MappingEnd], x);
  }

  lemma NamespaceLeads(x: Place, k: string, entries: Nodes)
    requires AtNodeKey(x) && FitsNodeKey(JoinAll(x.nodes, NODE_SEP), k)
    requires var y := x.(nodes := x.nodes + [k]); Leads(y, NodeEvents(entries), y)
    ensures Leads(x, [Key(k), MappingStart] + NodeEvents(entries) + [MappingEnd], x)
  {
    hide JoinAll, Smooth, FollowAll;
    EnterLeads(x, k);
    var y := x.(nodes := x.nodes + [k]);
    LeadsOn(x, [Key(k), MappingStart], y, NodeEvents(entries), y);
    LeadsOne(y, MappingEnd);
    assert DropLast(x.nodes + [k]) == x.nodes;
    LeadsOn(x, [Key(k), MappingStart] + NodeEvents(entries), y, [MappingEnd], x);
  }

  lemma {:induction false} NodesLead(c: Conversions, x: Place, n: Nodes)
    requires AtNodeKey(x) && GoodNodes(c, n, JoinAll(x.nodes, NODE_SEP))
    ensures Leads(x, NodeEvents(n), x)
    decreases n
  {
    hide JoinAll;
    match n
    case NoNodes =>
    case Node(k, ps, rest) =>
      NodeLeads(c, x, k, ps);
      NodesLead(c, x, rest);
      LeadsOn(x, NodeEntry(k, ps), x, NodeEvents(rest), x);
    case Namespace(k, entries, rest) =>
      JoinAllStep(x.nodes, k, NODE_SEP);
      NodesLead(c, x.(nodes := x.nodes + [k]), entries);
      NamespaceLeads(x, k, entries);
      NodesLead(c, x, rest);
      LeadsOn(x, [Key(k), MappingStart] + NodeEvents(entries) + [MappingEnd], x, NodeEvents(rest), x);
  }

  lemma FileLeads(c: Conversions, n: Nodes)
    requires GoodNodes(c, n, None)
    ensures Leads(BEFORE, FileEvents(n), BEFORE)
  {
    var x := BEFORE.(started := true);
    LeadsOne(BEFORE, StreamStart);
    LeadsOne(BEFORE, DocumentStart);
    LeadsOne(BEFORE, MappingStart);
    LeadsOne(x, MappingEnd);
    LeadsOne(BEFORE, DocumentEnd);
    hide Leads;
    LeadsOn(BEFORE, [StreamStart], BEFORE, [DocumentStart], BEFORE);
    LeadsOn(BEFORE, [StreamStart] + [DocumentStart], BEFORE, [MappingStart], x);
    var start := [StreamStart, DocumentStart, MappingStart];
    assert start == [StreamStart] + [DocumentStart] + [MappingStart];
    NodesLead(c, x, n);
    LeadsOn(BEFORE, start, x, NodeEvents(n), x);
    LeadsOn(x, [MappingEnd], BEFORE, [DocumentEnd], BEFORE);
    assert [MappingEnd, DocumentEnd] == [MappingEnd] + [DocumentEnd];
    LeadsOn(BEFORE, start + NodeEvents(n), x, [MappingEnd, DocumentEnd], BEFORE);
  }

  lemma {:induction false} LinkedAlong(c: Conversions, st: State, x: Place, es: seq<Event>, k: nat)
    requires Linked(st, x) && Smooth(x, es) && Fold(c, st, es).Ok? && k <= |es|
    ensures var r := Fold(c, st, es[..k]); r.Ok? && Linked(r.st, FollowAll(x, es[..k]))
    decreases k
  {
    hide Linked, Step, Expected, Follow;
    if k > 0 {
      EventKeepsLink(c, st, x, es[0]);
      LinkedAlong(c, Step(c, st, es[0]).st, Follow(x, es[0]), es[1..], k - 1);
      assert es[..k][1..] == es[1..][..k - 1] && es[..k][0] == es[0];
    }
  }

  /** After every event of a well-formed file the reader is linked to the place reached. */
  lemma LinkedAtEveryEvent(c: Conversions, n: Nodes, k: nat)
    requires GoodFile(c, n) && k <= |FileEvents(n)|
    ensures var r := Fold(c, INITIAL, FileEvents(n)[..k]);
            r.Ok? && Linked(r.st, FollowAll(BEFORE, FileEvents(n)[..k]))
  {
    FileFold(c, n);
    FileLeads(c, n);
    LinkedAlong(c, INITIAL, BEFORE, FileEvents(n), k);
  }
}
