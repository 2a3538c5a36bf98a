/** Names the reader does not treat as promised: over-long ones, and keys that end in the separator. */
module YamlNames {
  import opened Common
  import opened YamlMachine
  import opened YamlFlatten

  // ---------- An over-long parameter name ----------

  /** Between two entries of a parameter map; a slot given back may still be there behind the live ones. */
  predicate AtEntry(st: State) {
    && st.mapLevel == PARAMS_LVL && st.isKey && !st.isSeq && !st.isNewMap
    && NsShape(st.nodeNs, st.numNodeNs) && NsShape(st.paramNs, st.numParamNs)
    && st.mapDepth == st.numNodeNs + 3 + st.numParamNs
    && |st.nodes| > 0 && Last(st.nodes).num <= |Last(st.nodes).slots| && Last(st.nodes).num < MAX_NUM_PARAMS_PER_NODE
  }

  /** A key was read and nothing stored for it. */
  function Dropped(st: State): State {
    st.(isKey := false)
  }

  /** Inside the map `m`, whose own key has given its slot back. */
  function Vacated(st: State, m: string): State
    requires |st.nodes| > 0
  {
    var n := Last(st.nodes);
    Entered(st, m).(nodes := SetLast(st.nodes, n.(slots := n.slots + [Slot(Join(st.paramNs, m, PARAM_SEP), EMPTY_VARIANT)])))
  }

  /** An over-long key is dropped without an error. */
  lemma OverlongKeyIsDropped(c: Conversions, st: State, k: string)
    requires AtEntry(st) && 0 < |k| <= MAX_STRING_SIZE && !FitsName(st.paramNs, k)
    ensures Fold(c, st, [Key(k)]) == Ok(Dropped(st))
  {
    assert FoldOne(c, st, Key(k));
  }

  lemma OpenMap(c: Conversions, st: State, m: string)
    requires InParams(st) && FitsName(st.paramNs, m) && |Last(st.nodes).slots| < MAX_NUM_PARAMS_PER_NODE
    ensures var slot := Slot(Join(st.paramNs, m, PARAM_SEP), EMPTY_VARIANT);
            Fold(c, st, [Key(m), MappingStart])
            == Ok(AddSlots(st, [slot]).(mapDepth := st.mapDepth + 1, isKey := true, isNewMap := true))
  {
    hide Step;
    ParamKeyStep(c, st, m);
    var st1 := AddSlots(st, [Slot(Join(st.paramNs, m, PARAM_SEP), EMPTY_VARIANT)]).(isKey := false);
    assert FoldOne(c, st, Key(m)) && FoldOne(c, st1, MappingStart);
    assert [Key(m), MappingStart] == [Key(m)] + [MappingStart];
    FoldConcat(c, st, [Key(m)], [MappingStart]);
    ParamMapStarts(c, st, st1);
  }

  /** So is one that comes first in a nested map, which has taken back the slot of the map's own key by then. */
  lemma OverlongFirstKeyIsDropped(c: Conversions, st: State, m: string, k: string)
    requires InParams(st) && FitsName(st.paramNs, m) && |Last(st.nodes).slots| < MAX_NUM_PARAMS_PER_NODE
    requires 0 < |k| <= MAX_STRING_SIZE && !FitsName(Some(Join(st.paramNs, m, PARAM_SEP)), k)
    ensures AtEntry(Vacated(st, m)) && Fold(c, st, [Key(m), MappingStart, Key(k)]) == Ok(Dropped(Vacated(st, m)))
  {
    OpenMap(c, st, m);
    var n, name := Last(st.nodes), Join(st.paramNs, m, PARAM_SEP);
    var st2 := AddSlots(st, [Slot(name, EMPTY_VARIANT)]).(mapDepth := st.mapDepth + 1, isKey := true, isNewMap := true);
    assert Last(st2.nodes) == n.(slots := n.slots + [Slot(name, EMPTY_VARIANT)], num := n.num + 1);
    assert st2.nodes[..|st.nodes| - 1] == st.nodes[..|st.nodes| - 1];
    assert Step(c, st2, Key(k)) == Ok(Dropped(Vacated(st, m)));
    assert FoldOne(c, st2, Key(k));
    FoldConcat(c, st, [Key(m), MappingStart], [Key(k)]);
    assert [Key(m), MappingStart] + [Key(k)] == [Key(m), MappingStart, Key(k)];
  }

  /** A scalar after a dropped key goes to the live parameter before it; without one the run fails. */
  lemma DroppedScalar(c: Conversions, st: State, s: Scalar)
    requires AtEntry(st) && FitsScalar(s)
    ensures var n := Last(st.nodes);
            Fold(c, Dropped(st), [ScalarEvent(s)])
            == if n.num == 0 then Error
               else Ok(WithLastValue(st, SetScalar(n.slots[n.num - 1].value, GetValue(c, s))))
  {
    hide GetValue;
    assert FoldOne(c, Dropped(st), ScalarEvent(s));
  }

  /** What a map after a dropped key does to the live parameter before it. */
  function Renamed(st: State, x: string): State
    requires AtEntry(st) && Last(st.nodes).num > 0
  {
    var n := Last(st.nodes);
    var p := n.slots[n.num - 1];
    var n' := if FitsName(Some(p.name), x) then n.(slots := n.slots[n.num - 1 := p.(name := Join(Some(p.name), x, PARAM_SEP))])
              else n.(num := n.num - 1);
    st.(nodes := SetLast(st.nodes, n'), paramNs := Some(p.name), numParamNs := st.numParamNs + 1, mapDepth := st.mapDepth + 1,
        isKey := false)
  }

  /**
   A map after a dropped key takes the parameter before it for its own key: that parameter is lost, its value stays in the
   slot under the name of the first inner key. Without such a parameter the count of parameters falls below zero.
   */
  lemma DroppedMap(c: Conversions, st: State, x: string)
    requires AtEntry(st) && 0 < |x| <= MAX_STRING_SIZE
    ensures Fold(c, Dropped(st), [MappingStart, Key(x)])
         == if Last(st.nodes).num == 0 then Undefined else Ok(Renamed(st, x))
  {
    var st1 := st.(mapDepth := st.mapDepth + 1, isNewMap := true);
    assert Step(c, Dropped(st), MappingStart) == Ok(st1);
    hide Step;
    assert FoldOne(c, Dropped(st), MappingStart) && FoldOne(c, st1, Key(x));
    FoldConcat(c, Dropped(st), [MappingStart], [Key(x)]);
    assert [MappingStart] + [Key(x)] == [MappingStart, Key(x)];
    DroppedMapKey(c, st, x);
  }

  lemma DroppedMapKey(c: Conversions, st: State, x: string)
    requires AtEntry(st) && 0 < |x| <= MAX_STRING_SIZE
    ensures Step(c, st.(mapDepth := st.mapDepth + 1, isNewMap := true), Key(x))
         == if Last(st.nodes).num == 0 then Undefined else Ok(Renamed(st, x))
  {
    var n, st1 := Last(st.nodes), st.(mapDepth := st.mapDepth + 1, isNewMap := true);
    if n.num > 0 {
      var st2 := OpenParamMap(st1).st;
      assert Last(st2.nodes) == n.(num := n.num - 1) && st2.nodes[..|st.nodes| - 1] == st.nodes[..|st.nodes| - 1];
      hide NsShape, Join;
    }
  }

  /** A scalar parameter between two entries is stored under its full name exactly when that name fits. */
  lemma OverlongNameHitsPrevious(c: Conversions, st: State, k: string, s: Scalar)
    requires InParams(st) && 0 < |k| <= MAX_STRING_SIZE && FitsScalar(s)
    requires |Last(st.nodes).slots| < MAX_NUM_PARAMS_PER_NODE
    ensures FitsName(st.paramNs, k) <==>
              ReadsInto(c, st, [Key(k), ScalarEvent(s)],
                        AddSlots(st, [Slot(Join(st.paramNs, k, PARAM_SEP), ValueVariant(c, One(s)))]))
    ensures !FitsName(st.paramNs, k) ==>
              var n := Last(st.nodes);
              Fold(c, st, [Key(k), ScalarEvent(s)])
              == if n.num == 0 then Error
                 else Ok(WithLastValue(st, SetScalar(n.slots[n.num - 1].value, GetValue(c, s))))
  {
    hide GetValue, Step;
    assert [Key(k), ScalarEvent(s)] == [Key(k)] + ValueEvents(One(s));
    if FitsName(st.paramNs, k) {
      ParamEntryRun(c, st, k, One(s));
    } else {
      OverlongKeyIsDropped(c, st, k);
      DroppedScalar(c, st, s);
      FoldConcat(c, st, [Key(k)], [ScalarEvent(s)]);
      var n := Last(st.nodes);
      assert |AddSlots(st, [Slot("", EMPTY_VARIANT)]).nodes[|st.nodes| - 1].slots| == n.num + 1;
    }
  }

  lemma SameFirstStep(c: Conversions, x: State, y: State, e: Event, es: seq<Event>)
    requires Step(c, x, e) == Step(c, y, e)
    ensures Fold(c, x, [e] + es) == Fold(c, y, [e] + es)
  {
    hide Step;
    assert ([e] + es)[1..] == es;
  }

  /** The same for the first entry of a nested map. */
  lemma OverlongFirstNameHitsPrevious(c: Conversions, st: State, m: string, k: string, s: Scalar)
    requires InParams(st) && FitsName(st.paramNs, m) && |Last(st.nodes).slots| < MAX_NUM_PARAMS_PER_NODE
    requires 0 < |k| <= MAX_STRING_SIZE && FitsScalar(s)
    ensures var ns, es := Some(Join(st.paramNs, m, PARAM_SEP)), [Key(m), MappingStart, Key(k), ScalarEvent(s)];
            && (FitsName(ns, k) <==>
                  ReadsInto(c, st, es, AddSlots(Entered(st, m), [Slot(Join(ns, k, PARAM_SEP), ValueVariant(c, One(s)))])))
            && (!FitsName(ns, k) ==>
                  var n := Last(st.nodes);
                  Fold(c, st, es)
                  == if n.num == 0 then Error
                     else Ok(WithLastValue(Vacated(st, m), SetScalar(n.slots[n.num - 1].value, GetValue(c, s)))))
  {
    hide GetValue, Step;
    var ns := Some(Join(st.paramNs, m, PARAM_SEP));
    if FitsName(ns, k) {
      EnterMap(c, st, m, k);
      ParamEntryRun(c, Entered(st, m), k, One(s));
      SameFirstStep(c, Fold(c, st, [Key(m), MappingStart]).st, Entered(st, m), Key(k), [ScalarEvent(s)]);
      FoldConcat(c, st, [Key(m), MappingStart], [Key(k)] + [ScalarEvent(s)]);
      assert [Key(m), MappingStart] + ([Key(k)] + [ScalarEvent(s)]) == [Key(m), MappingStart, Key(k), ScalarEvent(s)];
    } else {
      OverlongFirstKeyIsDropped(c, st, m, k);
      DroppedScalar(c, Vacated(st, m), s);
      FoldConcat(c, st, [Key(m), MappingStart, Key(k)], [ScalarEvent(s)]);
      assert [Key(m), MappingStart, Key(k)] + [ScalarEvent(s)] == [Key(m), MappingStart, Key(k), ScalarEvent(s)];
      var n := Last(st.nodes);
      assert Last(Vacated(st, m).nodes).num == n.num;
      if n.num > 0 {
        var v := SetScalar(n.slots[n.num - 1].value, GetValue(c, s));
        assert Last(WithLastValue(Vacated(st, m), v).nodes).num == n.num;
        assert forall slot :: Last(AddSlots(Entered(st, m), [slot]).nodes).num == n.num + 1;
      }
    }
  }

  /** An over-long key of a map: the parameter before it is lost, or there is none and memory is overrun. */
  lemma OverlongMapTakesPrevious(c: Conversions, st: State, k: string, x: string)
    requires AtEntry(st) && 0 < |k| <= MAX_STRING_SIZE && !FitsName(st.paramNs, k) && 0 < |x| <= MAX_STRING_SIZE
    ensures Fold(c, st, [Key(k), MappingStart, Key(x)])
         == if Last(st.nodes).num == 0 then Undefined else Ok(Renamed(st, x))
  {
    hide Step;
    OverlongKeyIsDropped(c, st, k);
    DroppedMap(c, st, x);
    FoldConcat(c, st, [Key(k)], [MappingStart, Key(x)]);
    assert [Key(k)] + [MappingStart, Key(x)] == [Key(k), MappingStart, Key(x)];
  }

  /** The same when that key comes first in a nested map; below a node's first key memory is overrun. */
  lemma OverlongFirstMapTakesPrevious(c: Conversions, st: State, m: string, k: string, x: string)
    requires InParams(st) && FitsName(st.paramNs, m) && |Last(st.nodes).slots| < MAX_NUM_PARAMS_PER_NODE
    requires 0 < |k| <= MAX_STRING_SIZE && !FitsName(Some(Join(st.paramNs, m, PARAM_SEP)), k) && 0 < |x| <= MAX_STRING_SIZE
    ensures AtEntry(Vacated(st, m)) && Last(Vacated(st, m).nodes).num == Last(st.nodes).num
    ensures Fold(c, st, [Key(m), MappingStart, Key(k), MappingStart, Key(x)])
         == if Last(st.nodes).num == 0 then Undefined else Ok(Renamed(Vacated(st, m), x))
  {
    hide Step;
    OverlongFirstKeyIsDropped(c, st, m, k);
    DroppedMap(c, Vacated(st, m), x);
    FoldConcat(c, st, [Key(m), MappingStart, Key(k)], [MappingStart, Key(x)]);
    assert [Key(m), MappingStart, Key(k)] + [MappingStart, Key(x)] == [Key(m), MappingStart, Key(k), MappingStart, Key(x)];
  }

  // ---------- Keys with quotes, keys that end in the separator ----------

  /** The style of a key is not looked at. */
  lemma QuotedKeyIsKey(c: Conversions, st: State, k: string)
    requires st.isKey
    ensures Step(c, st, ScalarEvent(Scalar(k, true))) == Step(c, st, Key(k))
  {
  }

  /**
   A key with a separator at its end is read like the key without, from the first key below it on, exactly when that one is
   not `ros__parameters`: a node's own name keeps the separator, and taking the name off then takes the separator alone.
   */
  lemma SlashedKeyIsBareKey(c: Conversions, st: State, k: string, first: string)
    requires InNodes(st) && |st.nodes| < MAX_NUM_NODE_ENTRIES
    requires FitsName(st.nodeNs, k + [NODE_SEP]) && !(PARAMS_KEY <= k) && !(PARAMS_KEY <= k + [NODE_SEP])
    requires k != "" && k[|k| - 1] != NODE_SEP
    requires if PARAMS_KEY <= first then |first| <= MAX_STRING_SIZE else FitsName(Some(Join(st.nodeNs, k, NODE_SEP)), first)
    ensures var r := Fold(c, st, [Key(k), MappingStart, Key(first)]);
            var r' := Fold(c, st, [Key(k + [NODE_SEP]), MappingStart, Key(first)]);
            && r.Ok? && (r' == r <==> !(PARAMS_KEY <= first))
            && (PARAMS_KEY <= first ==>
                  var name := Join(st.nodeNs, k, NODE_SEP);
                  && r'.Ok? && r'.st.nodes == st.nodes + [NodeParams(name + [NODE_SEP], [], 0)]
                  && r'.st.numNodeNs == st.numNodeNs && r'.st.nodeNs == if st.nodeNs.None? then None else Some(name))
  {
    var bare, slashed := Inside(st, k), Inside(st, k + [NODE_SEP]);
    FirstKeyBelow(c, st, k, first);
    FirstKeyBelow(c, st, k + [NODE_SEP], first);
    assert slashed.nodeNs.value == bare.nodeNs.value + [NODE_SEP];
    assert bare.nodeNs.value[|bare.nodeNs.value| - 1] == k[|k| - 1];
    hide Step;
    if PARAMS_KEY <= first {
      ParamsBelow(c, bare, first);
      ParamsBelow(c, slashed, first);
      assert slashed.nodeNs != bare.nodeNs;
      assert st.nodes + [NodeParams(slashed.nodeNs.value, [], 0)] != st.nodes + [NodeParams(bare.nodeNs.value, [], 0)] by {
        assert (st.nodes + [NodeParams(slashed.nodeNs.value, [], 0)])[|st.nodes|]
            != (st.nodes + [NodeParams(bare.nodeNs.value, [], 0)])[|st.nodes|];
      }
      SeparatorIsCut(bare.nodeNs.value, slashed.numNodeNs);
    } else {
      KeyBelow(c, bare, slashed, first);
    }
  }

  lemma SeparatorIsCut(name: string, count: nat)
    requires count > 0
    ensures RemName(Some(name + [NODE_SEP]), count, NODE_SEP) == NsOk(if count == 1 then None else Some(name), count - 1)
  {
    LastIndexOfJoined(name, NODE_SEP, "");
    assert name + [NODE_SEP] + "" == name + [NODE_SEP];
  }

  lemma FirstKeyBelow(c: Conversions, st: State, k: string, first: string)
    requires InNodes(st) && FitsName(st.nodeNs, k) && !(PARAMS_KEY <= k)
    ensures Fold(c, st, [Key(k), MappingStart, Key(first)]) == Step(c, Inside(st, k), Key(first))
  {
    hide Step;
    EnterAnyKey(c, st, k);
    assert FoldOne(c, Inside(st, k), Key(first));
    FoldConcat(c, st, [Key(k), MappingStart], [Key(first)]);
    assert [Key(k), MappingStart] + [Key(first)] == [Key(k), MappingStart, Key(first)];
  }

  lemma ParamsBelow(c: Conversions, st: State, first: string)
    requires st.isKey && st.mapLevel == NODE_NAME_LVL && PARAMS_KEY <= first && |first| <= MAX_STRING_SIZE
    requires st.nodeNs.Some? && 0 < st.numNodeNs && |st.nodes| < MAX_NUM_NODE_ENTRIES
    ensures var r, ns := Step(c, st, Key(first)), RemName(st.nodeNs, st.numNodeNs, NODE_SEP);
            r.Ok? && ns.NsOk? && r.st.nodes == st.nodes + [NodeParams(st.nodeNs.value, [], 0)]
            && r.st.nodeNs == ns.ns && r.st.numNodeNs == ns.count
  {
  }

  lemma KeyBelow(c: Conversions, bare: State, slashed: State, first: string)
    requires bare.nodeNs.Some? && bare.nodeNs.value != "" && bare.nodeNs.value[|bare.nodeNs.value| - 1] != NODE_SEP
    requires slashed == bare.(nodeNs := Some(bare.nodeNs.value + [NODE_SEP])) && 0 < bare.numNodeNs
    requires bare.isKey && bare.mapLevel == NODE_NAME_LVL && FitsName(bare.nodeNs, first) && !(PARAMS_KEY <= first)
    ensures Step(c, bare, Key(first)).Ok? && Step(c, slashed, Key(first)) == Step(c, bare, Key(first))
  {
    var s := bare.nodeNs.value;
    assert s + [NODE_SEP] + "" + first == s + [NODE_SEP] + first;
  }

  lemma EnterAnyKey(c: Conversions, st: State, k: string)
    requires InNodes(st) && FitsName(st.nodeNs, k) && !(PARAMS_KEY <= k)
    ensures Fold(c, st, [Key(k), MappingStart]) == Ok(Inside(st, k))
  {
    var st1 := Inside(st, k).(mapDepth := st.mapDepth, isKey := false, isNewMap := st.isNewMap);
    assert Step(c, st, Key(k)) == Ok(st1);
    assert FoldOne(c, st, Key(k)) && FoldOne(c, st1, MappingStart);
    assert [Key(k), MappingStart] == [Key(k)] + [MappingStart];
    FoldConcat(c, st, [Key(k)], [MappingStart]);
  }

  // ---------- The root namespace ----------

  /**
   Below the root namespace "/" one node can be read; at the next key the reader looks at the byte before an empty
   string, because taking the first node's name off also took the slash.
   */
  lemma SecondNodeBelowRoot(c: Conversions, st: State, a: string, b: string)
    requires InNodes(st) && st.nodeNs == None && |st.nodes| < MAX_NUM_NODE_ENTRIES
    requires 0 < |a| <= 254 && 0 < |b| <= MAX_STRING_SIZE && NODE_SEP !in a && !(PARAMS_KEY <= a) && !(PARAMS_KEY <= b)
    ensures var es := [Key("/"), MappingStart] + NodeEntry(a, NoParams);
            && Fold(c, st, es).Ok? && |Fold(c, st, es).st.nodes| > 0 && Last(Fold(c, st, es).st.nodes).name == "/" + a
            && Fold(c, st, es + [Key(b)]) == Undefined
  {
    EnterNamespace(c, st, "/");
    var st1 := Inside(st, "/");
    var st7 := FirstNodeBelowRoot(c, st, a);
    hide Step;
    var es := NodeEntry(a, NoParams);
    FoldConcat(c, st, [Key("/"), MappingStart], es);
    FoldConcat(c, st, [Key("/"), MappingStart] + es, [Key(b)]);
    assert FoldOne(c, st7, Key(b));
    NameAfterEmpty(c, st7, b);
  }

  lemma NameAfterEmpty(c: Conversions, st: State, b: string)
    requires st.nodeNs == Some("") && st.numNodeNs == 1 && st.isKey && st.mapLevel == NODE_NAME_LVL
    requires 0 < |b| <= MAX_STRING_SIZE && !(PARAMS_KEY <= b)
    ensures Step(c, st, Key(b)) == Undefined
  {
  }

  /** The state in which the parameters of the first node `a` below the root are announced. */
  function RootParams(st: State, a: string): State {
    st.(nodeNs := Some(""), numNodeNs := 1, isKey := false, isNewMap := true, mapDepth := 3, mapLevel := PARAMS_LVL,
        nodes := st.nodes + [NodeParams("/" + a, [], 0)])
  }

  lemma RootNodeOpens(c: Conversions, st: State, a: string) returns (st2: State, st3: State)
    requires InNodes(st) && st.nodeNs == None && |st.nodes| < MAX_NUM_NODE_ENTRIES
    requires 0 < |a| <= 254 && NODE_SEP !in a && !(PARAMS_KEY <= a)
    ensures Step(c, Inside(st, "/"), Key(a)) == Ok(st2) && Step(c, st2, MappingStart) == Ok(st3)
    ensures Step(c, st3, Key(PARAMS_KEY)) == Ok(RootParams(st, a))
  {
    var st1 := Inside(st, "/");
    st2 := st1.(nodeNs := Some("/" + a), numNodeNs := 2, isKey := false);
    assert "/" + "" + a == "/" + a && "/"[|"/"| - 1] == NODE_SEP;
    st3 := st2.(mapDepth := 3, isKey := true, isNewMap := true);
    LastIndexOfJoined("", NODE_SEP, a);
    assert "" + [NODE_SEP] + a == "/" + a;
  }

  lemma RootNodeCloses(c: Conversions, st: State, a: string) returns (st5: State, st6: State, st7: State)
    requires InNodes(st) && st.nodeNs == None
    ensures Step(c, RootParams(st, a), MappingStart) == Ok(st5) && Step(c, st5, MappingEnd) == Ok(st6)
    ensures Step(c, st6, MappingEnd) == Ok(st7)
    ensures st7 == RootParams(st, a).(isKey := true, isNewMap := false, mapDepth := 2, mapLevel := NODE_NAME_LVL)
  {
    st5 := RootParams(st, a).(mapDepth := 4, isKey := true, isNewMap := false);
    st6 := st5.(mapDepth := 3, mapLevel := NODE_NAME_LVL);
    st7 := st6.(mapDepth := 2);
  }

  lemma FirstNodeBelowRoot(c: Conversions, st: State, a: string) returns (st7: State)
    requires InNodes(st) && st.nodeNs == None && |st.nodes| < MAX_NUM_NODE_ENTRIES
    requires 0 < |a| <= 254 && NODE_SEP !in a && !(PARAMS_KEY <= a)
    ensures Fold(c, Inside(st, "/"), NodeEntry(a, NoParams)) == Ok(st7)
    ensures st7.nodeNs == Some("") && st7.numNodeNs == 1 && st7.isKey && st7.mapLevel == NODE_NAME_LVL
    ensures st7.nodes == st.nodes + [NodeParams("/" + a, [], 0)]
  {
    hide Step, Fold;
    var st2, st3 := RootNodeOpens(c, st, a);
    var st5, st6;
    st5, st6, st7 := RootNodeCloses(c, st, a);
    var es := [Key(a), MappingStart, Key(PARAMS_KEY), MappingStart, MappingEnd, MappingEnd];
    SixSteps(c, Inside(st, "/"), es, st2, st3, RootParams(st, a), st5, st6, st7);
    assert NodeEntry(a, NoParams) == es;
  }

  lemma SixSteps(
    c: Conversions, st1: State, es: seq<Event>, st2: State, st3: State, st4: State, st5: State, st6: State, st7: State)
    requires |es| == 6
    requires Step(c, st1, es[0]) == Ok(st2) && Step(c, st2, es[1]) == Ok(st3) && Step(c, st3, es[2]) == Ok(st4)
    requires Step(c, st4, es[3]) == Ok(st5) && Step(c, st5, es[4]) == Ok(st6) && Step(c, st6, es[5]) == Ok(st7)
    ensures Fold(c, st1, es) == Ok(st7)
  {
    hide Step;
    assert Fold(c, st6, es[5..]) == Ok(st7) by { assert es[5..][1..] == []; }
    assert es[4..][1..] == es[5..] && es[3..][1..] == es[4..] && es[2..][1..] == es[3..] && es[1..][1..] == es[2..];
    assert Fold(c, st5, es[4..]) == Ok(st7);
    assert Fold(c, st4, es[3..]) == Ok(st7);
    assert Fold(c, st3, es[2..]) == Ok(st7);
    assert Fold(c, st2, es[1..]) == Ok(st7);
  }
}
