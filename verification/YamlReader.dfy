/** The reader as the object it is: fields updated in place, one event at a time. */
module YamlReader {
  import opened Common
  import opened YamlMachine
  import opened YamlFlatten

  datatype Ret = RetOk | RetError | RetUndefined

  function Outcome(ret: Ret, st: State): Result {
    match ret
    case RetOk => Ok(st)
    case RetError => Error
    case RetUndefined => Undefined
  }

  function NsOutcome(ret: Ret, ns: Option<string>, count: nat): NsResult {
    match ret
    case RetOk => NsOk(ns, count)
    case RetError => NsError
    case RetUndefined => NsUndefined
  }

  /** The repeated substring search of the original: the last place where `sep` occurs. */
  method FindLast(s: string, sep: char) returns (last: int)
    ensures last == LastIndexOf(s, sep)
  {
    last := -1;
    var next := IndexOf(s, sep);
    while next < |s|
      invariant -1 <= last < next <= |s|
      invariant last >= 0 ==> s[last] == sep
      invariant next < |s| ==> s[next] == sep
      invariant forall k :: last < k < next ==> s[k] != sep
    {
      last := next;
      var rest := s[next + 1..];
      var step := IndexOf(rest, sep);
      assert forall k :: 0 <= k < step ==> rest[k] == rest[..step][k] && s[next + 1 + k] == rest[k];
      next := next + 1 + step;
    }
    var r := LastIndexOf(s, sep);
  }

  class Reader {
    const conv: Conversions
    var isKey: bool
    var isSeq: bool
    var seqType: DataType
    var mapLevel: nat
    var mapDepth: nat
    var isNewMap: bool
    var nodeNs: Option<string>
    var numNodeNs: nat
    var paramNs: Option<string>
    var numParamNs: nat
    var nodes: seq<NodeParams>

    ghost function View(): State
      reads this
    {
      State(isKey, isSeq, seqType, mapLevel, mapDepth, isNewMap, nodeNs, numNodeNs, paramNs, numParamNs, nodes)
    }

    constructor (c: Conversions)
      ensures View() == INITIAL && conv == c
    {
      conv := c;
      isKey, isSeq, seqType := true, false, UnknownType;
      mapLevel, mapDepth, isNewMap := NODE_NAME_LVL, 0, false;
      nodeNs, numNodeNs, paramNs, numParamNs := None, 0, None, 0;
      nodes := [];
    }

    method AddNodeName(name: string) returns (ret: Ret)
      modifies this`nodeNs, this`numNodeNs
      ensures NsOutcome(ret, nodeNs, numNodeNs) == AddName(old(nodeNs), old(numNodeNs), name, NODE_SEP)
    {
      if numNodeNs == 0 {
        nodeNs := Some(name);
        numNodeNs := 1;
        return RetOk;
      }
      if nodeNs.None? || |nodeNs.value| == 0 {
        return RetUndefined;
      }
      var cur := nodeNs.value;
      var sepStr := [NODE_SEP];
      if cur[|cur| - 1] == NODE_SEP {
        sepStr := "";
      }
      var totLen := |cur| + |sepStr| + |name| + 1;
      if totLen > MAX_STRING_SIZE {
        return RetError;
      }
      nodeNs := Some(cur + sepStr + name);
      numNodeNs := (numNodeNs + 1) % U32;
      ret := RetOk;
    }

    /** The removal shared by both namespaces, on the string and counter it is given. */
    method RemoveName(ns: Option<string>, count: nat, sep: char) returns (ret: Ret, ns': Option<string>, count': nat)
      ensures NsOutcome(ret, ns', count') == RemName(ns, count, sep)
    {
      ret, ns', count' := RetOk, ns, count;
      if count > 0 {
        if count == 1 {
          ns' := None;
        } else if ns.None? {
          ret := RetUndefined;
          return;
        } else {
          var last := FindLast(ns.value, sep);
          if last >= 0 {
            ns' := Some(ns.value[..last]);
          }
        }
        count' := count - 1;
      }
    }

    method ParseKey(key: string) returns (ret: Ret)
      modifies this
      ensures Outcome(ret, View()) == YamlMachine.ParseKey(old(View()), key)
    {
      if |key| > MAX_STRING_SIZE || |key| == 0 {
        return RetError;
      }
      if mapLevel == NODE_NAME_LVL {
        if !(PARAMS_KEY <= key) {
          ret := AddNodeName(key);
        } else {
          if numNodeNs == 0 {
            return RetError;
          }
          if nodeNs.None? || |nodes| >= MAX_NUM_NODE_ENTRIES {
            return RetUndefined;
          }
          var name := nodeNs.value;
          ret, nodeNs, numNodeNs := RemoveName(nodeNs, numNodeNs, NODE_SEP);
          if ret != RetOk {
            return;
          }
          nodes := nodes + [NodeParams(name, [], 0)];
          mapLevel := PARAMS_LVL;
        }
      } else if mapLevel == PARAMS_LVL {
        ret := ParseParamKey(key);
      } else {
        ret := RetError;
      }
    }

    method ParseParamKey(key: string) returns (ret: Ret)
      modifies this
      ensures Outcome(ret, View()) == YamlMachine.ParseParamKey(old(View()), key)
    {
      if |nodes| == 0 {
        return RetUndefined;
      }
      var n := Last(nodes);
      if n.num > |n.slots| {
        return RetUndefined;
      }
      if isNewMap {
        if n.num == 0 {
          return RetUndefined;
        }
        n := n.(num := n.num - 1);
        nodes := SetLast(nodes, n);
        paramNs, numParamNs := Some(n.slots[n.num].name), (numParamNs + 1) % U32;
        isNewMap := false;
      }
      if n.num >= MAX_NUM_PARAMS_PER_NODE {
        return RetError;
      }
      var name := key;
      if paramNs.Some? {
        var totLen := |paramNs.value| + |key| + 2;
        if totLen > MAX_STRING_SIZE {
          return RetOk;
        }
        name := paramNs.value + [PARAM_SEP] + key;
      }
      nodes := SetLast(nodes, PushSlot(n, name));
      ret := RetOk;
    }

    method ParseValue(s: Scalar) returns (ret: Ret)
      modifies this
      ensures Outcome(ret, View()) == YamlMachine.ParseValue(conv, old(View()), s)
    {
      if |nodes| == 0 || Last(nodes).num == 0 {
        return RetError;
      }
      if |s.text| > MAX_STRING_SIZE || (!s.quoted && |s.text| == 0) {
        return RetError;
      }
      var n := Last(nodes);
      if n.num > |n.slots| {
        return RetUndefined;
      }
      var p := n.slots[n.num - 1].value;
      var v := GetValue(conv, s);
      if !isSeq {
        p := SetScalar(p, v);
      } else {
        if seqType == UnknownType {
          seqType := TypeOf(v);
          p := StartArray(p, v);
        } else if seqType != TypeOf(v) || !HasArray(p, v) {
          return RetError;
        } else {
          p := AppendToArray(p, v);
        }
      }
      nodes := SetLast(nodes, n.(slots := n.slots[n.num - 1 := n.slots[n.num - 1].(value := p)]));
      ret := RetOk;
    }

    method EndMapping() returns (ret: Ret)
      modifies this
      ensures Outcome(ret, View()) == StepMappingEnd(old(View()))
    {
      ret := RetOk;
      if mapLevel == PARAMS_LVL {
        if numParamNs > 0 {
          ret, paramNs, numParamNs := RemoveName(paramNs, numParamNs, PARAM_SEP);
        } else {
          mapLevel := mapLevel - 1;
        }
      } else if mapLevel == NODE_NAME_LVL && mapDepth == (numNodeNs + 1) % U32 {
        ret, nodeNs, numNodeNs := RemoveName(nodeNs, numNodeNs, NODE_SEP);
      }
      mapDepth := (mapDepth - 1) % U32;
    }

    method HandleEvent(e: Event) returns (ret: Ret)
      modifies this
      ensures Outcome(ret, View()) == Step(conv, old(View()), e)
    {
      ret := RetOk;
      match e
      case ScalarEvent(s) =>
        if isKey {
          ret := ParseKey(s.text);
          isKey := false;
        } else {
          if mapLevel < PARAMS_LVL {
            return RetError;
          }
          ret := ParseValue(s);
          if !isSeq {
            isKey := true;
          }
        }
      case SequenceStart =>
        if isKey || mapLevel < PARAMS_LVL {
          return RetError;
        }
        isSeq, seqType := true, UnknownType;
      case SequenceEnd =>
        isSeq, isKey := false, true;
      case MappingStart =>
        mapDepth := (mapDepth + 1) % U32;
        isNewMap := true;
        isKey := true;
        if mapLevel == PARAMS_LVL && (mapDepth - (numNodeNs + 1)) % U32 == 2 {
          isNewMap := false;
        }
      case MappingEnd =>
        ret := EndMapping();
      case AliasEvent => ret := RetError;
      case NoEvent => ret := RetError;
      case StreamStart =>
      case StreamEnd =>
      case DocumentStart =>
      case DocumentEnd =>
    }

    method ParseEvents(es: seq<Event>) returns (ret: Ret)
      modifies this
      ensures Outcome(ret, View()) == Run(conv, old(View()), es)
    {
      var i := 0;
      while true
        invariant 0 <= i <= |es|
        invariant Run(conv, View(), es[i..]) == Run(conv, old(View()), es)
        decreases |es| - i
      {
        if i == |es| {
          return RetError;
        }
        if es[i] == StreamEnd {
          return RetOk;
        }
        assert es[i..][0] == es[i] && es[i..][1..] == es[i + 1..];
        ret := HandleEvent(es[i]);
        if ret != RetOk {
          return;
        }
        i := i + 1;
      }
    }
  }

  /** Reading a well-formed file leaves exactly its flattening in the reader. */
  method ReadFile(c: Conversions, n: Nodes) returns (nodes: seq<NodeParams>)
    requires GoodFile(c, n)
    ensures nodes == FlattenNodes(c, n, None)
  {
    var reader := new Reader(c);
    var ret := reader.ParseEvents(FileEvents(n) + [StreamEnd]);
    FileRun(c, n);
    assert ret == RetOk;
    nodes := reader.nodes;
  }
}
