/** The lifecycle state machine: registration of states and transitions, the default graph, and triggering. */
module Lifecycle {
  import opened Common

  datatype Transition = Transition(name: string, id: nat, start: nat, goal: Option<nat>)

  /** A state and its own copy of the transitions that leave it. */
  datatype State = State(name: string, id: nat, valid: seq<Transition>)

  datatype Graph = Graph(states: seq<State>, transitions: seq<Transition>)

  const EMPTY_GRAPH := Graph([], [])

  // ---------- Lookups ----------

  /** Position of the state `id`, or the number of states. */
  function StateIndex(states: seq<State>, id: nat): (i: nat)
    ensures i <= |states| && (i < |states| ==> states[i].id == id)
    ensures forall j :: 0 <= j < i ==> states[j].id != id
  {
    if states == [] || states[0].id == id then 0 else 1 + StateIndex(states[1..], id)
  }

  predicate HasState(g: Graph, id: nat) {
    StateIndex(g.states, id) < |g.states|
  }

  function FirstById(ts: seq<Transition>, id: nat): Option<Transition> {
    if ts == [] then None else if ts[0].id == id then Some(ts[0]) else FirstById(ts[1..], id)
  }

  function FirstByLabel(ts: seq<Transition>, name: string): Option<Transition> {
    if ts == [] then None else if ts[0].name == name then Some(ts[0]) else FirstByLabel(ts[1..], name)
  }

  /** The transitions that leave `start`, in registration order. */
  function FromStart(ts: seq<Transition>, start: nat): seq<Transition> {
    if ts == [] then []
    else FromStart(ts[..|ts| - 1], start) + (if ts[|ts| - 1].start == start then [ts[|ts| - 1]] else [])
  }

  // ---------- Registration ----------

  datatype Op = RegisterState(state: State) | RegisterTransition(transition: Transition)

  function Register(g: Graph, op: Op): Option<Graph> {
    match op
    case RegisterState(s) => if HasState(g, s.id) then None else Some(g.(states := g.states + [s]))
    case RegisterTransition(t) =>
      if !HasState(g, t.start) then None
      else
        var i := StateIndex(g.states, t.start);
        Some(Graph(g.states[i := g.states[i].(valid := g.states[i].valid + [t])], g.transitions + [t]))
  }

  /** A refused registration leaves the graph as it was. */
  function RegisterAll(g: Graph, ops: seq<Op>): Graph
    decreases ops
  {
    if ops == [] then g
    else
      var r := Register(g, ops[0]);
      RegisterAll(if r.Some? then r.value else g, ops[1..])
  }

  /** State ids are unique, every transition leaves a known state, and each state's list is the filter of the global one. */
  ghost predicate Indexed(g: Graph) {
    && (forall i, j :: 0 <= i < j < |g.states| ==> g.states[i].id != g.states[j].id)
    && (forall k :: 0 <= k < |g.transitions| ==> HasState(g, g.transitions[k].start))
    && (forall i :: 0 <= i < |g.states| ==> g.states[i].valid == FromStart(g.transitions, g.states[i].id))
  }

  lemma {:induction false} NothingFrom(ts: seq<Transition>, start: nat)
    requires forall k :: 0 <= k < |ts| ==> ts[k].start != start
    ensures FromStart(ts, start) == []
    decreases ts
  {
    if ts != [] {
      NothingFrom(ts[..|ts| - 1], start);
    }
  }

  /** A new state keeps the index exactly when it brings no transitions of its own. */
  lemma StateKeepsIndex(g: Graph, s: State)
    requires Indexed(g) && !HasState(g, s.id)
    ensures Indexed(Register(g, RegisterState(s)).value) <==> s.valid == []
  {
    var h := Register(g, RegisterState(s)).value;
    NothingFrom(g.transitions, s.id);
    var n := |g.states|;
    assert forall i :: 0 <= i < n ==> h.states[i] == g.states[i];
    assert h.states[n] == s;
    forall k | 0 <= k < |h.transitions| ensures HasState(h, h.transitions[k].start) {
      var i := StateIndex(g.states, g.transitions[k].start);
      assert h.states[i].id == g.transitions[k].start;
    }
  }

  lemma TransitionKeepsIndex(g: Graph, t: Transition)
    requires Indexed(g) && HasState(g, t.start)
    ensures Indexed(Register(g, RegisterTransition(t)).value)
  {
    var h := Register(g, RegisterTransition(t)).value;
    var i := StateIndex(g.states, t.start);
    assert h.transitions[..|g.transitions|] == g.transitions;
    forall j | 0 <= j < |h.states| ensures h.states[j].valid == FromStart(h.transitions, h.states[j].id) {
      assert h.states[j].id == g.states[j].id;
    }
    forall k | 0 <= k < |h.transitions| ensures HasState(h, h.transitions[k].start) {
      var start := h.transitions[k].start;
      var m := if k < |g.transitions| then StateIndex(g.states, g.transitions[k].start) else i;
      assert h.states[m].id == start;
    }
  }

  /** However registrations of states without transitions and of transitions are interleaved, the index is kept. */
  lemma {:induction false} RegistrationKeepsIndex(g: Graph, ops: seq<Op>)
    requires Indexed(g)
    requires forall k :: 0 <= k < |ops| && ops[k].RegisterState? ==> ops[k].state.valid == []
    ensures Indexed(RegisterAll(g, ops))
    decreases ops
  {
    if ops != [] {
      var r := Register(g, ops[0]);
      if r.Some? {
        match ops[0]
        case RegisterState(s) => StateKeepsIndex(g, s);
        case RegisterTransition(t) => TransitionKeepsIndex(g, t);
      }
      RegistrationKeepsIndex(if r.Some? then r.value else g, ops[1..]);
    }
  }

  /** Registrations from nothing: each state's own list answers like the global list restricted to that start. */
  lemma RegisteredLookupAgrees(ops: seq<Op>, i: nat, id: nat, name: string)
    requires forall k :: 0 <= k < |ops| && ops[k].RegisterState? ==> ops[k].state.valid == []
    requires i < |RegisterAll(EMPTY_GRAPH, ops).states|
    ensures var g := RegisterAll(EMPTY_GRAPH, ops);
            && Indexed(g)
            && FirstById(g.states[i].valid, id) == ById(g.transitions, g.states[i].id, id)
            && FirstByLabel(g.states[i].valid, name) == ByLabel(g.transitions, g.states[i].id, name)
  {
    RegistrationKeepsIndex(EMPTY_GRAPH, ops);
    StateLookupAgrees(RegisterAll(EMPTY_GRAPH, ops), i, id, name);
  }

  // ---------- Looking up in a state agrees with looking up globally ----------

  /** The first transition of the whole list with this start and id. */
  function ById(ts: seq<Transition>, start: nat, id: nat): (r: Option<Transition>)
    ensures r.Some? ==> r.value in ts && r.value.start == start && r.value.id == id
    ensures r.None? ==> forall t :: t in ts ==> !(t.start == start && t.id == id)
  {
    if ts == [] then None
    else if ts[0].start == start && ts[0].id == id then Some(ts[0])
    else ById(ts[1..], start, id)
  }

  function ByLabel(ts: seq<Transition>, start: nat, name: string): (r: Option<Transition>)
    ensures r.Some? ==> r.value in ts && r.value.start == start && r.value.name == name
    ensures r.None? ==> forall t :: t in ts ==> !(t.start == start && t.name == name)
  {
    if ts == [] then None
    else if ts[0].start == start && ts[0].name == name then Some(ts[0])
    else ByLabel(ts[1..], start, name)
  }

  lemma {:induction false} FromStartFront(ts: seq<Transition>, start: nat)
    requires ts != []
    ensures FromStart(ts, start) == (if ts[0].start == start then [ts[0]] else []) + FromStart(ts[1..], start)
    decreases ts
  {
    var front := ts[..|ts| - 1];
    if |ts| == 1 {
      assert front == [] && ts[1..] == [];
    } else {
      FromStartFront(front, start);
      assert front[1..] == ts[1..][..|ts| - 2] && ts[1..][|ts| - 2] == ts[|ts| - 1];
    }
  }

  lemma {:induction false} LookupAgrees(ts: seq<Transition>, start: nat, id: nat, name: string)
    ensures FirstById(FromStart(ts, start), id) == ById(ts, start, id)
    ensures FirstByLabel(FromStart(ts, start), name) == ByLabel(ts, start, name)
    decreases ts
  {
    if ts != [] {
      FromStartFront(ts, start);
      LookupAgrees(ts[1..], start, id, name);
      if ts[0].start == start {
        assert FromStart(ts, start)[1..] == FromStart(ts[1..], start);
      } else {
        assert [] + FromStart(ts[1..], start) == FromStart(ts[1..], start);
      }
    }
  }

  /** In an indexed graph a state's own list answers like the global list restricted to that start. */
  lemma StateLookupAgrees(g: Graph, i: nat, id: nat, name: string)
    requires Indexed(g) && i < |g.states|
    ensures FirstById(g.states[i].valid, id) == ById(g.transitions, g.states[i].id, id)
    ensures FirstByLabel(g.states[i].valid, name) == ByLabel(g.transitions, g.states[i].id, name)
  {
    LookupAgrees(g.transitions, g.states[i].id, id, name);
  }

  // ---------- The default graph ----------

  const UNKNOWN: nat := 0
  const UNCONFIGURED: nat := 1
  const INACTIVE: nat := 2
  const ACTIVE: nat := 3
  const FINALIZED: nat := 4
  const CONFIGURING: nat := 10
  const CLEANINGUP: nat := 11
  const SHUTTINGDOWN: nat := 12
  const ACTIVATING: nat := 13
  const DEACTIVATING: nat := 14
  const ERRORPROCESSING: nat := 15

  const SUCCESS_LABEL: string := "transition_success"
  const FAILURE_LABEL: string := "transition_failure"
  const ERROR_LABEL: string := "transition_error"

  function DefaultStateIds(): seq<nat> {
    [UNKNOWN, UNCONFIGURED, INACTIVE, ACTIVE, FINALIZED,
     CONFIGURING, CLEANINGUP, SHUTTINGDOWN, ACTIVATING, DEACTIVATING, ERRORPROCESSING]
  }

  /** The registered transitions, in order. */
  function DefaultAt(i: nat): Transition
    requires i < 25
  {
    if i == 0 then Transition("configure", 1, UNCONFIGURED, Some(CONFIGURING))
    else if i == 1 then Transition(SUCCESS_LABEL, 10, CONFIGURING, Some(INACTIVE))
    else if i == 2 then Transition(FAILURE_LABEL, 11, CONFIGURING, Some(UNCONFIGURED))
    else if i == 3 then Transition(ERROR_LABEL, 12, CONFIGURING, Some(ERRORPROCESSING))
    else if i == 4 then Transition("cleanup", 2, INACTIVE, Some(CLEANINGUP))
    else if i == 5 then Transition(SUCCESS_LABEL, 20, CLEANINGUP, Some(UNCONFIGURED))
    else if i == 6 then Transition(FAILURE_LABEL, 21, CLEANINGUP, Some(INACTIVE))
    else if i == 7 then Transition(ERROR_LABEL, 22, CLEANINGUP, Some(ERRORPROCESSING))
    else if i == 8 then Transition("activate", 3, INACTIVE, Some(ACTIVATING))
    else if i == 9 then Transition(SUCCESS_LABEL, 30, ACTIVATING, Some(ACTIVE))
    else if i == 10 then Transition(FAILURE_LABEL, 31, ACTIVATING, Some(INACTIVE))
    else if i == 11 then Transition(ERROR_LABEL, 32, ACTIVATING, Some(ERRORPROCESSING))
    else if i == 12 then Transition("deactivate", 4, ACTIVE, Some(DEACTIVATING))
    else if i == 13 then Transition(SUCCESS_LABEL, 40, DEACTIVATING, Some(INACTIVE))
    else if i == 14 then Transition(FAILURE_LABEL, 41, DEACTIVATING, Some(ACTIVE))
    else if i == 15 then Transition(ERROR_LABEL, 42, DEACTIVATING, Some(ERRORPROCESSING))
    else if i == 16 then Transition("shutdown", 5, UNCONFIGURED, Some(SHUTTINGDOWN))
    else if i == 17 then Transition("shutdown", 6, INACTIVE, Some(SHUTTINGDOWN))
    else if i == 18 then Transition("shutdown", 7, ACTIVE, Some(SHUTTINGDOWN))
    else if i == 19 then Transition(SUCCESS_LABEL, 50, SHUTTINGDOWN, Some(FINALIZED))
    else if i == 20 then Transition(FAILURE_LABEL, 51, SHUTTINGDOWN, Some(FINALIZED))
    else if i == 21 then Transition(ERROR_LABEL, 52, SHUTTINGDOWN, Some(ERRORPROCESSING))
    else if i == 22 then Transition(SUCCESS_LABEL, 60, ERRORPROCESSING, Some(UNCONFIGURED))
    else if i == 23 then Transition(FAILURE_LABEL, 61, ERRORPROCESSING, Some(FINALIZED))
    else Transition(ERROR_LABEL, 62, ERRORPROCESSING, Some(FINALIZED))
  }

  function Default(): (ts: seq<Transition>)
    ensures |ts| == 25
  {
    seq(25, i requires 0 <= i < 25 => DefaultAt(i))
  }

  predicate IsPrimary(s: nat) {
    s == UNCONFIGURED || s == INACTIVE || s == ACTIVE || s == FINALIZED
  }

  /** Where a request leads from a primary state. */
  function RequestGoal(s: nat, id: nat): Option<nat> {
    if s == UNCONFIGURED && id == 1 then Some(CONFIGURING)
    else if s == INACTIVE && id == 2 then Some(CLEANINGUP)
    else if s == INACTIVE && id == 3 then Some(ACTIVATING)
    else if s == ACTIVE && id == 4 then Some(DEACTIVATING)
    else if (s == UNCONFIGURED && id == 5) || (s == INACTIVE && id == 6) || (s == ACTIVE && id == 7) then Some(SHUTTINGDOWN)
    else None
  }

  /** Where a request leads from error processing, which a node leaves by an outcome's own id or label. */
  function RecoveryGoal(id: nat): Option<nat> {
    if id == 60 then Some(UNCONFIGURED) else if id == 61 || id == 62 then Some(FINALIZED) else None
  }

  predicate IsOutcomeLabel(name: string) {
    name == SUCCESS_LABEL || name == FAILURE_LABEL || name == ERROR_LABEL
  }

  const SUCCESS_CODE: nat := 97
  const FAILURE_CODE: nat := 98
  const ERROR_CODE: nat := 99

  /** The label of the transition that a callback's code selects. */
  function LabelFor(code: nat): string {
    if code == SUCCESS_CODE then SUCCESS_LABEL else if code == FAILURE_CODE then FAILURE_LABEL else ERROR_LABEL
  }

  /** Where a callback's code leads from a transition state. */
  function OutcomeGoal(s: nat, code: nat): nat {
    if s == CONFIGURING then
      if code == SUCCESS_CODE then INACTIVE else if code == FAILURE_CODE then UNCONFIGURED else ERRORPROCESSING
    else if s == CLEANINGUP then
      if code == SUCCESS_CODE then UNCONFIGURED else if code == FAILURE_CODE then INACTIVE else ERRORPROCESSING
    else if s == SHUTTINGDOWN then
      if code == SUCCESS_CODE || code == FAILURE_CODE then FINALIZED else ERRORPROCESSING
    else if s == ACTIVATING then
      if code == SUCCESS_CODE then ACTIVE else if code == FAILURE_CODE then INACTIVE else ERRORPROCESSING
    else if s == DEACTIVATING then
      if code == SUCCESS_CODE then INACTIVE else if code == FAILURE_CODE then ACTIVE else ERRORPROCESSING
    else if code == SUCCESS_CODE then UNCONFIGURED else FINALIZED
  }

  predicate IsTransitionState(s: nat) {
    CONFIGURING <= s <= ERRORPROCESSING
  }

  lemma RowGoal(k: nat, code: nat)
    requires k < 25
    ensures var t := DefaultAt(k);
            && t.goal.Some?
            && (IsPrimary(t.start) ==> t.goal == RequestGoal(t.start, t.id) && IsTransitionState(t.goal.value))
            && (IsTransitionState(t.start) && t.name == LabelFor(code) ==> t.goal == Some(OutcomeGoal(t.start, code)))
  {
  }

  lemma RowOf(t: Transition) returns (k: nat)
    requires t in Default()
    ensures k < 25 && DefaultAt(k) == t
  {
    k :| k < 25 && Default()[k] == t;
  }

  /** From a primary state, the requests and their goals. */
  lemma DefaultRequests(s: nat, id: nat)
    requires IsPrimary(s)
    ensures match ById(Default(), s, id)
            case Some(t) => t.goal == RequestGoal(s, id) && t.goal.Some?
            case None => RequestGoal(s, id) == None
  {
    hide ById, DefaultAt;
    var r := ById(Default(), s, id);
    match r
    case Some(t) =>
      var k := RowOf(t);
      RowGoal(k, 0);
    case None =>
      var k := if id == 1 then 0 else if id == 2 then 4 else if id == 3 then 8 else if id == 4 then 12
               else if id == 5 then 16 else if id == 6 then 17 else 18;
      RowStart(k);
      assert Default()[k] in Default();
  }

  lemma RowStart(k: nat)
    requires k < 25
    ensures k == 0 ==> DefaultAt(k).start == UNCONFIGURED && DefaultAt(k).id == 1
    ensures k == 4 ==> DefaultAt(k).start == INACTIVE && DefaultAt(k).id == 2
    ensures k == 8 ==> DefaultAt(k).start == INACTIVE && DefaultAt(k).id == 3
    ensures k == 12 ==> DefaultAt(k).start == ACTIVE && DefaultAt(k).id == 4
    ensures k == 16 ==> DefaultAt(k).start == UNCONFIGURED && DefaultAt(k).id == 5
    ensures k == 17 ==> DefaultAt(k).start == INACTIVE && DefaultAt(k).id == 6
    ensures k == 18 ==> DefaultAt(k).start == ACTIVE && DefaultAt(k).id == 7
  {
  }

  /** The row that handles an outcome. */
  function OutcomeRow(s: nat, code: nat): nat {
    (if s == CONFIGURING then 1 else if s == CLEANINGUP then 5 else if s == ACTIVATING then 9
     else if s == DEACTIVATING then 13 else if s == SHUTTINGDOWN then 19 else 22)
    + (if code == SUCCESS_CODE then 0 else if code == FAILURE_CODE then 1 else 2)
  }

  lemma OutcomeRowIs(s: nat, code: nat)
    requires IsTransitionState(s)
    ensures OutcomeRow(s, code) < 25
    ensures DefaultAt(OutcomeRow(s, code)).start == s && DefaultAt(OutcomeRow(s, code)).name == LabelFor(code)
  {
  }

  /** From a transition state every callback code has its transition. */
  lemma DefaultOutcomes(s: nat, code: nat)
    requires IsTransitionState(s)
    ensures var r := ByLabel(Default(), s, LabelFor(code)); r.Some? && r.value.goal == Some(OutcomeGoal(s, code))
  {
    hide ByLabel, DefaultAt;
    OutcomeRowIs(s, code);
    assert Default()[OutcomeRow(s, code)] in Default();
    var k := RowOf(ByLabel(Default(), s, LabelFor(code)).value);
    RowGoal(k, code);
  }

  lemma RecoveryRow(k: nat)
    requires k < 25
    ensures var t := DefaultAt(k);
            && (t.start == ERRORPROCESSING <==> k >= 22)
            && (k >= 22 ==> t.goal.Some? && t.goal == RecoveryGoal(t.id) && IsOutcomeLabel(t.name))
            && (IsPrimary(t.start) ==> !IsOutcomeLabel(t.name))
    ensures k == 22 ==> DefaultAt(k).id == 60 && DefaultAt(k).name == SUCCESS_LABEL
    ensures k == 23 ==> DefaultAt(k).id == 61 && DefaultAt(k).name == FAILURE_LABEL
    ensures k == 24 ==> DefaultAt(k).id == 62 && DefaultAt(k).name == ERROR_LABEL
  {
  }

  /** From error processing only unconfigured and finalized can be requested. */
  lemma DefaultRecovery(id: nat)
    ensures match ById(Default(), ERRORPROCESSING, id)
            case Some(t) => t.goal == RecoveryGoal(id) && t.goal.Some?
            case None => RecoveryGoal(id) == None
  {
    hide ById, DefaultAt;
    match ById(Default(), ERRORPROCESSING, id)
    case Some(t) =>
      var k := RowOf(t);
      RecoveryRow(k);
    case None =>
      var k := if id == 60 then 22 else if id == 61 then 23 else 24;
      RecoveryRow(k);
      assert Default()[k] in Default();
  }

  /** The same by label. */
  lemma DefaultRecoveryLabel(name: string)
    ensures match ByLabel(Default(), ERRORPROCESSING, name)
            case Some(t) => IsOutcomeLabel(name) && RecoveryGoal(t.id).Some?
            case None => !IsOutcomeLabel(name)
  {
    hide ByLabel, DefaultAt;
    match ByLabel(Default(), ERRORPROCESSING, name)
    case Some(t) =>
      var k := RowOf(t);
      RecoveryRow(k);
    case None =>
      var k := if name == SUCCESS_LABEL then 22 else if name == FAILURE_LABEL then 23 else 24;
      RecoveryRow(k);
      assert Default()[k] in Default();
  }

  /** No outcome label leaves a primary state. */
  lemma NoOutcomeFromPrimary(s: nat, code: nat)
    requires IsPrimary(s)
    ensures ByLabel(Default(), s, LabelFor(code)) == None
  {
    hide ByLabel, DefaultAt;
    var r := ByLabel(Default(), s, LabelFor(code));
    if r.Some? {
      var k := RowOf(r.value);
      RecoveryRow(k);
    }
  }

  /** Within a state, labels and ids name the same transitions. */
  lemma LabelThenId(s: nat, name: string)
    ensures var r := ByLabel(Default(), s, name);
            r.Some? ==> ById(Default(), s, r.value.id) == r
  {
    hide ByLabel, ById, DefaultAt;
    var r := ByLabel(Default(), s, name);
    if r.Some? {
      var k := RowOf(r.value);
      var k' := RowOf(ById(Default(), s, r.value.id).value);
      IdsAreUnique(k, k');
    }
  }

  lemma IdsAreUnique(k: nat, k': nat)
    requires k < 25 && k' < 25 && DefaultAt(k).id == DefaultAt(k').id
    ensures k == k'
  {
    RowId(k);
    RowId(k');
  }

  lemma RowId(k: nat)
    requires k < 25
    ensures DefaultAt(k).id
         == if k == 0 then 1 else if k < 4 then 9 + k else if k == 4 then 2 else if k < 8 then 15 + k
            else if k == 8 then 3 else if k < 12 then 21 + k else if k == 12 then 4 else if k < 16 then 27 + k
            else if k < 19 then k - 11 else if k < 22 then 31 + k else 38 + k
  {
  }
}
