/** The state machine object of a lifecycle node, with its fields updated in place. */
module LifecycleNode {
  import opened Common
  import opened Lifecycle
  import opened LifecycleRuns

  function Ids(states: seq<State>): (ids: seq<nat>)
    ensures |ids| == |states| && forall i :: 0 <= i < |states| ==> ids[i] == states[i].id
  {
    seq(|states|, i requires 0 <= i < |states| => states[i].id)
  }

  lemma HasStateIsMember(g: Graph, id: nat)
    ensures HasState(g, id) <==> id in Ids(g.states)
  {
    var i := StateIndex(g.states, id);
    if i < |g.states| {
      assert Ids(g.states)[i] == id;
    }
  }

  class StateMachine {
    var states: seq<State>
    var transitions: seq<Transition>
    var current: Option<nat>
    /** The transition states for which a callback is attached. */
    var attached: set<nat>
    ghost var log: seq<Entry>

    ghost function G(): Graph
      reads this
    {
      Graph(states, transitions)
    }

    /** Initialised as the default machine. */
    ghost predicate Ready()
      reads this
    {
      && Indexed(G()) && transitions == Default() && Ids(states) == DefaultStateIds()
      && current.Some? && current.value in Ids(states)
    }

    ghost function View(): Node
      reads this
      requires current.Some?
    {
      Node(current.value, log)
    }

    constructor ()
      ensures states == [] && transitions == [] && current == None && log == [] && attached == {}
    {
      states, transitions, current, attached, log := [], [], None, {}, [];
    }

    // ---------- Registration ----------

    method GetState(id: nat) returns (i: nat)
      ensures i == StateIndex(states, id)
    {
      i := 0;
      while i < |states|
        invariant i <= |states| && StateIndex(states, id) == i + StateIndex(states[i..], id)
      {
        if states[i].id == id {
          return;
        }
        assert states[i..][1..] == states[i + 1..];
        i := i + 1;
      }
    }

    method RegisterState(s: State) returns (ok: bool)
      modifies this`states
      ensures ok <==> s.id !in Ids(old(states))
      ensures (if ok then Some(G()) else None) == Register(old(G()), Op.RegisterState(s))
      ensures ok ==> Ids(states) == Ids(old(states)) + [s.id]
      ensures !ok ==> states == old(states)
      ensures old(Indexed(G())) && s.valid == [] ==> Indexed(G())
    {
      HasStateIsMember(G(), s.id);
      var i := GetState(s.id);
      if i < |states| {
        return false;
      }
      if Indexed(G()) {
        StateKeepsIndex(G(), s);
      }
      states := states + [s];
      ok := true;
    }

    method RegisterTransition(t: Transition) returns (ok: bool)
      modifies this`states, this`transitions
      ensures ok <==> t.start in Ids(old(states))
      ensures (if ok then Some(G()) else None) == Register(old(G()), Op.RegisterTransition(t))
      ensures Ids(states) == Ids(old(states))
      ensures transitions == old(transitions) + if ok then [t] else []
      ensures old(Indexed(G())) ==> Indexed(G())
    {
      HasStateIsMember(G(), t.start);
      var i := GetState(t.start);
      if i == |states| {
        return false;
      }
      if Indexed(G()) {
        TransitionKeepsIndex(G(), t);
      }
      transitions := transitions + [t];
      states := states[i := states[i].(valid := states[i].valid + [t])];
      ok := true;
    }

    // ---------- The default machine ----------

    /** Registers the `k`-th default state. */
    method RegisterDefaultState(s: State, ghost k: nat) returns (ok: bool)
      requires k < 11 && Ids(states) == DefaultStateIds()[..k] && Indexed(G())
      requires s.id == DefaultStateIds()[k] && s.valid == []
      modifies this`states
      ensures ok && Ids(states) == DefaultStateIds()[..k + 1] && Indexed(G())
    {
      hide Indexed, Register;
      DefaultIdsDiffer(k);
      ok := RegisterState(s);
      assert DefaultStateIds()[..k + 1] == DefaultStateIds()[..k] + [s.id];
    }

    /** Registers the `k`-th default transition. */
    method RegisterDefaultTransition(t: Transition, ghost k: nat) returns (ok: bool)
      requires Ids(states) == DefaultStateIds() && Indexed(G())
      requires k < 25 && transitions == Default()[..k] && t == DefaultAt(k)
      modifies this`states, this`transitions
      ensures ok && Ids(states) == DefaultStateIds() && Indexed(G()) && transitions == Default()[..k + 1]
    {
      hide Indexed, Register, DefaultAt, DefaultStateIds;
      StartIsKnown(k);
      ok := RegisterTransition(t);
      assert Default()[..k + 1] == Default()[..k] + [t];
    }

    method RegisterPrimaryStates() returns (ok: bool)
      requires states == [] && transitions == []
      modifies this`states
      ensures ok && Ids(states) == DefaultStateIds()[..5] && Indexed(G())
    {
      assert Indexed(G());
      hide Indexed, Ids;
      ok := RegisterDefaultState(State("unknown", UNKNOWN, []), 0);
      ok := RegisterDefaultState(State("unconfigured", UNCONFIGURED, []), 1);
      ok := RegisterDefaultState(State("inactive", INACTIVE, []), 2);
      ok := RegisterDefaultState(State("active", ACTIVE, []), 3);
      ok := RegisterDefaultState(State("finalized", FINALIZED, []), 4);
    }

    method RegisterTransitionStates() returns (ok: bool)
      requires Ids(states) == DefaultStateIds()[..5] && Indexed(G())
      modifies this`states
      ensures ok && Ids(states) == DefaultStateIds() && Indexed(G())
    {
      hide Indexed, Ids;
      ok := RegisterDefaultState(State("configuring", CONFIGURING, []), 5);
      ok := RegisterDefaultState(State("cleaningup", CLEANINGUP, []), 6);
      ok := RegisterDefaultState(State("shuttingdown", SHUTTINGDOWN, []), 7);
      ok := RegisterDefaultState(State("activating", ACTIVATING, []), 8);
      ok := RegisterDefaultState(State("deactivating", DEACTIVATING, []), 9);
      ok := RegisterDefaultState(State("errorprocessing", ERRORPROCESSING, []), 10);
      assert DefaultStateIds()[..11] == DefaultStateIds();
    }

    method RegisterConfigure() returns (ok: bool)
      requires Ids(states) == DefaultStateIds() && Indexed(G()) && transitions == Default()[..0]
      modifies this`states, this`transitions
      ensures ok && Ids(states) == DefaultStateIds() && Indexed(G()) && transitions == Default()[..4]
    {
      hide Indexed, Ids, DefaultStateIds, Default;
      ok := RegisterDefaultTransition(Transition("configure", 1, UNCONFIGURED, Some(CONFIGURING)), 0);
      ok := RegisterDefaultTransition(Transition(SUCCESS_LABEL, 10, CONFIGURING, Some(INACTIVE)), 1);
      ok := RegisterDefaultTransition(Transition(FAILURE_LABEL, 11, CONFIGURING, Some(UNCONFIGURED)), 2);
      ok := RegisterDefaultTransition(Transition(ERROR_LABEL, 12, CONFIGURING, Some(ERRORPROCESSING)), 3);
    }

    method RegisterCleanup() returns (ok: bool)
      requires Ids(states) == DefaultStateIds() && Indexed(G()) && transitions == Default()[..4]
      modifies this`states, this`transitions
      ensures ok && Ids(states) == DefaultStateIds() && Indexed(G()) && transitions == Default()[..8]
    {
      hide Indexed, Ids, DefaultStateIds, Default;
      ok := RegisterDefaultTransition(Transition("cleanup", 2, INACTIVE, Some(CLEANINGUP)), 4);
      ok := RegisterDefaultTransition(Transition(SUCCESS_LABEL, 20, CLEANINGUP, Some(UNCONFIGURED)), 5);
      ok := RegisterDefaultTransition(Transition(FAILURE_LABEL, 21, CLEANINGUP, Some(INACTIVE)), 6);
      ok := RegisterDefaultTransition(Transition(ERROR_LABEL, 22, CLEANINGUP, Some(ERRORPROCESSING)), 7);
    }

    method RegisterActivate() returns (ok: bool)
      requires Ids(states) == DefaultStateIds() && Indexed(G()) && transitions == Default()[..8]
      modifies this`states, this`transitions
      ensures ok && Ids(states) == DefaultStateIds() && Indexed(G()) && transitions == Default()[..12]
    {
      hide Indexed, Ids, DefaultStateIds, Default;
      ok := RegisterDefaultTransition(Transition("activate", 3, INACTIVE, Some(ACTIVATING)), 8);
      ok := RegisterDefaultTransition(Transition(SUCCESS_LABEL, 30, ACTIVATING, Some(ACTIVE)), 9);
      ok := RegisterDefaultTransition(Transition(FAILURE_LABEL, 31, ACTIVATING, Some(INACTIVE)), 10);
      ok := RegisterDefaultTransition(Transition(ERROR_LABEL, 32, ACTIVATING, Some(ERRORPROCESSING)), 11);
    }

    method RegisterDeactivate() returns (ok: bool)
      requires Ids(states) == DefaultStateIds() && Indexed(G()) && transitions == Default()[..12]
      modifies this`states, this`transitions
      ensures ok && Ids(states) == DefaultStateIds() && Indexed(G()) && transitions == Default()[..16]
    {
      hide Indexed, Ids, DefaultStateIds, Default;
      ok := RegisterDefaultTransition(Transition("deactivate", 4, ACTIVE, Some(DEACTIVATING)), 12);
      ok := RegisterDefaultTransition(Transition(SUCCESS_LABEL, 40, DEACTIVATING, Some(INACTIVE)), 13);
      ok := RegisterDefaultTransition(Transition(FAILURE_LABEL, 41, DEACTIVATING, Some(ACTIVE)), 14);
      ok := RegisterDefaultTransition(Transition(ERROR_LABEL, 42, DEACTIVATING, Some(ERRORPROCESSING)), 15);
    }

    method RegisterShutdown() returns (ok: bool)
      requires Ids(states) == DefaultStateIds() && Indexed(G()) && transitions == Default()[..16]
      modifies this`states, this`transitions
      ensures ok && Ids(states) == DefaultStateIds() && Indexed(G()) && transitions == Default()[..22]
    {
      hide Indexed, Ids, DefaultStateIds, Default;
      ok := RegisterDefaultTransition(Transition("shutdown", 5, UNCONFIGURED, Some(SHUTTINGDOWN)), 16);
      ok := RegisterDefaultTransition(Transition("shutdown", 6, INACTIVE, Some(SHUTTINGDOWN)), 17);
      ok := RegisterDefaultTransition(Transition("shutdown", 7, ACTIVE, Some(SHUTTINGDOWN)), 18);
      ok := RegisterDefaultTransition(Transition(SUCCESS_LABEL, 50, SHUTTINGDOWN, Some(FINALIZED)), 19);
      ok := RegisterDefaultTransition(Transition(FAILURE_LABEL, 51, SHUTTINGDOWN, Some(FINALIZED)), 20);
      ok := RegisterDefaultTransition(Transition(ERROR_LABEL, 52, SHUTTINGDOWN, Some(ERRORPROCESSING)), 21);
    }

    method RegisterErrorHandling() returns (ok: bool)
      requires Ids(states) == DefaultStateIds() && Indexed(G()) && transitions == Default()[..22]
      modifies this`states, this`transitions
      ensures ok && Ids(states) == DefaultStateIds() && Indexed(G()) && transitions == Default()[..25]
    {
      hide Indexed, Ids, DefaultStateIds, Default;
      ok := RegisterDefaultTransition(Transition(SUCCESS_LABEL, 60, ERRORPROCESSING, Some(UNCONFIGURED)), 22);
      ok := RegisterDefaultTransition(Transition(FAILURE_LABEL, 61, ERRORPROCESSING, Some(FINALIZED)), 23);
      ok := RegisterDefaultTransition(Transition(ERROR_LABEL, 62, ERRORPROCESSING, Some(FINALIZED)), 24);
    }

    method RegisterTransitions() returns (ok: bool)
      requires Ids(states) == DefaultStateIds() && Indexed(G()) && transitions == []
      modifies this`states, this`transitions
      ensures ok && Ids(states) == DefaultStateIds() && Indexed(G()) && transitions == Default()
    {
      hide Indexed, Ids, DefaultStateIds, Default;
      ok := RegisterConfigure();
      ok := RegisterCleanup();
      ok := RegisterActivate();
      ok := RegisterDeactivate();
      ok := RegisterShutdown();
      ok := RegisterErrorHandling();
      assert Default()[..25] == Default();
    }

    method InitDefault() returns (ok: bool)
      requires states == [] && transitions == [] && log == []
      modifies this`states, this`transitions, this`current
      ensures ok && Ready() && View() == START
    {
      hide Indexed, Default;
      ok := RegisterPrimaryStates();
      ok := RegisterTransitionStates();
      ok := RegisterTransitions();
      var i := GetState(UNCONFIGURED);
      HasStateIsMember(G(), UNCONFIGURED);
      assert DefaultStateIds()[1] == UNCONFIGURED;
      current := Some(states[i].id);
    }

    // ---------- Triggering ----------

    method FindById(id: nat) returns (t: Option<Transition>)
      requires Ready()
      ensures t == ById(Default(), current.value, id)
    {
      HasStateIsMember(G(), current.value);
      var s := GetState(current.value);
      StateLookupAgrees(G(), s, id, "");
      var valid := states[s].valid;
      var i := 0;
      while i < |valid|
        invariant i <= |valid| && FirstById(valid, id) == FirstById(valid[i..], id)
      {
        assert valid[i..][1..] == valid[i + 1..];
        if valid[i].id == id {
          return Some(valid[i]);
        }
        i := i + 1;
      }
      t := None;
    }

    method FindByLabel(name: string) returns (t: Option<Transition>)
      requires Ready()
      ensures t == ByLabel(Default(), current.value, name)
    {
      HasStateIsMember(G(), current.value);
      var s := GetState(current.value);
      StateLookupAgrees(G(), s, 0, name);
      var valid := states[s].valid;
      var i := 0;
      while i < |valid|
        invariant i <= |valid| && FirstByLabel(valid, name) == FirstByLabel(valid[i..], name)
      {
        assert valid[i..][1..] == valid[i + 1..];
        if valid[i].name == name {
          return Some(valid[i]);
        }
        i := i + 1;
      }
      t := None;
    }

    method TriggerTransition(t: Option<Transition>) returns (ok: bool)
      requires Ready() && (t.Some? ==> t.value in Default())
      modifies this`current, this`log
      ensures Ready()
      ensures match Trigger(old(View()), t)
              case Some(n) => ok && View() == n
              case None => !ok && View() == old(View())
    {
      if t.None? || t.value.goal.None? {
        return false;
      }
      GoalIsKnown(t.value);
      current := t.value.goal;
      log := log + [Published(t.value.start, current.value)];
      ok := true;
    }

    /** User code runs here: `o` is what it does. */
    method ExecuteCallback(o: CallbackOutcome) returns (code: nat)
      requires Ready()
      modifies this`log
      ensures Ready() && code == CallbackCode(attached, current.value, o) && View() == Call(attached, old(View()), o)
    {
      code := SUCCESS_CODE;
      if current.value in attached {
        match o
        case Returned(c) => code := c;
        case Threw => code := ERROR_CODE;
      }
      log := log + [Called(current.value, code)];
    }

    method ChangeState(id: nat, o1: CallbackOutcome, o2: CallbackOutcome) returns (ok: bool)
      requires Ready()
      modifies this`current, this`log
      ensures Ready()
      ensures (View(), ok) == LifecycleRuns.ChangeState(attached, old(View()), id, o1, o2)
    {
      hide ById, ByLabel, Default, Indexed;
      var t := FindById(id);
      ok := TriggerTransition(t);
      if !ok {
        return;
      }
      var code := ExecuteCallback(o1);
      t := FindByLabel(LabelFor(code));
      ok := TriggerTransition(t);
      if !ok {
        return;
      }
      if code == ERROR_CODE {
        var errorCode := ExecuteCallback(o2);
        t := FindByLabel(LabelFor(errorCode));
        ok := TriggerTransition(t);
      }
    }

    /** The service entry: a label, when given, takes precedence over the id. */
    method OnChangeState(r: Request)
      requires Ready()
      modifies this`current, this`log
      ensures Ready() && View() == Handle(attached, old(View()), r)
    {
      hide ById, ByLabel, Default, Indexed;
      var id := r.id;
      if |r.name| != 0 {
        var t := FindByLabel(r.name);
        if t.None? {
          return;
        }
        id := t.value.id;
      }
      var ok := ChangeState(id, r.first, r.second);
    }
  }

  lemma DefaultIdsDiffer(k: nat)
    requires k < 11
    ensures DefaultStateIds()[k] !in DefaultStateIds()[..k]
  {
  }

  lemma StartIsKnown(k: nat)
    requires k < 25
    ensures DefaultAt(k).start in DefaultStateIds()
  {
  }

  lemma GoalIsKnown(t: Transition)
    requires t in Default()
    ensures t.goal.Some? && t.goal.value in DefaultStateIds()
  {
    var k := RowOf(t);
  }

  /** A default machine serving any sequence of requests keeps every property of runs. */
  method Serve(attached: set<nat>, rs: seq<Request>) returns (current: nat)
    ensures current == Run(attached, START, rs).current && Invariant(Run(attached, START, rs))
    ensures IsPrimary(current) <==> !exists k :: 0 <= k < |rs| && DerailedSince(attached, rs, k, |rs|)
  {
    hide Invariant, Handle, DerailedSince;
    var m := new StateMachine();
    var ok := m.InitDefault();
    m.attached := attached;
    for i := 0 to |rs|
      invariant m.Ready() && m.attached == attached
      invariant Run(attached, m.View(), rs[i..]) == Run(attached, START, rs)
    {
      assert rs[i..][0] == rs[i] && rs[i..][1..] == rs[i + 1..];
      m.OnChangeState(rs[i]);
    }
    StartSatisfiesInvariant();
    RunKeepsInvariant(attached, START, rs);
    RunEndsPrimary(attached, rs, |rs|);
    assert rs[..|rs|] == rs;
    current := m.current.value;
  }
}
