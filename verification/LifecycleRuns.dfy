/** Runs of a lifecycle node: requests, user callbacks with arbitrary outcomes, and what holds after every call. */
module LifecycleRuns {
  import opened Common
  import opened Lifecycle

  /** What user code does when it is called. */
  datatype CallbackOutcome = Returned(code: nat) | Threw

  predicate IsDeclared(code: nat) {
    code == SUCCESS_CODE || code == FAILURE_CODE || code == ERROR_CODE
  }

  /** What happens at a node, in order: notifications published and callbacks that returned. */
  datatype Entry = Published(start: nat, goal: nat) | Called(state: nat, code: nat)

  datatype Node = Node(current: nat, log: seq<Entry>)

  const START := Node(UNCONFIGURED, [])

  /** A state without a callback counts as successful; an exception counts as an error. */
  function CallbackCode(attached: set<nat>, state: nat, o: CallbackOutcome): nat {
    if state !in attached then SUCCESS_CODE else if o.Threw? then ERROR_CODE else o.code
  }

  function Call(attached: set<nat>, n: Node, o: CallbackOutcome): Node {
    n.(log := n.log + [Called(n.current, CallbackCode(attached, n.current, o))])
  }

  function Trigger(n: Node, t: Option<Transition>): Option<Node> {
    if t.None? || t.value.goal.None? then None
    else Some(Node(t.value.goal.value, n.log + [Published(t.value.start, t.value.goal.value)]))
  }

  /** One request: start the transition, call back, finish; an error calls back once more. */
  function ChangeState(attached: set<nat>, n: Node, id: nat, o1: CallbackOutcome, o2: CallbackOutcome): (Node, bool) {
    match Trigger(n, ById(Default(), n.current, id))
    case None => (n, false)
    case Some(n1) =>
      var code := CallbackCode(attached, n1.current, o1);
      var n2 := Call(attached, n1, o1);
      match Trigger(n2, ByLabel(Default(), n2.current, LabelFor(code)))
      case None => (n2, false)
      case Some(n3) =>
        if code != ERROR_CODE then (n3, true)
        else
          var n4 := Call(attached, n3, o2);
          match Trigger(n4, ByLabel(Default(), n4.current, LabelFor(CallbackCode(attached, n3.current, o2))))
          case None => (n4, false)
          case Some(n5) => (n5, true)
  }

  /** A request names a transition by id or, taking precedence, by a label valid in the current state. */
  datatype Request = Request(id: nat, name: string, first: CallbackOutcome, second: CallbackOutcome)

  function Resolve(s: nat, r: Request): Option<nat> {
    if r.name == "" then Some(r.id)
    else
      match ByLabel(Default(), s, r.name)
      case Some(t) => Some(t.id)
      case None => None
  }

  function Handle(attached: set<nat>, n: Node, r: Request): Node {
    match Resolve(n.current, r)
    case None => n
    case Some(id) => ChangeState(attached, n, id, r.first, r.second).0
  }

  function Run(attached: set<nat>, n: Node, rs: seq<Request>): Node
    decreases rs
  {
    if rs == [] then n else Run(attached, Handle(attached, n, rs[0]), rs[1..])
  }

  // ---------- One call ----------

  /** The first callback of a request answers with one of the three declared codes. */
  predicate DeclaredOutcome(o: CallbackOutcome) {
    o.Threw? || IsDeclared(o.code)
  }

  /** What one request appends to the log. */
  function Appended(attached: set<nat>, s: nat, id: nat, o1: CallbackOutcome, o2: CallbackOutcome): seq<Entry> {
    match RequestGoal(s, id)
    case None => []
    case Some(mid) =>
      var code := CallbackCode(attached, mid, o1);
      if code != ERROR_CODE then [Published(s, mid), Called(mid, code), Published(mid, OutcomeGoal(mid, code))]
      else
        var code2 := CallbackCode(attached, ERRORPROCESSING, o2);
        [Published(s, mid), Called(mid, code), Published(mid, ERRORPROCESSING),
         Called(ERRORPROCESSING, code2), Published(ERRORPROCESSING, OutcomeGoal(ERRORPROCESSING, code2))]
  }

  /** Where one request ends. */
  function Ends(attached: set<nat>, s: nat, id: nat, o1: CallbackOutcome, o2: CallbackOutcome): nat {
    match RequestGoal(s, id)
    case None => s
    case Some(mid) =>
      var code := CallbackCode(attached, mid, o1);
      if code == ERROR_CODE then OutcomeGoal(ERRORPROCESSING, CallbackCode(attached, ERRORPROCESSING, o2))
      else OutcomeGoal(mid, code)
  }

  /** The compound step, in closed form. */
  lemma ChangeStateEffect(attached: set<nat>, n: Node, id: nat, o1: CallbackOutcome, o2: CallbackOutcome)
    requires IsPrimary(n.current)
    ensures var (n', ok) := ChangeState(attached, n, id, o1, o2);
            && n' == Node(Ends(attached, n.current, id, o1, o2), n.log + Appended(attached, n.current, id, o1, o2))
            && (ok <==> RequestGoal(n.current, id).Some?)
  {
    hide ById, ByLabel, Default, LabelFor;
    DefaultRequests(n.current, id);
    match RequestGoal(n.current, id) {
      case None =>
        assert n.log + [] == n.log;
      case Some(mid) =>
        var code := CallbackCode(attached, mid, o1);
        DefaultOutcomes(mid, code);
        DefaultOutcomes(ERRORPROCESSING, CallbackCode(attached, ERRORPROCESSING, o2));
        var (n', ok) := ChangeState(attached, n, id, o1, o2);
        assert n'.log == n.log + Appended(attached, n.current, id, o1, o2);
    }
  }

  /** In error processing a request can only recover: it arrives, calls back there and finds no outcome to go on with. */
  lemma RecoveryEffect(attached: set<nat>, n: Node, id: nat, o1: CallbackOutcome, o2: CallbackOutcome)
    requires n.current == ERRORPROCESSING
    ensures ChangeState(attached, n, id, o1, o2)
         == match RecoveryGoal(id)
            case None => (n, false)
            case Some(goal) =>
              (Node(goal, n.log + [Published(ERRORPROCESSING, goal), Called(goal, CallbackCode(attached, goal, o1))]), false)
  {
    hide ById, ByLabel, Default, LabelFor;
    DefaultRecovery(id);
    match RecoveryGoal(id) {
      case None =>
      case Some(goal) =>
        var code := CallbackCode(attached, goal, o1);
        NoOutcomeFromPrimary(goal, code);
        assert n.log + [Published(ERRORPROCESSING, goal)] + [Called(goal, code)]
            == n.log + [Published(ERRORPROCESSING, goal), Called(goal, code)];
    }
  }

  /**
   A call that starts in a primary state ends in one exactly when it is refused or its first callback
   answers with a declared code; any other code leaves the node in error processing. After an error the second callback
   decides: success leads to unconfigured, every other code, declared or not, to finalized.
   */
  lemma EndsPrimary(attached: set<nat>, n: Node, id: nat, o1: CallbackOutcome, o2: CallbackOutcome)
    requires IsPrimary(n.current)
    ensures var end := ChangeState(attached, n, id, o1, o2).0.current;
            var mid := RequestGoal(n.current, id);
            && (IsPrimary(end) <==> mid.None? || IsDeclared(CallbackCode(attached, mid.value, o1)))
            && (!IsPrimary(end) ==> end == ERRORPROCESSING)
            && (mid.Some? && CallbackCode(attached, mid.value, o1) == ERROR_CODE ==>
                  end == if CallbackCode(attached, ERRORPROCESSING, o2) == SUCCESS_CODE then UNCONFIGURED else FINALIZED)
  {
    hide ChangeState;
    ChangeStateEffect(attached, n, id, o1, o2);
  }

  function Calls(log: seq<Entry>): nat {
    if log == [] then 0 else Calls(log[..|log| - 1]) + (if log[|log| - 1].Called? then 1 else 0)
  }

  lemma CallsAppend(log: seq<Entry>, e: Entry)
    ensures Calls(log + [e]) == Calls(log) + if e.Called? then 1 else 0
  {
    assert (log + [e])[..|log|] == log;
  }

  /** No callback when refused, one when accepted, exactly one more after an error. */
  lemma CallbackCount(attached: set<nat>, n: Node, id: nat, o1: CallbackOutcome, o2: CallbackOutcome)
    requires IsPrimary(n.current)
    ensures Calls(ChangeState(attached, n, id, o1, o2).0.log) - Calls(n.log)
         == match RequestGoal(n.current, id)
            case None => 0
            case Some(mid) => if CallbackCode(attached, mid, o1) == ERROR_CODE then 2 else 1
  {
    hide ChangeState, Calls;
    ChangeStateEffect(attached, n, id, o1, o2);
    var a := Appended(attached, n.current, id, o1, o2);
    CallsConcat(n.log, a);
    if |a| == 3 {
      CallsOf(a[0], a[1], a[2]);
      assert a == [a[0], a[1], a[2]];
    } else if |a| == 5 {
      CallsOf(a[0], a[1], a[2]);
      CallsAppend([a[0], a[1], a[2]], a[3]);
      CallsAppend([a[0], a[1], a[2]] + [a[3]], a[4]);
      assert a == [a[0], a[1], a[2]] + [a[3]] + [a[4]];
    } else {
      CallsOfNothing();
    }
  }

  lemma CallsOfNothing()
    ensures Calls([]) == 0
  {
  }

  lemma CallsOf(a: Entry, b: Entry, c: Entry)
    ensures Calls([a, b, c]) == (if a.Called? then 1 else 0) + (if b.Called? then 1 else 0) + (if c.Called? then 1 else 0)
  {
    CallsAppend([], a);
    CallsAppend([a], b);
    CallsAppend([a, b], c);
    assert [a, b, c] == [a, b] + [c] && [a, b] == [a] + [b] && [a] == [] + [a];
  }

  lemma {:induction false} CallsConcat(a: seq<Entry>, b: seq<Entry>)
    ensures Calls(a + b) == Calls(a) + Calls(b)
    decreases b
  {
    if b == [] {
      assert a + b == a;
    } else {
      CallsConcat(a, b[..|b| - 1]);
      assert (a + b)[..|a + b| - 1] == a + b[..|b| - 1];
    }
  }

  // ---------- Every run ----------

  ghost predicate IsRegistered(start: nat, goal: nat) {
    exists t :: t in Default() && t.start == start && t.goal == Some(goal)
  }

  /** The notifications in the log lead, one registered transition after the other, from unconfigured to here. */
  ghost function PathEnd(log: seq<Entry>): Option<nat> {
    if log == [] then Some(UNCONFIGURED)
    else
      var before := PathEnd(log[..|log| - 1]);
      match log[|log| - 1]
      case Called(_, _) => before
      case Published(s, g) => if before == Some(s) && IsRegistered(s, g) then Some(g) else None
  }

  /** The part of the log after the last arrival in unconfigured. */
  function Since(log: seq<Entry>): seq<Entry> {
    if log == [] then []
    else
      var e := log[|log| - 1];
      if e.Published? && e.goal == UNCONFIGURED then [] else Since(log[..|log| - 1]) + [e]
  }

  function Successes(log: seq<Entry>, state: nat): nat {
    if log == [] then 0
    else Successes(log[..|log| - 1], state) + if log[|log| - 1] == Called(state, SUCCESS_CODE) then 1 else 0
  }

  /** Nothing happened in unconfigured but the callback of the request that recovered from error processing. */
  predicate Quiet(recent: seq<Entry>) {
    recent == [] || (|recent| == 1 && recent[0].Called? && recent[0].state == UNCONFIGURED)
  }

  /** What every call leaves behind, whatever the callbacks answered. */
  ghost predicate Invariant(n: Node) {
    var recent := Since(n.log);
    var configured, activated, deactivated :=
      Successes(recent, CONFIGURING), Successes(recent, ACTIVATING), Successes(recent, DEACTIVATING);
    && (IsPrimary(n.current) || n.current == ERRORPROCESSING) && PathEnd(n.log) == Some(n.current)
    && (n.current == UNCONFIGURED ==> Quiet(recent) && configured == activated == deactivated == 0)
    && (n.current == INACTIVE || n.current == ACTIVE ==> configured == 1)
    && (n.current == INACTIVE ==> activated == deactivated) && (n.current == ACTIVE ==> activated == deactivated + 1)
  }

  /** The figures of the invariant, and how one more entry changes them. */
  datatype Tally = Tally(end: Option<nat>, configured: nat, activated: nat, deactivated: nat)

  ghost function TallyOf(log: seq<Entry>): Tally {
    var recent := Since(log);
    Tally(PathEnd(log), Successes(recent, CONFIGURING), Successes(recent, ACTIVATING), Successes(recent, DEACTIVATING))
  }

  ghost function Count(t: Tally, e: Entry): Tally {
    match e
    case Called(s, c) =>
      if c != SUCCESS_CODE then t
      else if s == CONFIGURING then t.(configured := t.configured + 1)
      else if s == ACTIVATING then t.(activated := t.activated + 1)
      else if s == DEACTIVATING then t.(deactivated := t.deactivated + 1)
      else t
    case Published(s, g) =>
      var end := if t.end == Some(s) && IsRegistered(s, g) then Some(g) else None;
      if g == UNCONFIGURED then Tally(end, 0, 0, 0) else t.(end := end)
  }

  lemma TallyAppend(log: seq<Entry>, e: Entry)
    ensures TallyOf(log + [e]) == Count(TallyOf(log), e)
    ensures Since(log + [e]) == [] <==> e.Published? && e.goal == UNCONFIGURED
  {
    hide IsRegistered;
    assert (log + [e])[..|log|] == log;
    var recent := Since(log);
    assert (recent + [e])[..|recent|] == recent;
  }

  ghost function CountAll(t: Tally, es: seq<Entry>): Tally
    decreases es
  {
    if es == [] then t else CountAll(Count(t, es[0]), es[1..])
  }

  lemma {:induction false} TallyConcat(log: seq<Entry>, es: seq<Entry>)
    ensures TallyOf(log + es) == CountAll(TallyOf(log), es)
    ensures es != [] ==> (Since(log + es) == [] <==> es[|es| - 1].Published? && es[|es| - 1].goal == UNCONFIGURED)
    decreases es
  {
    hide TallyOf, Count;
    if es == [] {
      assert log + es == log;
    } else {
      TallyAppend(log, es[0]);
      TallyConcat(log + [es[0]], es[1..]);
      assert log + [es[0]] + es[1..] == log + es;
      if |es| == 1 { assert es == [es[0]]; }
    }
  }

  lemma RequestIsRegistered(s: nat, id: nat)
    requires IsPrimary(s) && RequestGoal(s, id).Some?
    ensures IsRegistered(s, RequestGoal(s, id).value)
  {
    hide ById, Default;
    DefaultRequests(s, id);
    assert ById(Default(), s, id).value in Default();
  }

  lemma OutcomeIsRegistered(s: nat, code: nat)
    requires IsTransitionState(s)
    ensures IsRegistered(s, OutcomeGoal(s, code))
  {
    hide ByLabel, Default, LabelFor;
    DefaultOutcomes(s, code);
    assert ByLabel(Default(), s, LabelFor(code)).value in Default();
  }

  lemma CountThree(t: Tally, a: Entry, b: Entry, c: Entry)
    ensures CountAll(t, [a, b, c]) == Count(Count(Count(t, a), b), c)
  {
    hide Count;
    assert [a, b, c][1..] == [b, c] && [b, c][1..] == [c] && [c][1..] == [];
    assert CountAll(Count(Count(t, a), b), [c]) == CountAll(Count(Count(Count(t, a), b), c), []);
    assert CountAll(Count(t, a), [b, c]) == CountAll(Count(Count(t, a), b), [c]);
  }

  lemma CountFive(t: Tally, a: Entry, b: Entry, c: Entry, d: Entry, e: Entry)
    ensures CountAll(t, [a, b, c, d, e]) == Count(Count(Count(Count(Count(t, a), b), c), d), e)
  {
    hide Count;
    assert [a, b, c, d, e][1..] == [b, c, d, e] && [b, c, d, e][1..] == [c, d, e];
    CountThree(Count(Count(t, a), b), c, d, e);
  }

  lemma CountTwo(t: Tally, a: Entry, b: Entry)
    ensures CountAll(t, [a, b]) == Count(Count(t, a), b)
  {
    hide Count;
    assert [a, b][1..] == [b] && [b][1..] == [];
    assert CountAll(Count(t, a), [b]) == CountAll(Count(Count(t, a), b), []);
  }

  lemma PrimaryKeepsInvariant(attached: set<nat>, n: Node, id: nat, o1: CallbackOutcome, o2: CallbackOutcome)
    requires Invariant(n) && IsPrimary(n.current)
    ensures Invariant(ChangeState(attached, n, id, o1, o2).0)
  {
    hide IsRegistered, PathEnd, Since, Successes, ChangeState, CountAll;
    ChangeStateEffect(attached, n, id, o1, o2);
    var a := Appended(attached, n.current, id, o1, o2);
    TallyConcat(n.log, a);
    match RequestGoal(n.current, id) {
      case None => assert n.log + [] == n.log;
      case Some(mid) =>
        RequestIsRegistered(n.current, id);
        OutcomeIsRegistered(mid, CallbackCode(attached, mid, o1));
        OutcomeIsRegistered(ERRORPROCESSING, CallbackCode(attached, ERRORPROCESSING, o2));
        if |a| == 3 {
          CountThree(TallyOf(n.log), a[0], a[1], a[2]);
          assert a == [a[0], a[1], a[2]];
        } else {
          CountFive(TallyOf(n.log), a[0], a[1], a[2], a[3], a[4]);
          assert a == [a[0], a[1], a[2], a[3], a[4]];
        }
    }
  }

  lemma SinceArrival(log: seq<Entry>, a: Entry, b: Entry)
    requires a.Published? && a.goal == UNCONFIGURED && b.Called?
    ensures Since(log + [a, b]) == [b]
  {
    assert (log + [a, b])[..|log| + 1] == log + [a];
    assert Since(log + [a]) == [];
    assert [] + [b] == [b];
  }

  lemma RecoveryKeepsInvariant(attached: set<nat>, n: Node, id: nat, o1: CallbackOutcome, o2: CallbackOutcome)
    requires Invariant(n) && n.current == ERRORPROCESSING
    ensures Invariant(ChangeState(attached, n, id, o1, o2).0)
  {
    hide IsRegistered, PathEnd, Since, Successes, ChangeState, CountAll;
    RecoveryEffect(attached, n, id, o1, o2);
    match RecoveryGoal(id) {
      case None =>
      case Some(goal) =>
        var a, b := Published(ERRORPROCESSING, goal), Called(goal, CallbackCode(attached, goal, o1));
        OutcomeIsRegistered(ERRORPROCESSING, if goal == UNCONFIGURED then SUCCESS_CODE else FAILURE_CODE);
        TallyConcat(n.log, [a, b]);
        if goal == UNCONFIGURED { SinceArrival(n.log, a, b); }
        CountTwo(TallyOf(n.log), a, b);
    }
  }

  /** Every request, with whatever the callbacks do. */
  lemma ChangeStateKeepsInvariant(attached: set<nat>, n: Node, id: nat, o1: CallbackOutcome, o2: CallbackOutcome)
    requires Invariant(n)
    ensures Invariant(ChangeState(attached, n, id, o1, o2).0)
  {
    hide ChangeState;
    if IsPrimary(n.current) {
      PrimaryKeepsInvariant(attached, n, id, o1, o2);
    } else {
      RecoveryKeepsInvariant(attached, n, id, o1, o2);
    }
  }

  /** After every run of requests with arbitrary ids, labels and callback results, all of the above holds. */
  lemma {:induction false} RunKeepsInvariant(attached: set<nat>, n: Node, rs: seq<Request>)
    requires Invariant(n)
    ensures Invariant(Run(attached, n, rs))
    decreases rs
  {
    hide Invariant, ChangeState, ByLabel;
    if rs != [] {
      match Resolve(n.current, rs[0]) {
        case None =>
        case Some(id) => ChangeStateKeepsInvariant(attached, n, id, rs[0].first, rs[0].second);
      }
      RunKeepsInvariant(attached, Handle(attached, n, rs[0]), rs[1..]);
    }
  }

  lemma StartSatisfiesInvariant()
    ensures Invariant(START)
  {
  }

  /** Nothing leads out of finalized. */
  lemma {:induction false} FinalizedIsAbsorbing(attached: set<nat>, n: Node, rs: seq<Request>)
    requires n.current == FINALIZED
    ensures Run(attached, n, rs) == n
    decreases rs
  {
    hide ChangeState, ByLabel;
    if rs != [] {
      match Resolve(n.current, rs[0]) {
        case None =>
        case Some(id) => ChangeStateEffect(attached, n, id, rs[0].first, rs[0].second);
      }
      assert n.log + [] == n.log;
      FinalizedIsAbsorbing(attached, n, rs[1..]);
    }
  }

  // ---------- When a run leaves the primary states ----------

  /** The request is accepted in a primary state, and its first callback answers with a code that is none of the three. */
  predicate Derails(attached: set<nat>, s: nat, r: Request) {
    && IsPrimary(s) && Resolve(s, r).Some?
    && var mid := RequestGoal(s, Resolve(s, r).value);
       mid.Some? && !IsDeclared(CallbackCode(attached, mid.value, r.first))
  }

  /** The request asks for an outcome of error processing. */
  predicate Recovers(r: Request) {
    if r.name == "" then RecoveryGoal(r.id).Some? else IsOutcomeLabel(r.name)
  }

  /** The state in which request `k` of a run finds the node. */
  function StateAt(attached: set<nat>, rs: seq<Request>, k: nat): nat
    requires k <= |rs|
  {
    Run(attached, START, rs[..k]).current
  }

  lemma {:induction false} RunAppend(attached: set<nat>, n: Node, rs: seq<Request>, r: Request)
    ensures Run(attached, n, rs + [r]) == Handle(attached, Run(attached, n, rs), r)
    decreases rs
  {
    hide Handle;
    if rs == [] {
      assert rs + [r] == [r] && [r][1..] == [];
    } else {
      assert (rs + [r])[1..] == rs[1..] + [r];
      RunAppend(attached, Handle(attached, n, rs[0]), rs[1..], r);
    }
  }

  /** One request, from wherever a run can be. */
  lemma HandleDerails(attached: set<nat>, n: Node, r: Request)
    requires IsPrimary(n.current) || n.current == ERRORPROCESSING
    ensures var end := Handle(attached, n, r).current;
            && (IsPrimary(end) || end == ERRORPROCESSING)
            && (end == ERRORPROCESSING <==>
                  Derails(attached, n.current, r) || (n.current == ERRORPROCESSING && !Recovers(r)))
  {
    hide ChangeState, ByLabel, RequestGoal;
    if IsPrimary(n.current) {
      if Resolve(n.current, r).Some? {
        EndsPrimary(attached, n, Resolve(n.current, r).value, r.first, r.second);
      }
    } else {
      DefaultRecoveryLabel(r.name);
      if Resolve(n.current, r).Some? {
        RecoveryEffect(attached, n, Resolve(n.current, r).value, r.first, r.second);
      }
    }
  }

  lemma StateAtNext(attached: set<nat>, rs: seq<Request>, k: nat)
    requires k < |rs| && (IsPrimary(StateAt(attached, rs, k)) || StateAt(attached, rs, k) == ERRORPROCESSING)
    ensures var s, s' := StateAt(attached, rs, k), StateAt(attached, rs, k + 1);
            && (IsPrimary(s') || s' == ERRORPROCESSING)
            && (s' == ERRORPROCESSING <==> Derails(attached, s, rs[k]) || (s == ERRORPROCESSING && !Recovers(rs[k])))
  {
    hide Handle, Run, Derails, Recovers;
    assert rs[..k + 1] == rs[..k] + [rs[k]];
    RunAppend(attached, START, rs[..k], rs[k]);
    HandleDerails(attached, Run(attached, START, rs[..k]), rs[k]);
  }

  /** Request `k` derails, and none of those after it, up to `m`, recovers. */
  ghost predicate DerailedSince(attached: set<nat>, rs: seq<Request>, k: nat, m: nat)
    requires k < m <= |rs|
  {
    Derails(attached, StateAt(attached, rs, k), rs[k]) && forall j :: k < j < m ==> !Recovers(rs[j])
  }

  /**
   After any number of requests a node is outside the primary states, and then in error processing, exactly when the first
   callback of some request accepted in a primary state answered with an undeclared code and no later request asked for an
   outcome of error processing.
   */
  lemma {:induction false} RunEndsPrimary(attached: set<nat>, rs: seq<Request>, m: nat)
    requires m <= |rs|
    ensures var s := StateAt(attached, rs, m);
            && (IsPrimary(s) || s == ERRORPROCESSING)
            && (IsPrimary(s) <==> !exists k :: 0 <= k < m && DerailedSince(attached, rs, k, m))
  {
    hide Derails, Recovers;
    if m == 0 {
      assert StateAt(attached, rs, 0) == UNCONFIGURED;
    } else {
      hide StateAt;
      RunEndsPrimary(attached, rs, m - 1);
      StateAtNext(attached, rs, m - 1);
      var before := m - 1;
      var s := StateAt(attached, rs, before);
      if k :| 0 <= k < before && DerailedSince(attached, rs, k, before) {
        if !Recovers(rs[m - 1]) {
          assert DerailedSince(attached, rs, k, m);
        }
      }
      if Derails(attached, s, rs[m - 1]) {
        assert DerailedSince(attached, rs, m - 1, m);
      }
      if k :| 0 <= k < m && DerailedSince(attached, rs, k, m) {
        if k < m - 1 {
          assert DerailedSince(attached, rs, k, m - 1);
        }
      }
    }
  }

  /**
   A run is in a primary state after every request exactly when the first callback of no request accepted in a primary state
   answers with an undeclared code.
   */
  lemma AlwaysPrimary(attached: set<nat>, rs: seq<Request>)
    ensures (forall m :: 0 <= m <= |rs| ==> IsPrimary(StateAt(attached, rs, m)))
       <==> forall k :: 0 <= k < |rs| ==> !Derails(attached, StateAt(attached, rs, k), rs[k])
  {
    hide Derails, StateAt, Recovers, IsPrimary;
    if k :| 0 <= k < |rs| && Derails(attached, StateAt(attached, rs, k), rs[k]) {
      var m := k + 1;
      assert DerailedSince(attached, rs, k, m);
      RunEndsPrimary(attached, rs, m);
      assert !IsPrimary(StateAt(attached, rs, m));
    } else {
      forall m | 0 <= m <= |rs| ensures IsPrimary(StateAt(attached, rs, m)) {
        RunEndsPrimary(attached, rs, m);
      }
    }
  }

  /** So first callbacks that answer with the declared codes, or throw, never leave a node outside the primary states. */
  lemma DeclaredRunsStayPrimary(attached: set<nat>, rs: seq<Request>)
    requires forall k :: 0 <= k < |rs| ==> DeclaredOutcome(rs[k].first)
    ensures forall m :: 0 <= m <= |rs| ==> IsPrimary(StateAt(attached, rs, m))
  {
    AlwaysPrimary(attached, rs);
  }

  /** A label takes precedence over the id and triggers the transition that carries it. */
  lemma LabelIsTriggered(n: Node, r: Request)
    requires r.name != "" && Resolve(n.current, r).Some?
    ensures ById(Default(), n.current, Resolve(n.current, r).value) == ByLabel(Default(), n.current, r.name)
  {
    LabelThenId(n.current, r.name);
  }
}
