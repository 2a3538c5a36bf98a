/** The managed-node design: which requests a node takes, what its callbacks decide, and how requests are named. */
module LifecycleDesign {
  import opened Common
  import opened Lifecycle
  import opened LifecycleRuns

  // ---------- Requests and outcomes ----------

  /** The seven requests: the state they are made in, the state that calls back, and where success leads. */
  datatype Plan = Plan(start: nat, id: nat, mid: nat, aim: nat)

  const PLANS: seq<Plan> := [
    Plan(UNCONFIGURED, 1, CONFIGURING, INACTIVE), Plan(INACTIVE, 2, CLEANINGUP, UNCONFIGURED),
    Plan(INACTIVE, 3, ACTIVATING, ACTIVE), Plan(ACTIVE, 4, DEACTIVATING, INACTIVE),
    Plan(UNCONFIGURED, 5, SHUTTINGDOWN, FINALIZED), Plan(INACTIVE, 6, SHUTTINGDOWN, FINALIZED),
    Plan(ACTIVE, 7, SHUTTINGDOWN, FINALIZED)]

  /** The request `p` in its own words: what the callbacks do decides, a state without a callback counts as successful. */
  ghost predicate Follows(attached: set<nat>, p: Plan, o1: CallbackOutcome, o2: CallbackOutcome, n: Node, n': Node) {
    && (p.mid !in attached || o1 == Returned(SUCCESS_CODE) ==>
          && n'.current == p.aim
          && n'.log == n.log + [Published(p.start, p.mid), Called(p.mid, SUCCESS_CODE), Published(p.mid, p.aim)])
    && (p.mid in attached && o1 == Returned(FAILURE_CODE) ==>
          && n'.current == (if p.aim == FINALIZED then FINALIZED else p.start)
          && n'.log == n.log + [Published(p.start, p.mid), Called(p.mid, FAILURE_CODE), Published(p.mid, n'.current)])
    && (p.mid in attached && (o1 == Threw || o1 == Returned(ERROR_CODE)) ==>
          var recovered := ERRORPROCESSING !in attached || o2 == Returned(SUCCESS_CODE);
          && n'.current == (if recovered then UNCONFIGURED else FINALIZED)
          && n'.log == n.log + [Published(p.start, p.mid), Called(p.mid, ERROR_CODE), Published(p.mid, ERRORPROCESSING),
                                Called(ERRORPROCESSING,
                                       if recovered then SUCCESS_CODE else if o2.Threw? then ERROR_CODE else o2.code),
                                Published(ERRORPROCESSING, n'.current)])
    && (p.mid in attached && o1.Returned? && !IsDeclared(o1.code) ==>
          && n'.current == ERRORPROCESSING
          && n'.log == n.log + [Published(p.start, p.mid), Called(p.mid, o1.code), Published(p.mid, ERRORPROCESSING)])
  }

  /** In a primary state exactly the planned requests are accepted, and each follows its plan. */
  lemma CallFollowsDesign(attached: set<nat>, n: Node, id: nat, o1: CallbackOutcome, o2: CallbackOutcome)
    requires IsPrimary(n.current)
    ensures var (n', ok) := ChangeState(attached, n, id, o1, o2);
            && (ok <==> exists p :: p in PLANS && p.start == n.current && p.id == id)
            && (!ok ==> n' == n)
            && forall p :: p in PLANS && p.start == n.current && p.id == id ==> Follows(attached, p, o1, o2, n, n')
  {
    hide ChangeState;
    ChangeStateEffect(attached, n, id, o1, o2);
    PlansAreRequests(n.current, id);
    assert n.log + [] == n.log;
  }

  lemma PlansAreRequests(s: nat, id: nat)
    requires IsPrimary(s)
    ensures RequestGoal(s, id).Some? <==> exists p :: p in PLANS && p.start == s && p.id == id
    ensures forall p :: p in PLANS && p.start == s && p.id == id ==> RequestGoal(s, id) == Some(p.mid)
  {
    assert forall i :: 0 <= i < 7 ==> PLANS[i] in PLANS;
    assert PLANS[0].id == 1 && PLANS[1].id == 2 && PLANS[2].id == 3 && PLANS[3].id == 4 && PLANS[4].id == 5
        && PLANS[5].id == 6 && PLANS[6].id == 7;
  }

  // ---------- Requests by label ----------

  /** The labels of the requests, by the state in which they are valid. */
  function RequestLabel(p: Plan): string {
    if p.id == 1 then "configure" else if p.id == 2 then "cleanup" else if p.id == 3 then "activate"
    else if p.id == 4 then "deactivate" else "shutdown"
  }

  function PlanRow(p: Plan): nat {
    if p.id == 0 then 0 else if p.id <= 4 then 4 * (p.id - 1) else p.id + 11
  }

  lemma PlanIsRegistered(p: Plan)
    requires p in PLANS
    ensures 1 <= p.id <= 7 && PlanRow(p) < 25
    ensures var t := DefaultAt(PlanRow(p)); t.start == p.start && t.id == p.id && t.name == RequestLabel(p)
  {
  }

  lemma RowIsPlanned(k: nat)
    requires k < 25 && IsPrimary(DefaultAt(k).start)
    ensures var t := DefaultAt(k);
            exists p :: p in PLANS && p.start == t.start && p.id == t.id && RequestLabel(p) == t.name
  {
    var i := if k <= 12 then k / 4 else k - 12;
    assert k == 0 || k == 4 || k == 8 || k == 12 || 16 <= k <= 18;
    assert PLANS[i] in PLANS;
  }

  lemma LabelsDiffer(p: Plan, p': Plan)
    requires p in PLANS && p' in PLANS && p.start == p'.start && RequestLabel(p) == RequestLabel(p')
    ensures p.id == p'.id
  {
  }

  lemma LabelOfPlan(p: Plan)
    requires p in PLANS
    ensures var t := ByLabel(Default(), p.start, RequestLabel(p)); t.Some? && t.value.id == p.id
  {
    hide ByLabel, DefaultAt, RequestLabel, PLANS;
    PlanIsRegistered(p);
    assert Default()[PlanRow(p)] in Default();
    var t := ByLabel(Default(), p.start, RequestLabel(p)).value;
    var k := RowOf(t);
    PlanStartsPrimary(p);
    RowIsPlanned(k);
    var p' :| p' in PLANS && p'.start == t.start && p'.id == t.id && RequestLabel(p') == t.name;
    LabelsDiffer(p, p');
  }

  lemma PlanStartsPrimary(p: Plan)
    requires p in PLANS
    ensures IsPrimary(p.start) && RequestLabel(p) != ""
  {
  }

  /** Without a label the id counts; with the label of a request in its state, that request; with an unknown one nothing. */
  lemma RequestsByLabel(attached: set<nat>, n: Node, r: Request)
    ensures r.name == "" ==> Handle(attached, n, r) == ChangeState(attached, n, r.id, r.first, r.second).0
    ensures forall p :: p in PLANS && p.start == n.current && r.name == RequestLabel(p) ==>
              Handle(attached, n, r) == ChangeState(attached, n, p.id, r.first, r.second).0
    ensures IsPrimary(n.current) && r.name != ""
            && (forall p :: p in PLANS && p.start == n.current ==> r.name != RequestLabel(p)) ==>
              Handle(attached, n, r) == n
  {
    hide ChangeState, ByLabel, DefaultAt, RequestLabel, PLANS;
    forall p | p in PLANS && p.start == n.current && r.name == RequestLabel(p)
      ensures Handle(attached, n, r) == ChangeState(attached, n, p.id, r.first, r.second).0
    {
      LabelOfPlan(p);
      PlanStartsPrimary(p);
    }
    var t := ByLabel(Default(), n.current, r.name);
    if IsPrimary(n.current) && t.Some? {
      var k := RowOf(t.value);
      RowIsPlanned(k);
    }
  }
}
