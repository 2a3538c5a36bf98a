/**
 The result protocol between action clients and an action server. The C library underneath is
 the set of goals that exist; `sent` is everything handed to the network.
 */
module Actions {
  import opened Common

  type Uuid = nat

  /** A request, identified by its client and the client's sequence number. */
  datatype Header = Header(client: nat, seqNo: int)

  datatype Response = ResultOf(value: int) | UnknownGoal

  datatype Sent = Sent(header: Header, response: Response)

  datatype Server = Server(
    existing: set<Uuid>, handles: set<Uuid>, results: map<Uuid, int>, requests: map<Uuid, seq<Header>>, sent: seq<Sent>)

  const NEW_SERVER := Server({}, {}, map[], map[], [])

  // ---------- The server's steps ----------

  /** A goal request; a goal id already in use makes the original throw, with nothing changed. */
  function AcceptGoal(s: Server, u: Uuid, accept: bool): Server {
    if accept && u !in s.existing then s.(existing := s.existing + {u}, handles := s.handles + {u}) else s
  }

  function RequestResult(s: Server, h: Header, u: Uuid): Server {
    if u !in s.existing then s.(sent := s.sent + [Sent(h, UnknownGoal)])
    else if u in s.results then s.(sent := s.sent + [Sent(h, ResultOf(s.results[u]))])
    else s.(requests := s.requests[u := Waiting(s, u) + [h]])
  }

  function Waiting(s: Server, u: Uuid): seq<Header> {
    if u in s.requests then s.requests[u] else []
  }

  function Answers(hs: seq<Header>, v: int): seq<Sent> {
    seq(|hs|, i requires 0 <= i < |hs| => Sent(hs[i], ResultOf(v)))
  }

  /** Publishing keeps the result and answers everyone who waits; without the goal the original throws. */
  function PublishResult(s: Server, u: Uuid, v: int): Server {
    if u !in s.existing then s
    else s.(results := s.results[u := v], sent := s.sent + Answers(Waiting(s, u), v))
  }

  function Expire(s: Server, u: Uuid): Server {
    s.(existing := s.existing - {u}, handles := s.handles - {u}, results := s.results - {u}, requests := s.requests - {u})
  }

  /** A fresh goal that is accepted exists from then on, and nothing else changes; otherwise nothing changes. */
  lemma GoalIsAccepted(s: Server, u: Uuid, accept: bool)
    ensures var s' := AcceptGoal(s, u, accept);
            && (accept && u !in s.existing ==>
                  s'.existing == s.existing + {u} && s'.handles == s.handles + {u} && s'.results == s.results
                  && s'.requests == s.requests && s'.sent == s.sent)
            && (!accept || u in s.existing ==> s' == s)
  {
  }

  /** A request is answered at once when the goal is unknown or finished, and else waits behind those who wait already. */
  lemma RequestIsAnsweredOrWaits(s: Server, h: Header, u: Uuid)
    ensures var s' := RequestResult(s, h, u);
            && s'.existing == s.existing && s'.handles == s.handles && s'.results == s.results
            && (u !in s.existing ==> s'.sent == s.sent + [Sent(h, UnknownGoal)])
            && (u in s.existing && u in s.results ==> s'.sent == s.sent + [Sent(h, ResultOf(s.results[u]))])
            && (u in s.existing && u !in s.results ==>
                  s'.sent == s.sent && u in s'.requests
                  && s'.requests[u] == (if u in s.requests then s.requests[u] else []) + [h])
  {
  }

  // ---------- Runs ----------

  datatype Step =
    | Goal(u: Uuid, accept: bool)
    | Take(h: Header, u: Uuid)
    | Publish(u: Uuid, v: int)
    | ExpireGoal(u: Uuid)

  /** What a taken request asked for: a goal, and which of its acceptances was alive then, if any. */
  datatype Asked = Asked(goal: Uuid, round: Option<nat>)

  /**
   The server with its history: an id may be accepted again once its goal expired, `rounds` counts how often it was,
   and `published` holds the result of each such acceptance.
   */
  datatype World = World(server: Server, taken: map<Header, Asked>, rounds: map<Uuid, nat>, published: map<(Uuid, nat), int>)

  const NEW_WORLD := World(NEW_SERVER, map[], map[], map[])

  function RoundOf(w: World, u: Uuid): nat {
    if u in w.rounds then w.rounds[u] else 0
  }

  /** The acceptance of `u` that is alive, if any. */
  function AliveRound(w: World, u: Uuid): Option<nat> {
    if u in w.server.existing then Some(RoundOf(w, u)) else None
  }

  function Do(w: World, step: Step): World {
    match step
    case Goal(u, accept) =>
      w.(server := AcceptGoal(w.server, u, accept),
         rounds := if accept && u !in w.server.existing then w.rounds[u := RoundOf(w, u) + 1] else w.rounds)
    case Take(h, u) => w.(server := RequestResult(w.server, h, u), taken := w.taken[h := Asked(u, AliveRound(w, u))])
    case Publish(u, v) =>
      w.(server := PublishResult(w.server, u, v),
         published := if u in w.server.existing then w.published[(u, RoundOf(w, u)) := v] else w.published)
    case ExpireGoal(u) => w.(server := Expire(w.server, u))
  }

  /** A request is taken once, a result is published once per goal, and only finished goals expire. */
  predicate Allowed(w: World, step: Step) {
    match step
    case Goal(_, _) => true
    case Take(h, _) => h !in w.taken
    case Publish(u, _) => u !in w.server.results
    case ExpireGoal(u) => u in w.server.results
  }

  ghost predicate Legal(w: World, steps: seq<Step>)
    decreases steps
  {
    steps == [] || (Allowed(w, steps[0]) && Legal(Do(w, steps[0]), steps[1..]))
  }

  function DoAll(w: World, steps: seq<Step>): World
    decreases steps
  {
    if steps == [] then w else DoAll(Do(w, steps[0]), steps[1..])
  }

  // ---------- What every run keeps ----------

  predicate Distinct(hs: seq<Header>) {
    forall i, j :: 0 <= i < j < |hs| ==> hs[i] != hs[j]
  }

  function HeadersOf(sent: seq<Sent>): (hs: seq<Header>)
    ensures |hs| == |sent| && forall i :: 0 <= i < |sent| ==> hs[i] == sent[i].header
  {
    seq(|sent|, i requires 0 <= i < |sent| => sent[i].header)
  }

  predicate Answered(s: Server, h: Header) {
    h in HeadersOf(s.sent)
  }

  /** No request is answered twice. */
  predicate AnsweredOnce(s: Server) {
    Distinct(HeadersOf(s.sent))
  }

  /** Handles are exactly the existing goals; results and waiting requests belong to existing goals. */
  predicate Bookkeeping(s: Server) {
    s.handles == s.existing && s.results.Keys <= s.existing && s.requests.Keys <= s.existing
  }

  /** `h` was taken while this acceptance of the goal was alive, and is answered exactly when there is a result. */
  ghost predicate Waits(w: World, u: Uuid, h: Header) {
    h in w.taken && w.taken[h] == Asked(u, Some(RoundOf(w, u))) && (Answered(w.server, h) <==> u in w.server.results)
  }

  /** Whoever is in a waiting list waits for that goal, once. */
  ghost predicate WaitingIsRight(w: World) {
    forall u :: u in w.server.requests ==>
      && Distinct(w.server.requests[u])
      && forall h :: h in w.server.requests[u] ==> Waits(w, u, h)
  }

  /** A request is told UNKNOWN if its goal did not exist when it was taken, else the result of that very acceptance. */
  ghost predicate RightAnswer(w: World, m: Sent) {
    && m.header in w.taken
    && match w.taken[m.header].round
       case None => m.response == UnknownGoal
       case Some(k) =>
         var key := (w.taken[m.header].goal, k);
         key in w.published && m.response == ResultOf(w.published[key])
  }

  ghost predicate AnswersAreRight(w: World) {
    forall i :: 0 <= i < |w.server.sent| ==> RightAnswer(w, w.server.sent[i])
  }

  /** Stored results are those of the living acceptances, which have no result before; later ones have none yet. */
  ghost predicate ResultsAreRight(w: World) {
    && (forall u :: u in w.server.results ==>
          (u, RoundOf(w, u)) in w.published && w.published[(u, RoundOf(w, u))] == w.server.results[u])
    && (forall u :: u in w.server.existing && u !in w.server.results ==> (u, RoundOf(w, u)) !in w.published)
    && (forall key :: key in w.published ==> key.1 <= RoundOf(w, key.0))
  }

  /** A request still unanswered is waiting, for an existing goal without a result. */
  ghost predicate NobodyIsForgotten(w: World) {
    forall h :: h in w.taken && !Answered(w.server, h) ==>
      var u := w.taken[h].goal;
      u !in w.server.results && u in w.server.requests && h in w.server.requests[u]
  }

  ghost predicate Invariant(w: World) {
    && Bookkeeping(w.server) && AnsweredOnce(w.server) && WaitingIsRight(w) && AnswersAreRight(w)
    && ResultsAreRight(w) && NobodyIsForgotten(w)
  }

  /** The past stays: what was taken, and the result of each acceptance. */
  ghost predicate Extends(w: World, w': World) {
    && (forall h :: h in w.taken ==> h in w'.taken && w'.taken[h] == w.taken[h])
    && (forall key :: key in w.published ==> key in w'.published && w'.published[key] == w.published[key])
    && w.server.sent <= w'.server.sent
  }

  lemma HeadersOfConcat(a: seq<Sent>, b: seq<Sent>)
    ensures HeadersOf(a + b) == HeadersOf(a) + HeadersOf(b)
  {
  }

  lemma HeadersOfAnswers(hs: seq<Header>, v: int)
    ensures HeadersOf(Answers(hs, v)) == hs
  {
  }

  /** So each acceptance of a goal has one result, and a right answer stays right. */
  lemma StepExtends(w: World, step: Step)
    requires Invariant(w) && Allowed(w, step)
    ensures Extends(w, Do(w, step))
    ensures forall m :: RightAnswer(w, m) ==> RightAnswer(Do(w, step), m)
  {
  }

  lemma AcceptKeeps(w: World, u: Uuid, accept: bool)
    requires Invariant(w)
    ensures Invariant(Do(w, Goal(u, accept)))
  {
    var w' := Do(w, Goal(u, accept));
    StepExtends(w, Goal(u, accept));
    assert forall v :: v in w.server.existing ==> RoundOf(w', v) == RoundOf(w, v);
  }

  lemma NewIsUnanswered(w: World, h: Header)
    requires AnswersAreRight(w) && h !in w.taken
    ensures !Answered(w.server, h)
  {
  }

  lemma AnswersAppend(w: World, w': World, more: seq<Sent>)
    requires AnswersAreRight(w) && Extends(w, w') && w'.server.sent == w.server.sent + more
    requires forall m :: RightAnswer(w, m) ==> RightAnswer(w', m)
    requires forall i :: 0 <= i < |more| ==> RightAnswer(w', more[i])
    ensures AnswersAreRight(w')
    ensures forall g :: Answered(w'.server, g) <==> Answered(w.server, g) || g in HeadersOf(more)
  {
    hide RightAnswer;
    HeadersOfConcat(w.server.sent, more);
  }

  lemma DistinctAppend(hs: seq<Header>, h: Header)
    requires Distinct(hs) && h !in hs
    ensures Distinct(hs + [h])
  {
  }

  lemma TakenAnswers(w: World, h: Header, u: Uuid)
    requires Invariant(w) && h !in w.taken && (u !in w.server.existing || u in w.server.results)
    ensures var w' := Do(w, Take(h, u));
            && AnswersAreRight(w') && AnsweredOnce(w'.server)
            && forall g :: Answered(w'.server, g) <==> Answered(w.server, g) || g == h
  {
    var w' := Do(w, Take(h, u));
    var m := w'.server.sent[|w.server.sent|];
    StepExtends(w, Take(h, u));
    NewIsUnanswered(w, h);
    assert RightAnswer(w', m);
    hide RightAnswer, Distinct, WaitingIsRight, NobodyIsForgotten, ResultsAreRight;
    AnswersAppend(w, w', [m]);
    assert HeadersOf([m]) == [h];
    HeadersOfConcat(w.server.sent, [m]);
    DistinctAppend(HeadersOf(w.server.sent), h);
  }

  lemma TakeAnswers(w: World, h: Header, u: Uuid)
    requires Invariant(w) && h !in w.taken && (u !in w.server.existing || u in w.server.results)
    ensures Invariant(Do(w, Take(h, u)))
  {
    var w' := Do(w, Take(h, u));
    hide Answered, Distinct, AnswersAreRight, AnsweredOnce, ResultsAreRight;
    TakenAnswers(w, h, u);
    TakenResults(w, h, u);
    assert forall v, g :: Waits(w, v, g) ==> Waits(w', v, g);
    hide Waits;
  }

  lemma TakenResults(w: World, h: Header, u: Uuid)
    requires ResultsAreRight(w)
    ensures ResultsAreRight(Do(w, Take(h, u)))
  {
    var w' := Do(w, Take(h, u));
    assert forall a :: RoundOf(w', a) == RoundOf(w, a);
    hide RoundOf;
  }

  lemma TakenWaits(w: World, h: Header, u: Uuid)
    requires Invariant(w) && h !in w.taken && u in w.server.existing && u !in w.server.results
    ensures WaitingIsRight(Do(w, Take(h, u)))
  {
    var s, w' := w.server, Do(w, Take(h, u));
    NewIsUnanswered(w, h);
    hide AnswersAreRight, ResultsAreRight, NobodyIsForgotten;
    assert h !in Waiting(s, u) && Distinct(Waiting(s, u));
    DistinctAppend(Waiting(s, u), h);
    hide Distinct;
    assert forall v :: v in s.requests && v != u ==> w'.server.requests[v] == s.requests[v];
    forall v, g | v in w'.server.requests && g in w'.server.requests[v] ensures Waits(w', v, g) {
      assert g == h || Waits(w, v, g);
    }
  }

  lemma TakeWaits(w: World, h: Header, u: Uuid)
    requires Invariant(w) && h !in w.taken && u in w.server.existing && u !in w.server.results
    ensures Invariant(Do(w, Take(h, u)))
  {
    var s, w' := w.server, Do(w, Take(h, u));
    TakenWaits(w, h, u);
    StepExtends(w, Take(h, u));
    TakenResults(w, h, u);
    hide RightAnswer, WaitingIsRight, AnsweredOnce, Answered, ResultsAreRight;
    assert AnswersAreRight(w');
    hide AnswersAreRight;
    assert forall v, g :: v in s.requests && g in s.requests[v] ==> v in w'.server.requests && g in w'.server.requests[v];
    assert h in w'.server.requests[u];
  }

  lemma TakeKeeps(w: World, h: Header, u: Uuid)
    requires Invariant(w) && h !in w.taken
    ensures Invariant(Do(w, Take(h, u)))
  {
    hide Invariant;
    if u !in w.server.existing || u in w.server.results {
      TakeAnswers(w, h, u);
    } else {
      TakeWaits(w, h, u);
    }
  }

  /**
   Publishing keeps "answered once" exactly when the goal had no result yet or nobody waits for it: the waiting list is
   not emptied, so a second result would answer everybody again.
   */
  lemma PublishAnswersOnce(w: World, u: Uuid, v: int)
    requires Invariant(w) && u in w.server.existing
    ensures AnsweredOnce(PublishResult(w.server, u, v)) <==> u !in w.server.results || Waiting(w.server, u) == []
  {
    var s := w.server;
    var hs := Waiting(s, u);
    HeadersOfConcat(s.sent, Answers(hs, v));
    HeadersOfAnswers(hs, v);
    var all := HeadersOf(s.sent) + hs;
    if u !in s.results {
      forall i, j | 0 <= i < j < |all| ensures all[i] != all[j] {
        if i < |s.sent| <= j {
          assert all[j] in hs && !Answered(s, all[j]);
        }
      }
    } else if hs != [] {
      var h := hs[0];
      assert h in s.requests[u] && Answered(s, h);
      var i :| 0 <= i < |s.sent| && HeadersOf(s.sent)[i] == h;
      assert all[i] == all[|s.sent|];
    } else {
      assert all == HeadersOf(s.sent);
    }
  }

  lemma LegalStep(w: World, step: Step, steps: seq<Step>)
    requires Allowed(w, step)
    ensures Legal(w, [step] + steps) <==> Legal(Do(w, step), steps)
    ensures DoAll(w, [step] + steps) == DoAll(Do(w, step), steps)
  {
    assert ([step] + steps)[1..] == steps;
  }

  /** One goal, accepted, and one request for its result. */
  function OneWaits(h: Header): seq<Step> {
    [Goal(1, true)] + ([Take(h, 1)] + [])
  }

  lemma OneIsWaiting(h: Header)
    ensures Legal(NEW_WORLD, OneWaits(h)) && DoAll(NEW_WORLD, OneWaits(h)).server == Server({1}, {1}, map[], map[1 := [h]], [])
  {
    LegalStep(NEW_WORLD, Goal(1, true), [Take(h, 1)] + []);
    var w := Do(NEW_WORLD, Goal(1, true));
    LegalStep(w, Take(h, 1), []);
    assert w.server == NEW_SERVER.(existing := {1}, handles := {1});
    var waiting: seq<Header> := [];
    assert waiting + [h] == [h];
    var requests: map<Uuid, seq<Header>> := map[];
    assert requests[1 := [h]] == map[1 := [h]];
  }

  /** A legal run after which a second result answers the same request again. */
  lemma SecondResultAnswersTwice(h: Header, v: int, v': int)
    ensures Legal(NEW_WORLD, OneWaits(h)) && Allowed(DoAll(NEW_WORLD, OneWaits(h)), Publish(1, v))
    ensures !AnsweredOnce(PublishResult(Do(DoAll(NEW_WORLD, OneWaits(h)), Publish(1, v)).server, 1, v'))
  {
    OneIsWaiting(h);
    var w := DoAll(NEW_WORLD, OneWaits(h));
    RunKeeps(NEW_WORLD, OneWaits(h));
    PublishKeeps(w, 1, v);
    hide Invariant;
    PublishAnswersOnce(Do(w, Publish(1, v)), 1, v');
  }

  /** A legal run after which expiry would forget a request. */
  lemma EarlyExpiryForgets(h: Header)
    ensures Legal(NEW_WORLD, OneWaits(h)) && !NobodyIsForgotten(Do(DoAll(NEW_WORLD, OneWaits(h)), ExpireGoal(1)))
  {
    OneIsWaiting(h);
    RunKeeps(NEW_WORLD, OneWaits(h));
    hide Invariant;
    ExpiryForgetsNobody(DoAll(NEW_WORLD, OneWaits(h)), 1);
  }

  lemma WaitersAreRight(w: World, u: Uuid, v: int)
    requires Invariant(w) && u in w.server.existing
    ensures var more := Answers(Waiting(w.server, u), v);
            forall i :: 0 <= i < |more| ==> RightAnswer(Do(w, Publish(u, v)), more[i])
  {
    var hs := Waiting(w.server, u);
    assert forall i :: 0 <= i < |hs| ==> hs[i] in w.server.requests[u];
  }

  lemma PublishedAnswers(w: World, u: Uuid, v: int)
    requires Invariant(w) && u in w.server.existing && u !in w.server.results
    ensures var w' := Do(w, Publish(u, v));
            && AnswersAreRight(w') && AnsweredOnce(w'.server)
            && forall g :: Answered(w'.server, g) <==> Answered(w.server, g) || g in Waiting(w.server, u)
  {
    StepExtends(w, Publish(u, v));
    PublishAnswersOnce(w, u, v);
    WaitersAreRight(w, u, v);
    hide RightAnswer, AnsweredOnce, WaitingIsRight, NobodyIsForgotten, ResultsAreRight;
    AnswersAppend(w, Do(w, Publish(u, v)), Answers(Waiting(w.server, u), v));
    HeadersOfAnswers(Waiting(w.server, u), v);
  }

  lemma PublishedWaits(w: World, u: Uuid, v: int)
    requires Invariant(w) && u in w.server.existing && u !in w.server.results
    requires var w' := Do(w, Publish(u, v));
             forall g :: Answered(w'.server, g) <==> Answered(w.server, g) || g in Waiting(w.server, u)
    ensures WaitingIsRight(Do(w, Publish(u, v)))
  {
    hide Distinct, Answered, AnswersAreRight, ResultsAreRight, NobodyIsForgotten, AnsweredOnce;
    var w' := Do(w, Publish(u, v));
    assert forall h :: h in Waiting(w.server, u) ==> Waits(w, u, h);
    forall a, h | a in w'.server.requests && h in w'.server.requests[a] ensures Waits(w', a, h) {
      assert Waits(w, a, h);
    }
  }

  lemma PublishKeeps(w: World, u: Uuid, v: int)
    requires Invariant(w) && u !in w.server.results
    ensures Invariant(Do(w, Publish(u, v)))
  {
    hide AnswersAreRight, AnsweredOnce, WaitingIsRight, Answered, ResultsAreRight;
    if u in w.server.existing {
      PublishedAnswers(w, u, v);
      PublishedWaits(w, u, v);
      PublishedResults(w, u, v);
    }
  }

  lemma PublishedResults(w: World, u: Uuid, v: int)
    requires Invariant(w) && u in w.server.existing && u !in w.server.results
    ensures ResultsAreRight(Do(w, Publish(u, v)))
  {
    hide AnswersAreRight, AnsweredOnce, WaitingIsRight, NobodyIsForgotten;
    var w' := Do(w, Publish(u, v));
    assert forall a :: RoundOf(w', a) == RoundOf(w, a);
    hide RoundOf;
  }

  lemma ExpiredAnswers(w: World, u: Uuid)
    requires Invariant(w) && u in w.server.results
    ensures var w' := Do(w, ExpireGoal(u)); AnswersAreRight(w') && AnsweredOnce(w'.server) && ResultsAreRight(w')
    ensures forall h :: h in w.taken && w.taken[h].goal == u ==> Answered(w.server, h)
  {
    StepExtends(w, ExpireGoal(u));
    hide RightAnswer, Distinct, HeadersOf, WaitingIsRight;
  }

  lemma ExpireKeeps(w: World, u: Uuid)
    requires Invariant(w) && u in w.server.results
    ensures Invariant(Do(w, ExpireGoal(u)))
  {
    ExpiredAnswers(w, u);
    var w' := Do(w, ExpireGoal(u));
    assert forall h :: Answered(w'.server, h) <==> Answered(w.server, h);
    hide Answered, Distinct, AnswersAreRight, AnsweredOnce, ResultsAreRight;
    assert forall v, h :: v != u && Waits(w, v, h) ==> Waits(w', v, h);
  }

  lemma StepKeeps(w: World, step: Step)
    requires Invariant(w) && Allowed(w, step)
    ensures Invariant(Do(w, step))
  {
    match step
    case Goal(u, accept) => AcceptKeeps(w, u, accept);
    case Take(h, u) => TakeKeeps(w, h, u);
    case Publish(u, v) => PublishKeeps(w, u, v);
    case ExpireGoal(u) => ExpireKeeps(w, u);
  }

  /** Over every interleaving of the server's steps all of this holds, and the past stays. */
  lemma {:induction false} RunKeeps(w: World, steps: seq<Step>)
    requires Invariant(w) && Legal(w, steps)
    ensures Invariant(DoAll(w, steps)) && Extends(w, DoAll(w, steps))
    decreases steps
  {
    hide Invariant, Do;
    if steps != [] {
      StepKeeps(w, steps[0]);
      StepExtends(w, steps[0]);
      RunKeeps(Do(w, steps[0]), steps[1..]);
    }
  }

  lemma EveryRun(steps: seq<Step>)
    requires Legal(NEW_WORLD, steps)
    ensures Invariant(DoAll(NEW_WORLD, steps))
  {
    RunKeeps(NEW_WORLD, steps);
  }

  /** Expiry forgets nobody exactly when the goal's result was published or nobody waits for it. */
  lemma ExpiryForgetsNobody(w: World, u: Uuid)
    requires Invariant(w)
    ensures NobodyIsForgotten(Do(w, ExpireGoal(u))) <==> u in w.server.results || Waiting(w.server, u) == []
  {
    var w' := Do(w, ExpireGoal(u));
    assert forall g :: Answered(w'.server, g) <==> Answered(w.server, g);
    if u in w.server.results {
      ExpireKeeps(w, u);
    } else if Waiting(w.server, u) != [] {
      var h := Waiting(w.server, u)[0];
      assert h in w.server.requests[u] && h in w'.taken && w'.taken[h].goal !in w'.server.requests;
    }
  }

  // ---------- Clients ----------

  /**
   Clients, server and network together. `asked` are all result requests ever sent, `pending` the registered
   callbacks still waiting, `fired` the callbacks invoked. A response, once sent, may arrive in any order and repeatedly.
   */
  datatype System = System(
    world: World, asked: map<Header, Uuid>, pending: map<Header, Uuid>, fired: seq<Sent>)

  const NEW_SYSTEM := System(NEW_WORLD, map[], map[], [])

  datatype Move =
    | Send(header: Header, goal: Uuid)
    | Serve(step: Step)
    | Deliver(index: nat)

  predicate Possible(x: System, m: Move) {
    match m
    case Send(h, _) => h !in x.asked
    case Serve(step) => Allowed(x.world, step) && (step.Take? ==> step.h in x.asked && x.asked[step.h] == step.u)
    case Deliver(i) => i < |x.world.server.sent|
  }

  function SendRequest(x: System, h: Header, u: Uuid): System {
    x.(asked := x.asked[h := u], pending := x.pending[h := u])
  }

  /** A response whose sequence number is not pending is ignored. */
  function HandleResponse(x: System, m: Sent): System {
    if m.header !in x.pending then x
    else x.(fired := x.fired + [m], pending := x.pending - {m.header})
  }

  function Next(x: System, m: Move): System
    requires Possible(x, m)
  {
    match m
    case Send(h, u) => SendRequest(x, h, u)
    case Serve(step) => x.(world := Do(x.world, step))
    case Deliver(i) => HandleResponse(x, x.world.server.sent[i])
  }

  /** A request, answered once and then again: its callback fires for the first answer and nothing else changes. */
  lemma AnsweredForgets(x: System, h: Header, u: Uuid, first: Response, second: Response)
    requires h !in x.pending
    ensures var y := HandleResponse(SendRequest(x, h, u), Sent(h, first));
            && y == x.(asked := x.asked[h := u], fired := x.fired + [Sent(h, first)])
            && HandleResponse(y, Sent(h, second)) == y
  {
    assert x.pending[h := u] - {h} == x.pending;
  }

  /**
   Callbacks fire at most once, only for their own request, and see the result of the goal they asked for, as published
   for the acceptance alive when the server took the request, or UNKNOWN when there was none.
   */
  ghost predicate CallbacksAreRight(x: System) {
    && Distinct(HeadersOf(x.fired))
    && forall i :: 0 <= i < |x.fired| ==>
         var m := x.fired[i];
         && m.header in x.asked && m.header !in x.pending && m in x.world.server.sent
         && RightAnswer(x.world, m) && x.world.taken[m.header].goal == x.asked[m.header]
  }

  ghost predicate SystemInvariant(x: System) {
    && Invariant(x.world) && CallbacksAreRight(x)
    && (forall h :: h in x.pending ==> h in x.asked && x.pending[h] == x.asked[h])
    && (forall h :: h in x.world.taken ==> h in x.asked && x.world.taken[h].goal == x.asked[h])
  }

  lemma ServeKeeps(x: System, step: Step)
    requires SystemInvariant(x) && Possible(x, Serve(step))
    ensures SystemInvariant(Next(x, Serve(step)))
  {
    hide Invariant, RightAnswer;
    StepKeeps(x.world, step);
    StepExtends(x.world, step);
  }

  lemma DeliverKeeps(x: System, i: nat)
    requires SystemInvariant(x) && Possible(x, Deliver(i))
    ensures SystemInvariant(Next(x, Deliver(i)))
  {
    var m := x.world.server.sent[i];
    var x' := Next(x, Deliver(i));
    if m.header in x.pending {
      HeadersOfConcat(x.fired, [m]);
      assert HeadersOf(x'.fired) == HeadersOf(x.fired) + [m.header];
      assert forall k :: 0 <= k < |x.fired| ==> x.fired[k].header != m.header;
    }
  }

  lemma MoveKeeps(x: System, m: Move)
    requires SystemInvariant(x) && Possible(x, m)
    ensures SystemInvariant(Next(x, m))
  {
    match m
    case Send(h, u) =>
      var x' := Next(x, m);
      assert forall i :: 0 <= i < |x.fired| ==> x.fired[i].header != h;
    case Serve(step) => ServeKeeps(x, step);
    case Deliver(i) => DeliverKeeps(x, i);
  }

  ghost predicate Reachable(x: System, moves: seq<Move>, y: System)
    decreases moves
  {
    if moves == [] then x == y else Possible(x, moves[0]) && Reachable(Next(x, moves[0]), moves[1..], y)
  }

  lemma {:induction false} SystemRunKeeps(x: System, moves: seq<Move>, y: System)
    requires SystemInvariant(x) && Reachable(x, moves, y)
    ensures SystemInvariant(y)
    decreases moves
  {
    if moves != [] {
      MoveKeeps(x, moves[0]);
      SystemRunKeeps(Next(x, moves[0]), moves[1..], y);
    }
  }

  /** In every reachable state of clients, server and network together. */
  lemma EverySystemRun(moves: seq<Move>, y: System)
    requires Reachable(NEW_SYSTEM, moves, y)
    ensures SystemInvariant(y)
  {
    SystemRunKeeps(NEW_SYSTEM, moves, y);
  }
}
