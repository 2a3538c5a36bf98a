/** The action server and the pending-response tables of an action client as objects. */
module ActionServer {
  import opened Common
  import opened Actions

  class ServerBase {
    /** The goals known to the C library. */
    var existing: set<Uuid>
    var goalHandles: set<Uuid>
    var goalResults: map<Uuid, int>
    var resultRequests: map<Uuid, seq<Header>>
    var sent: seq<Sent>

    ghost function View(): Server
      reads this
    {
      Server(existing, goalHandles, goalResults, resultRequests, sent)
    }

    constructor ()
      ensures View() == NEW_SERVER
    {
      existing, goalHandles, goalResults, resultRequests, sent := {}, {}, map[], map[], [];
    }

    /** `thrown` is the exception raised when the C library refuses an accepted goal. */
    method ExecuteGoalRequest(u: Uuid, accept: bool) returns (thrown: bool)
      modifies this`existing, this`goalHandles
      ensures View() == AcceptGoal(old(View()), u, accept)
      ensures thrown <==> accept && u in old(existing)
    {
      thrown := false;
      if accept {
        if u in existing {
          return true;
        }
        existing := existing + {u};
        goalHandles := goalHandles + {u};
      }
    }

    method ExecuteResultRequest(h: Header, u: Uuid)
      modifies this`resultRequests, this`sent
      ensures View() == RequestResult(old(View()), h, u)
    {
      var response: Option<Response> := None;
      if u !in existing {
        response := Some(UnknownGoal);
      } else if u in goalResults {
        response := Some(ResultOf(goalResults[u]));
      }
      if response.Some? {
        sent := sent + [Sent(h, response.value)];
      } else {
        var waiting := if u in resultRequests then resultRequests[u] else [];
        resultRequests := resultRequests[u := waiting + [h]];
      }
    }

    /** The sending loop stops nowhere: everybody in the waiting list gets the result, in order. */
    method PublishResult(u: Uuid, v: int) returns (thrown: bool)
      modifies this`goalResults, this`sent
      ensures View() == Actions.PublishResult(old(View()), u, v)
      ensures thrown <==> u !in existing
    {
      if u !in existing {
        return true;
      }
      goalResults := goalResults[u := v];
      if u in resultRequests {
        var waiting := resultRequests[u];
        for i := 0 to |waiting|
          invariant goalResults == old(goalResults)[u := v] && sent == old(sent) + Answers(waiting[..i], v)
        {
          assert Answers(waiting[..i + 1], v) == Answers(waiting[..i], v) + [Sent(waiting[i], ResultOf(v))];
          sent := sent + [Sent(waiting[i], ResultOf(v))];
        }
        assert waiting[..|waiting|] == waiting;
      }
      assert sent == old(sent) + Answers(Waiting(old(View()), u), v);
      thrown := false;
    }

    /** The C library reports one expired goal per round until none is left; `expired` are its answers. */
    method CheckExpiredGoals(expired: seq<Uuid>)
      modifies this`existing, this`goalHandles, this`goalResults, this`resultRequests
      ensures View() == ExpireAll(old(View()), expired)
      ensures forall u :: u in expired ==> u !in existing && u !in goalHandles && u !in goalResults && u !in resultRequests
    {
      ExpiredAreGone(View(), expired);
      var i := 0;
      while i < |expired|
        invariant i <= |expired| && sent == old(sent)
        invariant ExpireAll(View(), expired[i..]) == ExpireAll(old(View()), expired)
      {
        var u := expired[i];
        assert expired[i..][0] == u && expired[i..][1..] == expired[i + 1..];
        existing := existing - {u};
        goalResults := goalResults - {u};
        resultRequests := resultRequests - {u};
        goalHandles := goalHandles - {u};
        i := i + 1;
      }
    }
  }

  ghost function ExpireAll(s: Server, us: seq<Uuid>): Server
    decreases us
  {
    if us == [] then s else ExpireAll(Expire(s, us[0]), us[1..])
  }

  /** Expired goals are gone with all that belongs to them; the other goals and what was sent stay as they are. */
  lemma {:induction false} ExpiredAreGone(s: Server, us: seq<Uuid>)
    ensures var s' := ExpireAll(s, us);
            && (forall u :: u in us ==> u !in s'.existing && u !in s'.handles && u !in s'.results && u !in s'.requests)
            && (forall u :: u !in us ==>
                  && (u in s'.existing <==> u in s.existing) && (u in s'.handles <==> u in s.handles)
                  && (u in s'.results <==> u in s.results) && (u in s.results ==> s'.results[u] == s.results[u])
                  && (u in s'.requests <==> u in s.requests) && (u in s.requests ==> s'.requests[u] == s.requests[u]))
            && s'.sent == s.sent
    decreases us
  {
    if us != [] {
      ExpiredAreGone(Expire(s, us[0]), us[1..]);
      assert us == [us[0]] + us[1..];
    }
  }

  /** A request for an expired goal is told that the goal is unknown. */
  lemma ExpiredIsUnknown(s: Server, us: seq<Uuid>, u: Uuid, h: Header)
    requires u in us
    ensures RequestResult(ExpireAll(s, us), h, u).sent == s.sent + [Sent(h, UnknownGoal)]
  {
    ExpiredAreGone(s, us);
  }

  /** Expiring all finished goals is a legal run of the protocol, so it keeps the invariant. */
  lemma {:induction false} ExpireAllKeeps(w: World, us: seq<Uuid>)
    requires Invariant(w)
    requires forall i :: 0 <= i < |us| ==> us[i] in w.server.results
    requires forall i, j :: 0 <= i < j < |us| ==> us[i] != us[j]
    ensures Invariant(w.(server := ExpireAll(w.server, us)))
    decreases us
  {
    if us != [] {
      var w' := Do(w, ExpireGoal(us[0]));
      StepKeeps(w, ExpireGoal(us[0]));
      assert forall i :: 0 <= i < |us[1..]| ==> us[1..][i] == us[i + 1] && us[i + 1] != us[0];
      ExpireAllKeeps(w', us[1..]);
    }
  }

  /** The table of one client, keyed as the system as a whole keys it. */
  ghost function ByHeader(client: nat, pending: map<int, Uuid>): (m: map<Header, Uuid>)
    ensures forall h :: h in m <==> h.client == client && h.seqNo in pending
    ensures forall h :: h in m ==> m[h] == pending[h.seqNo]
  {
    var headers := set k | k in pending :: Header(client, k);
    assert forall h: Header :: h.client == client && h.seqNo in pending ==> h == Header(client, h.seqNo);
    map h | h in headers :: pending[h.seqNo]
  }

  lemma ByHeaderAdd(client: nat, pending: map<int, Uuid>, seqNo: int, goal: Uuid)
    ensures ByHeader(client, pending[seqNo := goal]) == ByHeader(client, pending)[Header(client, seqNo) := goal]
  {
  }

  lemma ByHeaderRemove(client: nat, pending: map<int, Uuid>, seqNo: int)
    ensures ByHeader(client, pending - {seqNo}) == ByHeader(client, pending) - {Header(client, seqNo)}
  {
  }

  /** One of the client's three tables: callbacks by sequence number, all requests sent, and the invocations so far. */
  class PendingResponses {
    const client: nat
    var pending: map<int, Uuid>
    ghost var asked: map<Header, Uuid>
    ghost var fired: seq<Sent>

    /** The table as the client's part of the whole system. */
    ghost function View(): System
      reads this
    {
      NEW_SYSTEM.(asked := asked, pending := ByHeader(client, pending), fired := fired)
    }

    constructor (c: nat)
      ensures client == c && View() == NEW_SYSTEM
    {
      client := c;
      pending, asked, fired := map[], map[], [];
    }

    /** The protocol's sending move; the library hands out a fresh sequence number for the request. */
    method SendRequest(seqNo: int, goal: Uuid)
      requires seqNo !in pending
      modifies this`pending, this`asked
      ensures View() == Actions.SendRequest(old(View()), Header(client, seqNo), goal)
    {
      ByHeaderAdd(client, pending, seqNo, goal);
      pending := pending[seqNo := goal];
      asked := asked[Header(client, seqNo) := goal];
    }

    /** Handled as the protocol says: fire and forget, or ignore. */
    method HandleResponse(seqNo: int, response: Response)
      modifies this
      ensures View() == Actions.HandleResponse(old(View()), Sent(Header(client, seqNo), response))
    {
      if seqNo !in pending {
        return;
      }
      fired := fired + [Sent(Header(client, seqNo), response)];
      ByHeaderRemove(client, pending, seqNo);
      pending := pending - {seqNo};
    }
  }

  /** A request and two answers to it: the callback sees the first one only, and the table is as before. */
  method AskOnce(table: PendingResponses, seqNo: int, goal: Uuid, first: Response, second: Response)
    requires seqNo !in table.pending
    modifies table
    ensures table.View() == old(table.View()).(
              asked := old(table.asked)[Header(table.client, seqNo) := goal],
              fired := old(table.fired) + [Sent(Header(table.client, seqNo), first)])
  {
    AnsweredForgets(table.View(), Header(table.client, seqNo), goal, first, second);
    table.SendRequest(seqNo, goal);
    table.HandleResponse(seqNo, first);
    table.HandleResponse(seqNo, second);
  }
}
