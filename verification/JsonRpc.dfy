/**
 * Two JSON-RPC peers over a transport that delivers each direction in order. Either side may call,
 * abort, answer in any order, lose its connection or close at any moment.
 */
module JsonRpc {
  import opened Basics

  type Json = int

  datatype Outcome = Result(value: Json) | Fault(code: int)

  datatype Msg =
    | Request(id: nat, name: string, params: Json)
    | Cancel(id: nat)
    | Response(id: nat, outcome: Outcome)

  datatype Reason = Remote(code: int) | Aborted | SendError | ConnectionClosed

  /** A settled promise. */
  datatype Settled = Resolved(value: Json) | Rejected(reason: Reason)

  /** A request as its caller made it. */
  datatype Issue = Issue(name: string, params: Json)

  /** A handler at work: the request it serves. */
  datatype Job = Job(id: nat, name: string, params: Json)

  /** What a handler was asked, and what it gave. */
  datatype Answer = Answer(issue: Issue, outcome: Outcome)

  /** The calling half of a peer: `#idSeq`, `#pending`, and the promises `call` returned. */
  datatype Caller = Caller(idSeq: nat, pending: set<nat>, settled: map<nat, Settled>, issued: map<nat, Issue>,
      unsent: set<nat>)

  /**
   * The serving half: `#inflight`, the abort controllers, the handlers at work, and those that are done but whose
   * response is still being sent.
   */
  datatype Server = Server(inflight: map<nat, nat>, aborted: set<nat>, running: map<nat, Job>, sending: map<nat, nat>,
                           controllers: nat, seen: set<nat>, answered: map<nat, Answer>)

  /** Every issued id is pending or settled, never both. */
  ghost predicate CallerOk(c: Caller) {
    && (forall id :: 1 <= id <= c.idSeq <==> id in c.pending || id in c.settled)
    && c.pending !! c.settled.Keys
    && (forall id :: id in c.issued <==> 1 <= id <= c.idSeq)
    && (forall id :: id in c.unsent ==> id in c.issued)
  }

  /** Requests on their way are the caller's own, and none was received before. */
  ghost predicate RequestsOk(c: Caller, out: seq<Msg>, s: Server) {
    && (forall i :: 0 <= i < |out| && out[i].Request? ==>
          && out[i].id in c.issued && out[i].id !in s.seen
          && c.issued[out[i].id] == Issue(out[i].name, out[i].params))
    && (forall i, j :: 0 <= i < j < |out| && out[i].Request? && out[j].Request? ==> out[i].id != out[j].id)
    && (forall id :: id in s.seen ==> id in c.issued)
  }

  /** A cancellation travels behind its request. */
  ghost predicate CancelsOk(c: Caller, out: seq<Msg>, s: Server) {
    forall i :: 0 <= i < |out| && out[i].Cancel? ==>
      out[i].id in s.seen || out[i].id in c.unsent || exists j ::
            0 <= j < i && out[j].Request? && out[j].id == out[i].id
  }

  /** No request is lost: it was received, was never sent, or is on its way. */
  ghost predicate Accounted(c: Caller, out: seq<Msg>, s: Server) {
    forall id :: id in c.issued ==>
      id in s.seen || id in c.unsent || exists j :: 0 <= j < |out| && out[j].Request? && out[j].id == id
  }

  /** Controller `k` belongs to request `id`, which is being handled or answered. */
  predicate Serves(s: Server, k: nat, id: nat) {
    (k in s.running && s.running[k].id == id) || (k in s.sending && s.sending[k] == id)
  }

  /** Each request received is served at most once, as it was issued. */
  ghost predicate ServerOk(c: Caller, s: Server) { RunningOk(c, s) && FlightOk(s) }

  ghost predicate RunningOk(c: Caller, s: Server) {
    && (forall k :: k in s.running ==>
          && k < s.controllers && s.running[k].id in s.seen && s.running[k].id !in s.answered
          && s.running[k].id in c.issued && c.issued[s.running[k].id] == Issue(s.running[k].name, s.running[k].params))
    && (forall k, l :: k in s.running && l in s.running && k != l ==> s.running[k].id != s.running[l].id)
    && (forall id :: id in s.answered ==> id in s.seen && id in c.issued && s.answered[id].issue == c.issued[id])
  }

  ghost predicate FlightOk(s: Server) {
    && (forall k :: k in s.sending ==> k < s.controllers && k !in s.running && s.sending[k] in s.answered)
    && (forall id :: id in s.inflight ==> Serves(s, s.inflight[id], id))
    && (forall k :: k in s.aborted ==> k < s.controllers)
  }

  /** Every request being handled or answered can be cancelled: its own controller is in flight under its id. */
  ghost predicate Flying(s: Server) {
    forall k, id :: Serves(s, k, id) ==> id in s.inflight && s.inflight[id] == k
  }

  /** Responses on their way, and results already delivered, are the handlers' own. */
  ghost predicate ResponsesOk(c: Caller, s: Server, back: seq<Msg>) {
    && (forall i :: 0 <= i < |back| && back[i].Response? ==>
          back[i].id in s.answered && s.answered[back[i].id].outcome == back[i].outcome)
    && (forall id :: id in c.settled && c.settled[id].Resolved? ==>
          id in s.answered && s.answered[id].outcome == Result(c.settled[id].value))
  }

  /** Calls of one side, served by the other: `out` leads from caller to server, `back` the other way. */
  ghost predicate Half(c: Caller, out: seq<Msg>, s: Server, back: seq<Msg>) {
    CallerOk(c) && RequestsOk(c, out, s) && CancelsOk(c, out, s) && Accounted(c, out, s) && ServerOk(c, s)
        && ResponsesOk(c, s, back)
  }

  // ----- what single steps do to one half -----

  function Issued(c: Caller, issue: Issue, sent: bool): Caller {
    var id := c.idSeq + 1;
    Caller(id, c.pending + {id}, c.settled, c.issued[id := issue], if sent then c.unsent else c.unsent + {id})
  }

  lemma CallStep(c: Caller, out: seq<Msg>, s: Server, back: seq<Msg>, issue: Issue, sent: bool)
    requires Half(c, out, s, back)
    ensures var id := c.idSeq + 1;
            Half(Issued(c, issue, sent), if sent then out + [Request(id, issue.name, issue.params)] else out, s, back)
  {
    hide FlightOk, RequestsOk, CancelsOk, Accounted;
    CallCancels(c, out, s, issue, sent);
    CallRequests(c, out, s, issue, sent);
  }

  function Sent(c: Caller, out: seq<Msg>, issue: Issue, sent: bool): seq<Msg> {
    if sent then out + [Request(c.idSeq + 1, issue.name, issue.params)] else out
  }

  lemma CallRequests(c: Caller, out: seq<Msg>, s: Server, issue: Issue, sent: bool)
    requires CallerOk(c) && RequestsOk(c, out, s)
    ensures RequestsOk(Issued(c, issue, sent), Sent(c, out, issue, sent), s)
  {
  }

  lemma CallCancels(c: Caller, out: seq<Msg>, s: Server, issue: Issue, sent: bool)
    requires CancelsOk(c, out, s) && Accounted(c, out, s)
    ensures CancelsOk(Issued(c, issue, sent), Sent(c, out, issue, sent), s)
    ensures Accounted(Issued(c, issue, sent), Sent(c, out, issue, sent), s)
  {
    var c', out' := Issued(c, issue, sent), Sent(c, out, issue, sent);
    forall i | 0 <= i < |out'| && out'[i].Cancel?
      ensures out'[i].id in s.seen || out'[i].id in c'.unsent
           || exists j :: 0 <= j < i && out'[j].Request? && out'[j].id == out'[i].id
    {
      assert out'[i] == out[i];
      if j :| 0 <= j < i && out[j].Request? && out[j].id == out[i].id { assert out'[j] == out[j]; }
    }
    if sent {
      PushAccounted(c, out, s, out'[|out|]);
      assert out'[|out|].id == c.idSeq + 1;
    }
  }

  lemma PushAccounted(c: Caller, out: seq<Msg>, s: Server, m: Msg)
    requires Accounted(c, out, s)
    ensures Accounted(c, out + [m], s)
  {
    forall id | id in c.issued
      ensures id in s.seen || id in c.unsent || exists j ::
            0 <= j < |out + [m]| && (out + [m])[j].Request? && (out + [m])[j].id == id
    {
      if j :| 0 <= j < |out| && out[j].Request? && out[j].id == id { assert (out + [m])[j] == out[j]; }
    }
  }

  function Settle(c: Caller, id: nat, v: Settled): Caller {
    c.(pending := c.pending - {id}, settled := c.settled[id := v])
  }

  /** Settling a pending call; a result must be the one its request was answered with. */
  lemma SettleStep(c: Caller, out: seq<Msg>, s: Server, back: seq<Msg>, id: nat, v: Settled)
    requires Half(c, out, s, back) && id in c.pending
    requires v.Resolved? ==> id in s.answered && s.answered[id].outcome == Result(v.value)
    ensures Half(Settle(c, id, v), out, s, back)
  {
  }

  /** Sending one more message that is not a request. */
  lemma SendStep(c: Caller, out: seq<Msg>, s: Server, back: seq<Msg>, m: Msg)
    requires Half(c, out, s, back)
    requires m.Response? || (m.Cancel? && m.id in c.issued)
    ensures Half(c, out + [m], s, back)
  {
    var out' := out + [m];
    PushAccounted(c, out, s, m);
    assert CancelsOk(c, out', s) by {
      forall i | 0 <= i < |out'| && out'[i].Cancel?
        ensures out'[i].id in s.seen || out'[i].id in c.unsent || exists j ::
              0 <= j < i && out'[j].Request? && out'[j].id == out'[i].id
      {
        if i < |out| {
          if j :| 0 <= j < i && out[j].Request? && out[j].id == out[i].id { assert out'[j] == out[j]; }
        } else if j :| 0 <= j < |out| && out[j].Request? && out[j].id == m.id {
          assert out'[j] == out[j];
        }
      }
    }
  }

  /** A message that is not a response is of no concern to calls going the other way. */
  lemma BackSendStep(c: Caller, out: seq<Msg>, s: Server, back: seq<Msg>, m: Msg)
    requires Half(c, out, s, back)
    requires m.Response? ==> m.id in s.answered && s.answered[m.id].outcome == m.outcome
    ensures Half(c, out, s, back + [m])
  {
  }

  /** A request is received: from now on it counts as seen, and a handler may be at work on it. */
  function Served(s: Server, r: Msg, service: bool): Server
    requires r.Request?
  {
    if service then
      s.(seen := s.seen + {r.id}, controllers := s.controllers + 1, inflight := s.inflight[r.id := s.controllers],
         running := s.running[s.controllers := Job(r.id, r.name, r.params)])
    else s.(seen := s.seen + {r.id})
  }

  lemma ServeStep(c: Caller, out: seq<Msg>, s: Server, back: seq<Msg>, service: bool)
    requires Half(c, out, s, back) && out != [] && out[0].Request?
    ensures Half(c, out[1..], Served(s, out[0], service), back)
  {
    hide RunningOk, FlightOk, CallerOk, CancelsOk, Accounted;
    var r, out', s' := out[0], out[1..], Served(s, out[0], service);
    assert forall i :: 0 <= i < |out'| ==> out'[i] == out[i + 1];
    assert RequestsOk(c, out', s');
    PopCancels(c, out, s, s');
    RunningServe(c, s, r, service);
    FlightServe(c, s, r, service);
  }

  lemma RunningServe(c: Caller, s: Server, r: Msg, service: bool)
    requires RunningOk(c, s) && r.Request? && r.id in c.issued && r.id !in s.seen
    requires c.issued[r.id] == Issue(r.name, r.params)
    ensures RunningOk(c, Served(s, r, service))
  {
    assert forall k :: k in s.running ==> s.running[k].id != r.id;
  }

  lemma FlightServe(c: Caller, s: Server, r: Msg, service: bool)
    requires RunningOk(c, s) && FlightOk(s) && r.Request?
    ensures FlightOk(Served(s, r, service))
  {
    var s' := Served(s, r, service);
    forall id | id in s'.inflight ensures Serves(s', s'.inflight[id], id) {
      if id in s.inflight { assert Serves(s, s.inflight[id], id); }
    }
  }

  lemma FlyingServe(c: Caller, s: Server, r: Msg, service: bool)
    requires RunningOk(c, s) && FlightOk(s) && Flying(s) && r.Request? && r.id !in s.seen
    ensures Flying(Served(s, r, service))
  {
    var s' := Served(s, r, service);
    forall k, id | Serves(s', k, id) ensures id in s'.inflight && s'.inflight[id] == k {
      if Serves(s, k, id) {
        assert id in s.inflight && id in s.seen;
      }
    }
  }

  /** A controller that was never used has nothing to do with any request. */
  lemma NewController(c: Caller, s: Server)
    requires RunningOk(c, s) && FlightOk(s)
    ensures var k := s.controllers;
            && k !in s.running && k !in s.sending && k !in s.aborted
            && forall id :: id in s.inflight ==> s.inflight[id] != k
  {
    forall id | id in s.inflight ensures s.inflight[id] != s.controllers {
      assert Serves(s, s.inflight[id], id);
    }
  }

  /** What travels concerns the requests received so far, and nothing else of the server. */
  lemma SameSeen(c: Caller, out: seq<Msg>, s: Server, s': Server)
    requires RequestsOk(c, out, s) && CancelsOk(c, out, s) && Accounted(c, out, s) && s'.seen == s.seen
    ensures RequestsOk(c, out, s') && CancelsOk(c, out, s') && Accounted(c, out, s')
  {
  }

  lemma PopCancels(c: Caller, out: seq<Msg>, s: Server, s': Server)
    requires CancelsOk(c, out, s) && out != [] && s.seen <= s'.seen && (out[0].Request? ==> out[0].id in s'.seen)
    requires Accounted(c, out, s)
    ensures CancelsOk(c, out[1..], s') && Accounted(c, out[1..], s')
  {
    var out' := out[1..];
    forall id | id in c.issued
      ensures id in s'.seen || id in c.unsent || exists j :: 0 <= j < |out'| && out'[j].Request? && out'[j].id == id
    {
      if j :| 0 <= j < |out| && out[j].Request? && out[j].id == id {
        if j > 0 { assert out'[j - 1] == out[j]; }
      }
    }
    forall i | 0 <= i < |out'| && out'[i].Cancel?
      ensures out'[i].id in s'.seen || out'[i].id in c.unsent || exists j ::
            0 <= j < i && out'[j].Request? && out'[j].id == out'[i].id
    {
      assert out'[i] == out[i + 1];
      if j :| 0 <= j < i + 1 && out[j].Request? && out[j].id == out[i + 1].id {
        if j > 0 { assert out'[j - 1] == out[j]; }
      }
    }
  }

  /** Any other message leaves the channel. */
  lemma PopStep(c: Caller, out: seq<Msg>, s: Server, back: seq<Msg>)
    requires Half(c, out, s, back) && out != [] && !out[0].Request?
    ensures Half(c, out[1..], s, back)
  {
    assert forall i :: 0 <= i < |out[1..]| ==> out[1..][i] == out[i + 1];
    PopCancels(c, out, s, s);
  }

  lemma BackPopStep(c: Caller, out: seq<Msg>, s: Server, back: seq<Msg>)
    requires Half(c, out, s, back) && back != []
    ensures Half(c, out, s, back[1..])
  {
    assert forall i :: 0 <= i < |back[1..]| ==> back[1..][i] == back[i + 1];
  }

  /** Handler `k` is done; its controller stays in flight until the response is sent. */
  function Answered(s: Server, k: nat, outcome: Outcome): Server
    requires k in s.running
  {
    var job := s.running[k];
    s.(running := s.running - {k}, sending := s.sending[k := job.id],
       answered := s.answered[job.id := Answer(Issue(job.name, job.params), outcome)])
  }

  lemma AnswerStep(c: Caller, out: seq<Msg>, s: Server, back: seq<Msg>, k: nat, outcome: Outcome)
    requires Half(c, out, s, back) && k in s.running
    ensures Half(c, out, Answered(s, k, outcome), back)
  {
    hide RunningOk, FlightOk, CallerOk, RequestsOk, CancelsOk, Accounted;
    SameSeen(c, out, s, Answered(s, k, outcome));
    RunningAnswer(c, s, k, outcome);
    FlightAnswer(c, s, k, outcome);
  }

  lemma RunningAnswer(c: Caller, s: Server, k: nat, outcome: Outcome)
    requires RunningOk(c, s) && k in s.running
    ensures RunningOk(c, Answered(s, k, outcome)) && s.running[k].id !in s.answered
  {
  }

  lemma FlightAnswer(c: Caller, s: Server, k: nat, outcome: Outcome)
    requires RunningOk(c, s) && FlightOk(s) && k in s.running
    ensures FlightOk(Answered(s, k, outcome))
  {
    var s' := Answered(s, k, outcome);
    forall id | id in s'.inflight ensures Serves(s', s'.inflight[id], id) {
      assert Serves(s, s.inflight[id], id);
    }
  }

  lemma FlyingAnswer(c: Caller, s: Server, k: nat, outcome: Outcome)
    requires RunningOk(c, s) && FlightOk(s) && Flying(s) && k in s.running
    ensures Flying(Answered(s, k, outcome))
  {
    var s' := Answered(s, k, outcome);
    forall l, id | Serves(s', l, id) ensures id in s'.inflight && s'.inflight[id] == l {
      assert Serves(s, l, id);
    }
  }

  /** The response of handler `k` is sent, or could not be. */
  function Released(s: Server, k: nat): Server
    requires k in s.sending
  {
    var id := s.sending[k];
    s.(sending := s.sending - {k}, inflight := if id in s.inflight && s.inflight[id] == k then s.inflight - {id}
        else s.inflight)
  }

  lemma ReleaseStep(c: Caller, out: seq<Msg>, s: Server, back: seq<Msg>, k: nat)
    requires Half(c, out, s, back) && k in s.sending
    ensures Half(c, out, Released(s, k), back)
  {
    hide FlightOk, CallerOk, RequestsOk, CancelsOk, Accounted;
    SameSeen(c, out, s, Released(s, k));
    FlightRelease(s, k);
  }

  lemma FlightRelease(s: Server, k: nat)
    requires FlightOk(s) && k in s.sending
    ensures FlightOk(Released(s, k))
  {
    var s' := Released(s, k);
    forall id | id in s'.inflight ensures Serves(s', s'.inflight[id], id) {
      assert Serves(s, s.inflight[id], id);
    }
  }

  lemma FlyingRelease(s: Server, k: nat)
    requires FlightOk(s) && Flying(s) && k in s.sending
    ensures Flying(Released(s, k)) && Released(s, k).inflight == s.inflight - {s.sending[k]}
  {
    var s' := Released(s, k);
    assert Serves(s, k, s.sending[k]);
    forall l, id | Serves(s', l, id) ensures id in s'.inflight && s'.inflight[id] == l {
      assert Serves(s, l, id);
    }
  }

  /** Controllers are aborted, or the in-flight table is cleared; handlers keep running. */
  lemma AbortStep(c: Caller, out: seq<Msg>, s: Server, back: seq<Msg>, s': Server)
    requires Half(c, out, s, back)
    requires s' == s.(aborted := s'.aborted, inflight := s'.inflight)
        && (s'.inflight == s.inflight || s'.inflight == map[])
    requires forall k :: k in s'.aborted ==> k in s.aborted || exists id :: id in s.inflight && s.inflight[id] == k
    ensures Half(c, out, s', back)
    ensures s'.inflight == s.inflight && Flying(s) ==> Flying(s')
  {
    hide CallerOk, RequestsOk, CancelsOk, Accounted;
    SameSeen(c, out, s, s');
    forall id | id in s'.inflight ensures Serves(s', s'.inflight[id], id) {
      assert Serves(s, s.inflight[id], id);
    }
    forall k | k in s'.aborted ensures k < s'.controllers {
      if k !in s.aborted {
        var id :| id in s.inflight && s.inflight[id] == k;
        assert Serves(s, k, id);
      }
    }
    forall k, id | Serves(s', k, id) ensures Serves(s, k, id) {
    }
  }

  /** `#rejectPending`. */
  method RejectPending(c: Caller, ghost out: seq<Msg>, ghost s: Server, ghost back: seq<Msg>, reason: Reason)
      returns (c': Caller)
    requires Half(c, out, s, back)
    ensures Half(c', out, s, back) && c'.pending == {} && c'.idSeq == c.idSeq && c'.issued == c.issued
    ensures forall id :: id in c.settled ==> id in c'.settled && c'.settled[id] == c.settled[id]
    ensures forall id :: id in c.pending ==> id in c'.settled && c'.settled[id] == Rejected(reason)
  {
    hide Half;
    c' := c;
    while c'.pending != {}
      invariant Half(c', out, s, back) && c'.pending <= c.pending && c'.idSeq == c.idSeq && c'.issued == c.issued
      invariant forall id :: id in c.settled ==> id in c'.settled && c'.settled[id] == c.settled[id]
      invariant forall id :: id in c.pending && id !in c'.pending ==>
            id in c'.settled && c'.settled[id] == Rejected(reason)
      decreases c'.pending
    {
      var id :| id in c'.pending;
      NotYetSettled(c', out, s, back, id, c.settled);
      SettleStep(c', out, s, back, id, Rejected(reason));
      c' := Settle(c', id, Rejected(reason));
    }
  }

  lemma NotYetSettled(c: Caller, out: seq<Msg>, s: Server, back: seq<Msg>, id: nat, before: map<nat, Settled>)
    requires Half(c, out, s, back) && id in c.pending && forall k :: k in before ==> k in c.settled
    ensures id !in before && id !in c.settled
  {
  }

  /** Promises settle once: later states keep every settlement. */
  ghost predicate Settlements(before: Caller, after: Caller) {
    && before.idSeq <= after.idSeq
    && (forall id :: id in before.settled ==> id in after.settled && after.settled[id] == before.settled[id])
    && (forall id :: id in before.issued ==> id in after.issued && after.issued[id] == before.issued[id])
  }

  /** A pending call `id` is settled with `v`, and nothing else changes; if it is not pending, nothing does. */
  ghost predicate SettledAs(before: Caller, after: Caller, id: nat, v: Settled) {
    if id !in before.pending then after == before
    else
      && after.pending == before.pending - {id} && after.settled == before.settled[id := v]
      && after.idSeq == before.idSeq && after.issued == before.issued && after.unsent == before.unsent
  }

  /** What becomes of a call when its response comes. */
  ghost predicate Conveys(o: Outcome, v: Settled) {
    match o
    case Result(x) => v == Resolved(x)
    case Fault(code) => v == Rejected(Remote(code))
  }

  /** `JsonRpcPeer`. */
  class Peer {
    const service: bool
    var caller: Caller
    var server: Server
    /** Messages handed to the transport that the other side has not received yet. */
    var outbox: seq<Msg>
    var closed: bool
    var transportClosed: bool

    constructor (hasService: bool)
      ensures service == hasService && outbox == [] && !closed && !transportClosed
      ensures caller == Caller(0, {}, map[], map[], {}) && server == Server(map[], {}, map[], map[], 0, {}, map[])
    {
      service, outbox, closed, transportClosed := hasService, [], false, false;
      caller, server := Caller(0, {}, map[], map[], {}), Server(map[], {}, map[], map[], 0, {}, map[]);
    }
  }

  /** A closed peer has nothing pending and nothing in flight; an open one has all that it serves in flight. */
  ghost predicate Quiet(p: Peer)
    reads p
  {
    if p.closed then p.caller.pending == {} && p.server.inflight == map[] else Flying(p.server)
  }

  /** The connection between two peers. */
  ghost predicate Connected(p: Peer, q: Peer)
    reads p, q
  {
    && p != q && Quiet(p) && Quiet(q)
    && Half(p.caller, p.outbox, q.server, q.outbox)
    && Half(q.caller, q.outbox, p.server, p.outbox)
  }

  lemma NewConnection(p: Peer, q: Peer)
    requires p != q && p.outbox == [] && q.outbox == []
    requires p.caller == Caller(0, {}, map[], map[], {}) && p.server == Server(map[], {}, map[], map[], 0, {}, map[])
    requires q.caller == Caller(0, {}, map[], map[], {}) && q.server == Server(map[], {}, map[], map[], 0, {}, map[])
    ensures Connected(p, q)
  {
  }

  /** Two peers over one connection, neither of which has sent anything. */
  method Connect(service: bool, otherService: bool) returns (p: Peer, q: Peer)
    ensures fresh(p) && fresh(q) && Connected(p, q) && p.service == service && q.service == otherService
    ensures !p.closed && !q.closed && p.caller.pending == {} == q.caller.pending
  {
    hide Half;
    p := new Peer(service);
    q := new Peer(otherService);
    NewConnection(p, q);
  }

  /** `call`: refused when closed or already aborted; `sent` tells whether the transport took the message. */
  method Call(p: Peer, q: Peer, name: string, params: Json, aborted: bool, sent: bool) returns (id: Option<nat>)
    requires Connected(p, q)
    modifies p
    ensures Connected(p, q) && Settlements(old(p.caller), p.caller) && p.server == old(p.server)
    ensures id.None? <==> old(p.closed) || aborted
    ensures id.None? ==> p.caller == old(p.caller) && p.outbox == old(p.outbox)
    ensures id.Some? ==>
              && id.value == old(p.caller.idSeq) + 1 == p.caller.idSeq && id.value !in old(p.caller.issued)
              && p.caller.pending == old(p.caller.pending) + {id.value} && p.caller.settled == old(p.caller.settled)
              && p.caller.issued == old(p.caller.issued)[id.value := Issue(name, params)]
              && p.outbox == if sent then old(p.outbox) + [Request(id.value, name, params)] else old(p.outbox)
  {
    hide Half, Flying;
    if p.closed || aborted { return None; }
    var id' := p.caller.idSeq + 1;
    var m := Request(id', name, params);
    CallStep(p.caller, p.outbox, q.server, q.outbox, Issue(name, params), sent);
    BackSendStep(q.caller, q.outbox, p.server, p.outbox, m);
    CallFresh(p.caller, p.outbox, q.server, q.outbox);
    p.caller := Issued(p.caller, Issue(name, params), sent);
    if sent { p.outbox := p.outbox + [m]; }
    return Some(id');
  }

  lemma CallFresh(c: Caller, out: seq<Msg>, s: Server, back: seq<Msg>)
    requires Half(c, out, s, back)
    ensures c.idSeq + 1 !in c.settled && c.idSeq + 1 !in c.issued
  {
  }

  /** The transport reports that sending request `id` failed. */
  method SendRejected(p: Peer, q: Peer, id: nat)
    requires Connected(p, q)
    modifies p
    ensures Connected(p, q) && Settlements(old(p.caller), p.caller)
    ensures p.server == old(p.server) && p.outbox == old(p.outbox)
    ensures SettledAs(old(p.caller), p.caller, id, Rejected(SendError))
  {
    hide Half, Flying;
    if id !in p.caller.pending { return; }
    SettleStep(p.caller, p.outbox, q.server, q.outbox, id, Rejected(SendError));
    NotYetSettled(p.caller, p.outbox, q.server, q.outbox, id, p.caller.settled);
    p.caller := Settle(p.caller, id, Rejected(SendError));
  }

  /** `onAbort` of a call: it is rejected at once, and the remote side is told. */
  method Abort(p: Peer, q: Peer, id: nat, sent: bool)
    requires Connected(p, q)
    modifies p
    ensures Connected(p, q) && Settlements(old(p.caller), p.caller)
    ensures p.server == old(p.server) && SettledAs(old(p.caller), p.caller, id, Rejected(Aborted))
    ensures p.outbox == if sent && id in old(p.caller.pending) then old(p.outbox) + [Cancel(id)] else old(p.outbox)
  {
    hide Half, Flying;
    if id !in p.caller.pending { return; }
    SettleStep(p.caller, p.outbox, q.server, q.outbox, id, Rejected(Aborted));
    NotYetSettled(p.caller, p.outbox, q.server, q.outbox, id, p.caller.settled);
    PendingIssued(p.caller, p.outbox, q.server, q.outbox, id);
    p.caller := Settle(p.caller, id, Rejected(Aborted));
    if sent {
      SendStep(p.caller, p.outbox, q.server, q.outbox, Cancel(id));
      BackSendStep(q.caller, q.outbox, p.server, p.outbox, Cancel(id));
      p.outbox := p.outbox + [Cancel(id)];
    }
  }

  lemma PendingIssued(c: Caller, out: seq<Msg>, s: Server, back: seq<Msg>, id: nat)
    requires Half(c, out, s, back) && id in c.pending
    ensures id in c.issued
  {
  }

  /** The `finally` of the receive loop, and the first part of `close`. */
  method Shut(p: Peer, q: Peer)
    requires Connected(p, q)
    modifies p
    ensures Connected(p, q) && p.closed && Settlements(old(p.caller), p.caller) && p.outbox == old(p.outbox)
    ensures p.caller.pending == {} && p.caller.issued == old(p.caller.issued) && p.caller.idSeq == old(p.caller.idSeq)
    ensures forall id :: id in old(p.caller.pending) ==> p.caller.settled[id] == Rejected(ConnectionClosed)
    ensures p.server == old(p.server).(inflight := map[], aborted := p.server.aborted)
    ensures forall k :: k in p.server.aborted <==>
              k in old(p.server.aborted) || exists id :: id in old(p.server.inflight) && old(p.server.inflight)[id] == k
    ensures !old(p.closed) ==> forall k, id :: Serves(p.server, k, id) ==> k in p.server.aborted
  {
    hide Half, Flying;
    AllAborted(p.server);
    p.closed := true;
    var caller := RejectPending(p.caller, p.outbox, q.server, q.outbox, ConnectionClosed);
    var server := p.server.(aborted := p.server.aborted + (set id | id in p.server.inflight :: p.server.inflight[id]),
        inflight := map[]);
    AbortStep(q.caller, q.outbox, p.server, p.outbox, server);
    assert forall k, id :: Serves(server, k, id) ==> Serves(p.server, k, id);
    p.caller, p.server := caller, server;
  }

  lemma AllAborted(s: Server)
    ensures Flying(s) ==> forall k, id :: Serves(s, k, id) ==> id in s.inflight && s.inflight[id] == k
  {
  }

  /** `close`. */
  method Close(p: Peer, q: Peer)
    requires Connected(p, q)
    modifies p
    ensures Connected(p, q) && p.closed && p.transportClosed && Settlements(old(p.caller), p.caller)
    ensures p.caller.pending == {} && p.server.inflight == map[] && p.outbox == old(p.outbox)
    ensures forall id :: id in old(p.caller.pending) ==> p.caller.settled[id] == Rejected(ConnectionClosed)
    ensures !old(p.closed) ==> forall k, id :: Serves(p.server, k, id) ==> k in p.server.aborted
  {
    hide Half, Flying;
    if !p.closed {
      Shut(p, q);
    }
    p.transportClosed := true;
  }

  /** One turn of the receive loop of `p` on the next message from `q`. */
  method Receive(p: Peer, q: Peer)
    requires Connected(p, q) && q.outbox != []
    modifies p, q`outbox
    ensures Connected(p, q) && Settlements(old(p.caller), p.caller) && p.outbox == old(p.outbox)
    ensures old(p.closed) ==> q.outbox == old(q.outbox)
    ensures !old(p.closed) ==> q.outbox == old(q.outbox)[1..] && !p.closed
    ensures !old(p.closed) ==>
              var m := old(q.outbox)[0]; var before, after := old(p.server), p.server;
              match m
              case Response(id, o) =>
                after == before && exists v :: Conveys(o, v) && SettledAs(old(p.caller), p.caller, id, v)
              case Cancel(id) =>
                && p.caller == old(p.caller) && after == before.(aborted := after.aborted)
                && (forall k :: k in after.aborted <==> k in before.aborted || Serves(before, k, id))
              case Request(id, name, params) =>
                && p.caller == old(p.caller) && after.seen == before.seen + {id}
                && after.sending == before.sending && after.answered == before.answered
                && after.aborted == before.aborted
                && if p.service then
                     && after.running == before.running[before.controllers := Job(id, name, params)]
                     && after.inflight == before.inflight[id := before.controllers] && id !in before.inflight
                     && Unused(before, before.controllers) && after.controllers == before.controllers + 1
                   else
                     after.running == before.running && after.inflight == before.inflight
                     && after.controllers == before.controllers
  {
    hide Half, Flying;
    if p.closed {
      Shut(p, q);
      return;
    }
    var m := q.outbox[0];
    BackPopStep(p.caller, p.outbox, q.server, q.outbox);
    match m
    case Response(id, o) =>
      PopStep(q.caller, q.outbox, p.server, p.outbox);
      var v := match o case Result(v) => Resolved(v) case Fault(code) => Rejected(Remote(code));
      assert Conveys(o, v);
      if id in p.caller.pending {
        Genuine(p.caller, p.outbox, q.server, q.outbox);
        NotYetSettled(p.caller, p.outbox, q.server, q.outbox, id, p.caller.settled);
        SettleStep(p.caller, p.outbox, q.server, q.outbox[1..], id, v);
        p.caller := Settle(p.caller, id, v);
      }
      q.outbox := q.outbox[1..];
      assert SettledAs(old(p.caller), p.caller, id, v);
    case Cancel(id) =>
      PopStep(q.caller, q.outbox, p.server, p.outbox);
      CancelHits(q.caller, q.outbox, p.server, p.outbox, id);
      if id in p.server.inflight {
        var server := p.server.(aborted := p.server.aborted + {p.server.inflight[id]});
        AbortStep(q.caller, q.outbox[1..], p.server, p.outbox, server);
        p.server := server;
      }
      q.outbox := q.outbox[1..];
    case Request(id, _, _) =>
      ServeStep(q.caller, q.outbox, p.server, p.outbox, p.service);
      ServeNew(q.caller, q.outbox, p.server, p.outbox, p.service);
      p.server := Served(p.server, m, p.service);
      q.outbox := q.outbox[1..];
  }

  /** Nothing has been done with this controller. */
  ghost predicate Unused(s: Server, k: nat) {
    k !in s.running && k !in s.sending && k !in s.aborted && forall id :: id in s.inflight ==> s.inflight[id] != k
  }

  /** The entry in flight under an id is the one controller that serves it. */
  lemma CancelHits(c: Caller, out: seq<Msg>, s: Server, back: seq<Msg>, id: nat)
    requires Half(c, out, s, back) && Flying(s)
    ensures forall k :: Serves(s, k, id) <==> id in s.inflight && s.inflight[id] == k
  {
  }

  lemma ServeNew(c: Caller, out: seq<Msg>, s: Server, back: seq<Msg>, service: bool)
    requires Half(c, out, s, back) && Flying(s) && out != [] && out[0].Request?
    ensures Flying(Served(s, out[0], service)) && Unused(s, s.controllers) && out[0].id !in s.inflight
  {
    hide Flying, CallerOk, CancelsOk, Accounted, ResponsesOk;
    FlyingServe(c, s, out[0], service);
    NewController(c, s);
    InFlightSeen(c, s);
  }

  lemma InFlightSeen(c: Caller, s: Server)
    requires RunningOk(c, s) && FlightOk(s)
    ensures forall id :: id in s.inflight ==> id in s.seen
  {
    forall id | id in s.inflight ensures id in s.seen {
      assert Serves(s, s.inflight[id], id);
    }
  }

  lemma Genuine(c: Caller, out: seq<Msg>, s: Server, back: seq<Msg>)
    requires Half(c, out, s, back) && back != [] && back[0].Response?
    ensures back[0].id in s.answered && s.answered[back[0].id].outcome == back[0].outcome
  {
  }

  /** Handler `k` of `p` finishes, in any order; `sent` tells whether the transport took the response. */
  method HandlerDone(p: Peer, q: Peer, k: nat, outcome: Outcome, sent: bool)
    requires Connected(p, q) && k in p.server.running
    modifies p
    ensures Connected(p, q) && p.caller == old(p.caller)
    ensures var before, after := old(p.server), p.server; var job := before.running[k];
            && after.running == before.running - {k} && after.sending == before.sending[k := job.id]
            && job.id !in before.answered
            && after.answered == before.answered[job.id := Answer(Issue(job.name, job.params), outcome)]
            && after.inflight == before.inflight && after.aborted == before.aborted && after.seen == before.seen
            && after.controllers == before.controllers
    ensures p.outbox == if sent then old(p.outbox) + [Response(old(p.server.running[k].id), outcome)] else old(p.outbox)
  {
    hide Half, Flying;
    var m := Response(p.server.running[k].id, outcome);
    AnswerStep(q.caller, q.outbox, p.server, p.outbox, k, outcome);
    AnswerOnce(q.caller, q.outbox, p.server, p.outbox, k, outcome);
    p.server := Answered(p.server, k, outcome);
    if sent {
      SendStep(p.caller, p.outbox, q.server, q.outbox, m);
      BackSendStep(q.caller, q.outbox, p.server, p.outbox, m);
      p.outbox := p.outbox + [m];
    }
  }

  lemma AnswerOnce(c: Caller, out: seq<Msg>, s: Server, back: seq<Msg>, k: nat, outcome: Outcome)
    requires Half(c, out, s, back) && k in s.running
    ensures s.running[k].id !in s.answered && (Flying(s) ==> Flying(Answered(s, k, outcome)))
  {
    hide Flying;
    if Flying(s) { FlyingAnswer(c, s, k, outcome); }
  }

  /** The send of handler `k`'s response has ended. */
  method SendDone(p: Peer, q: Peer, k: nat)
    requires Connected(p, q) && k in p.server.sending
    modifies p
    ensures Connected(p, q) && p.caller == old(p.caller) && p.outbox == old(p.outbox)
    ensures p.server == old(p.server).(sending := p.server.sending, inflight := p.server.inflight)
    ensures p.server.sending == old(p.server.sending) - {k}
    ensures !p.closed ==> p.server.inflight == old(p.server.inflight) - {old(p.server.sending)[k]}
    ensures p.closed ==> p.server.inflight == old(p.server.inflight)
  {
    hide Half, Flying;
    ReleaseFlying(q.caller, q.outbox, p.server, p.outbox, k);
    ReleaseStep(q.caller, q.outbox, p.server, p.outbox, k);
    p.server := Released(p.server, k);
  }

  lemma ReleaseFlying(c: Caller, out: seq<Msg>, s: Server, back: seq<Msg>, k: nat)
    requires Half(c, out, s, back) && k in s.sending
    ensures Flying(s) ==> Flying(Released(s, k)) && Released(s, k).inflight == s.inflight - {s.sending[k]}
    ensures s.inflight == map[] ==> Released(s, k).inflight == map[]
  {
    hide Flying;
    if Flying(s) { FlyingRelease(s, k); }
  }

  /**
   * At any moment of any run: a call that resolved did so with the result of the remote handler that
   * was given this call's own method and params; and every issued id is pending or settled, not both.
   */
  lemma CallsResolveWithTheirOwnResult(p: Peer, q: Peer, id: nat)
    requires Connected(p, q) && 1 <= id <= p.caller.idSeq
    ensures id in p.caller.pending <==> id !in p.caller.settled
    ensures id in p.caller.settled && p.caller.settled[id].Resolved? ==>
              && id in q.server.answered
              && q.server.answered[id] == Answer(p.caller.issued[id], Result(p.caller.settled[id].value))
  {
  }

  /**
   * A cancellation reaches exactly the handler of the request it cancels, at work or answering, as long as the peer is
   * open.
   */
  lemma CancelsHitTheirOwnRequest(p: Peer, q: Peer)
    requires Connected(p, q) && q.outbox != [] && q.outbox[0].Cancel?
    ensures q.outbox[0].id in p.server.seen || q.outbox[0].id in q.caller.unsent
    ensures !p.closed ==> var id := q.outbox[0].id;
              forall k :: Serves(p.server, k, id) <==> id in p.server.inflight && p.server.inflight[id] == k
  {
  }
}
