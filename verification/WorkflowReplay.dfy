/** What a workflow body does, what it is answered from a step log, and how much of a log it stands by. */
module WorkflowReplay {
  import opened WorkflowLog

  /** What a call can throw. `Parked` is the `WaitSignal` by which a wait leaves the body. */
  datatype Error = Parked | TimedOut | Mismatch | Thrown(reason: Value)

  /** How a call ends for the body. */
  datatype Outcome = Ok(value: Value) | Threw(error: Error)

  /** What the body does next: call the context, return, or throw. */
  datatype Action =
    | DoStep(id: string)
    | Sleep(id: string)
    | WaitFor(name: string)
    | Return(value: Value)
    | Throw(error: Error)

  /** The workflow function: its next action, given the outcomes of its context calls so far. */
  type Body = seq<Outcome> -> Action

  /** The recorded results of the first `n` calls. */
  function Results(steps: Steps, n: nat): (r: seq<Outcome>)
    requires DoneBelow(steps, n)
    ensures |r| == n && forall i :: 0 <= i < n ==> r[i] == Ok(steps[i].result)
  {
    seq(n, i requires 0 <= i < n => Ok(steps[i].result))
  }

  predicate IsCall(a: Action) { a.DoStep? || a.Sleep? || a.WaitFor? }

  predicate Issues(a: Action, id: string) {
    match a
    case DoStep(i) => i == id
    case Sleep(i) => i == id
    case WaitFor(n) => n == id
    case _ => false
  }

  /** No call has thrown. */
  predicate AllOk(h: seq<Outcome>) { forall i :: 0 <= i < |h| ==> h[i].Ok? }

  // ----- how much of a log the body stands by -----

  /** The first `k` entries answer the calls the body makes when it is given just these answers. */
  ghost predicate Settled(body: Body, steps: Steps, k: nat) {
    DoneBelow(steps, k) && forall i :: 0 <= i < k ==> Issues(body(Results(steps, i)), steps[i].id)
  }

  /** The longest settled part of a log. */
  ghost function Reach(body: Body, steps: Steps, cursor: nat): (k: nat)
    requires DoneBelow(steps, cursor)
    ensures k <= cursor && Settled(body, steps, k)
    ensures k < cursor ==> !Issues(body(Results(steps, k)), steps[k].id)
  {
    ReachFrom(body, steps, cursor, 0)
  }

  ghost function ReachFrom(body: Body, steps: Steps, cursor: nat, k: nat): (r: nat)
    requires DoneBelow(steps, cursor) && k <= cursor && Settled(body, steps, k)
    ensures k <= r <= cursor && Settled(body, steps, r)
    ensures r < cursor ==> !Issues(body(Results(steps, r)), steps[r].id)
    decreases cursor - k
  {
    if k < cursor && Issues(body(Results(steps, k)), steps[k].id) then ReachFrom(body, steps, cursor, k + 1) else k
  }

  /** The log is a history the body produces, without holes. */
  ghost predicate LogOk(body: Body, steps: Steps, cursor: nat) {
    (forall i :: i in steps <==> 0 <= i < cursor) && Settled(body, steps, cursor)
  }

  lemma SettledReach(body: Body, steps: Steps, cursor: nat, k: nat)
    requires DoneBelow(steps, cursor) && k <= cursor && Settled(body, steps, k)
    ensures k <= Reach(body, steps, cursor)
  {
  }

  /** Equal entries give equal results. */
  lemma SameResults(steps: Steps, steps': Steps, n: nat)
    requires DoneBelow(steps, n) && forall i :: 0 <= i < n ==> i in steps' && steps'[i] == steps[i]
    ensures DoneBelow(steps', n) && Results(steps', n) == Results(steps, n)
  {
  }

  /** An entry written beyond the settled part leaves that part settled. */
  lemma StaysSettled(body: Body, steps: Steps, steps': Steps, k: nat)
    requires Settled(body, steps, k) && forall i :: 0 <= i < k ==> i in steps' && steps'[i] == steps[i]
    ensures Settled(body, steps', k)
  {
    hide Results;
    forall i | 0 <= i <= k ensures DoneBelow(steps', i) && Results(steps', i) == Results(steps, i) {
      SameResults(steps, steps', i);
    }
  }

  lemma LogStep(body: Body, steps: Steps, cursor: nat, id: string, v: Value)
    requires LogOk(body, steps, cursor) && Issues(body(Results(steps, cursor)), id)
    ensures LogOk(body, steps[cursor := StepRecord(id, v)], cursor + 1)
  {
    hide Results;
    var steps' := steps[cursor := StepRecord(id, v)];
    StaysSettled(body, steps, steps', cursor);
    forall i | 0 <= i <= cursor ensures DoneBelow(steps', i) && Results(steps', i) == Results(steps, i) {
      SameResults(steps, steps', i);
    }
  }

  // ----- what a driver has seen -----

  /**
   * Every success a driver has seen is in the log, under the call the body made for it. A call that threw first has
   * no entry of its own there.
   */
  ghost predicate Followed(body: Body, steps: Steps, h: seq<Outcome>) {
    forall i :: 0 <= i < |h| ==> FollowedAt(body, steps, h, i)
  }

  ghost predicate FollowedAt(body: Body, steps: Steps, h: seq<Outcome>, i: nat)
    requires i < |h|
  {
    var a := body(h[..i]);
    if h[i].Ok? then
      i in steps && steps[i].result == h[i].value && Issues(a, steps[i].id)
    else
      && IsCall(a) && (a.Sleep? ==> h[i].error == Parked)
      && (AllOk(h[..i]) && i in steps ==> !Issues(a, steps[i].id))
  }

  lemma FollowedMore(body: Body, steps: Steps, steps': Steps, h: seq<Outcome>, o: Outcome)
    requires Followed(body, steps, h) && FollowedAt(body, steps', h + [o], |h|)
    requires forall i :: 0 <= i < |h| ==> (i in steps <==> i in steps') && (i in steps ==> steps[i] == steps'[i])
    ensures Followed(body, steps', h + [o])
  {
    forall i | 0 <= i < |h| ensures FollowedAt(body, steps', h + [o], i) {
      assert FollowedAt(body, steps, h, i);
      assert (h + [o])[..i] == h[..i];
    }
  }

  /** Without a thrown outcome a driver has seen exactly the beginning of the log. */
  lemma AllOkIsLog(body: Body, steps: Steps, cursor: nat, h: seq<Outcome>)
    requires CursorOk(steps, cursor) && Followed(body, steps, h) && AllOk(h)
    ensures |h| <= cursor && h == Results(steps, |h|)
  {
    forall i | 0 <= i < |h| ensures i in steps && Ok(steps[i].result) == h[i] {
      assert FollowedAt(body, steps, h, i);
    }
  }

  function FirstThrown(h: seq<Outcome>): (f: nat)
    ensures f <= |h| && AllOk(h[..f]) && (f < |h| ==> h[f].Threw?) && forall i :: 0 <= i < f ==> h[i].Ok?
  {
    if h == [] then 0
    else if h[|h| - 1].Threw? then
      var f := FirstThrown(h[..|h| - 1]);
      assert h[..|h| - 1][..f] == h[..f];
      f
    else
      var f := FirstThrown(h[..|h| - 1]);
      assert h[..|h| - 1][..f] == h[..f];
      if f < |h| - 1 then f else |h|
  }

  /** What was thrown first was thrown by the call the log has come to. */
  lemma ThrownAt(body: Body, steps: Steps, cursor: nat, h: seq<Outcome>)
    requires CursorOk(steps, cursor) && Followed(body, steps, h) && FirstThrown(h) < |h|
    ensures var f := FirstThrown(h);
            && f <= cursor && h[..f] == Results(steps, f) && IsCall(body(h[..f]))
            && (f in steps ==> !Issues(body(h[..f]), steps[f].id))
  {
    var f := FirstThrown(h);
    var p := h[..f];
    forall i | 0 <= i < f ensures FollowedAt(body, steps, p, i) {
      assert FollowedAt(body, steps, h, i);
      assert p[..i] == h[..i];
    }
    AllOkIsLog(body, steps, cursor, p);
    assert FollowedAt(body, steps, h, f);
  }

  /** The settled part is answered from the log; whatever was thrown came after it. */
  lemma OnTrack(body: Body, steps: Steps, cursor: nat, h: seq<Outcome>)
    requires CursorOk(steps, cursor) && Followed(body, steps, h)
    ensures FirstThrown(h) < |h| ==> Reach(body, steps, cursor) <= FirstThrown(h) <= cursor
    ensures |h| <= Reach(body, steps, cursor) ==> AllOk(h) && h == Results(steps, |h|)
  {
    hide Reach, Results;
    if FirstThrown(h) < |h| {
      ThrownAt(body, steps, cursor, h);
    } else {
      assert h == h[..|h|];
      AllOkIsLog(body, steps, cursor, h);
    }
  }

  // ----- what an uninterrupted run would do -----

  datatype Uninterrupted = Finished(value: Value) | Stopped

  /** Run the body without interruption, answering its calls from `answers`. */
  ghost function Execute(body: Body, answers: seq<Outcome>, n: nat): Uninterrupted
    requires n <= |answers|
    decreases |answers| - n
  {
    match body(answers[..n])
    case Return(v) => if n == |answers| then Finished(v) else Stopped
    case Throw(_) => Stopped
    case _ => if n < |answers| then Execute(body, answers, n + 1) else Stopped
  }

  /** A driver returns what the body returns when it is run once over the outcomes the driver has seen. */
  lemma {:induction false} ExecuteSeen(body: Body, steps: Steps, h: seq<Outcome>, n: nat, v: Value)
    requires Followed(body, steps, h) && n <= |h| && body(h) == Return(v)
    ensures Execute(body, h, n) == Finished(v)
    decreases |h| - n
  {
    if n < |h| {
      assert FollowedAt(body, steps, h, n);
      ExecuteSeen(body, steps, h, n + 1, v);
    } else {
      assert h[..n] == h;
    }
  }

  /** A run over a settled log stops where the log does. */
  lemma {:induction false} ExecuteStops(body: Body, steps: Steps, cursor: nat, n: nat)
    requires Settled(body, steps, cursor) && n <= cursor && IsCall(body(Results(steps, cursor)))
    ensures Execute(body, Results(steps, cursor), n) == Stopped
    decreases cursor - n
  {
    var answers := Results(steps, cursor);
    assert answers[..n] == Results(steps, n);
    if n < cursor { ExecuteStops(body, steps, cursor, n + 1); }
  }

  /**
   * Over a log without holes, a returned value is the one of an uninterrupted run over the recorded answers exactly
   * when nothing was caught on the way.
   */
  lemma ResultIsUninterrupted(body: Body, steps: Steps, cursor: nat, h: seq<Outcome>, v: Value)
    requires CursorOk(steps, cursor) && LogOk(body, steps, cursor) && Followed(body, steps, h) && body(h) == Return(v)
    ensures Execute(body, Results(steps, cursor), 0) == Finished(v) <==> AllOk(h)
  {
    hide Results, Execute, Followed;
    var f := FirstThrown(h);
    OnTrack(body, steps, cursor, h);
    SettledReach(body, steps, cursor, cursor);
    if f < |h| {
      ThrownAt(body, steps, cursor, h);
      ExecuteStops(body, steps, cursor, 0);
    } else {
      assert h == h[..f];
      AllOkIsLog(body, steps, cursor, h);
      ExecuteSeen(body, steps, h, 0, v);
    }
  }

  // ----- one call -----

  /** How a call is treated: answered from the log, refused, or made. */
  datatype Replay = Replayed(value: Value) | Refused | Fresh

  function Lookup(steps: Steps, cursor: nat, index: nat, a: Action): Replay {
    if index >= cursor then Fresh
    else if index in steps && Issues(a, steps[index].id) then Replayed(steps[index].result)
    else if a.DoStep? then Refused
    else Fresh
  }

  /** Until something is thrown, a call is answered from the log exactly within its settled part. */
  lemma AnsweredIff(body: Body, steps: Steps, cursor: nat, h: seq<Outcome>)
    requires CursorOk(steps, cursor) && Followed(body, steps, h) && AllOk(h)
    ensures Lookup(steps, cursor, |h|, body(h)).Replayed? <==> |h| < Reach(body, steps, cursor)
    ensures |h| <= Reach(body, steps, cursor)
  {
    hide Reach, Results;
    AllOkIsLog(body, steps, cursor, h);
    forall i | 0 <= i < |h| ensures DoneBelow(steps, i) && Issues(body(Results(steps, i)), steps[i].id) {
      assert FollowedAt(body, steps, h, i);
      assert h[..i] == Results(steps, i);
    }
    SettledReach(body, steps, cursor, |h|);
  }

  /** A call that is made lies outside the settled part, and has no entry in a log without holes. */
  lemma MadeBeyond(body: Body, steps: Steps, cursor: nat, h: seq<Outcome>)
    requires CursorOk(steps, cursor) && Followed(body, steps, h) && IsCall(body(h))
    requires !Lookup(steps, cursor, |h|, body(h)).Replayed?
    ensures Reach(body, steps, cursor) <= |h|
    ensures AllOk(h) && |h| in steps ==> !Issues(body(h), steps[|h|].id)
    ensures LogOk(body, steps, cursor) ==> |h| !in steps && (AllOk(h) <==> |h| == cursor)
  {
    hide Reach, Results, Followed;
    OnTrack(body, steps, cursor, h);
    if AllOk(h) {
      AnsweredIff(body, steps, cursor, h);
      AllOkIsLog(body, steps, cursor, h);
    }
    if LogOk(body, steps, cursor) {
      SettledReach(body, steps, cursor, cursor);
      assert FirstThrown(h) == |h| ==> h == h[..|h|];
    }
  }

  /** The outcome of a call becomes part of what the driver has seen. */
  lemma AnsweredStep(body: Body, steps: Steps, cursor: nat, h: seq<Outcome>)
    requires CursorOk(steps, cursor) && Followed(body, steps, h) && Lookup(steps, cursor, |h|, body(h)).Replayed?
    ensures Followed(body, steps, h + [Ok(Lookup(steps, cursor, |h|, body(h)).value)])
  {
    var h' := h + [Ok(Lookup(steps, cursor, |h|, body(h)).value)];
    assert h'[..|h|] == h;
    FollowedMore(body, steps, steps, h, h'[|h|]);
  }

  lemma ThrownStep(body: Body, steps: Steps, cursor: nat, h: seq<Outcome>, e: Error)
    requires CursorOk(steps, cursor) && Followed(body, steps, h) && IsCall(body(h))
    requires !Lookup(steps, cursor, |h|, body(h)).Replayed? && (body(h).Sleep? ==> e == Parked)
    ensures Followed(body, steps, h + [Threw(e)])
  {
    hide Reach, Results, Followed;
    MadeBeyond(body, steps, cursor, h);
    var h' := h + [Threw(e)];
    assert h'[..|h|] == h;
    FollowedMore(body, steps, steps, h, Threw(e));
  }

  /**
   * Recording a call that was made. The settled part stays; a log without holes stays one exactly when nothing was
   * caught before the call; and the cursor never goes back.
   */
  lemma RecordedStep(body: Body, steps: Steps, cursor: nat, h: seq<Outcome>, r: StepRecord, cursor': nat)
    requires CursorOk(steps, cursor) && Followed(body, steps, h) && Issues(body(h), r.id)
    requires !Lookup(steps, cursor, |h|, body(h)).Replayed?
    requires CursorOk(steps[|h| := r], cursor') && cursor <= cursor'
    ensures var steps' := steps[|h| := r];
            && Followed(body, steps', h + [Ok(r.result)])
            && Reach(body, steps, cursor) <= |h| && Reach(body, steps, cursor) <= Reach(body, steps', cursor')
            && (LogOk(body, steps, cursor) ==> |h| !in steps && (LogOk(body, steps', cursor') <==> AllOk(h)))
            && (LogOk(body, steps, cursor) && AllOk(h) ==> cursor == |h| && cursor' == cursor + 1)
            && (LogOk(body, steps, cursor) && !AllOk(h) ==> cursor' == cursor < |h|)
  {
    hide Reach, Results, Followed, Lookup;
    var steps' := steps[|h| := r];
    var k := Reach(body, steps, cursor);
    MadeBeyond(body, steps, cursor, h);
    StaysSettled(body, steps, steps', k);
    SettledReach(body, steps', cursor', k);
    assert (h + [Ok(r.result)])[..|h|] == h;
    FollowedMore(body, steps, steps', h, Ok(r.result));
    if LogOk(body, steps, cursor) {
      RecordedOverDense(body, steps, cursor, h, r, cursor');
    }
  }

  lemma RecordedOverDense(body: Body, steps: Steps, cursor: nat, h: seq<Outcome>, r: StepRecord, cursor': nat)
    requires CursorOk(steps, cursor) && Followed(body, steps, h) && Issues(body(h), r.id)
    requires LogOk(body, steps, cursor) && cursor <= |h| && (AllOk(h) <==> |h| == cursor)
    requires CursorOk(steps[|h| := r], cursor') && cursor <= cursor'
    ensures LogOk(body, steps[|h| := r], cursor') <==> AllOk(h)
    ensures cursor' == if AllOk(h) then cursor + 1 else cursor
  {
    hide Results, Followed, Settled;
    var steps' := steps[|h| := r];
    if AllOk(h) {
      AllOkIsLog(body, steps, cursor, h);
      LogStep(body, steps, cursor, r.id, r.result);
      CursorUnique(steps', cursor', cursor + 1);
    } else {
      CursorUnique(steps', cursor', cursor);
      assert |h| in steps';
    }
  }
}
