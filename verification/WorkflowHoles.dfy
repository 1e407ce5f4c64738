/**
 * Logs with holes. A body that catches a failed call and goes on leaves an entry beyond the cursor. Such an entry
 * runs again and is rewritten, or is refused or rewritten after the hole has been filled.
 */
module WorkflowHoles {
  import opened Basics
  import opened WorkflowLog
  import opened WorkflowReplay
  import opened WorkflowRun
  import opened WorkflowRuns

  /** A call that the log answers. */
  method AnswerOne(e: Engine)
    requires e.Valid() && e.Calling()
    requires Lookup(e.stored.value.steps, e.stored.value.cursor, |e.driver.value.history|,
                    e.body(e.driver.value.history)).Replayed?
    modifies e`stored, e`driver, e`executed, e`due, e`strayed
    ensures e.Valid() && e.Calling() && e.stored == old(e.stored) && e.executed == old(e.executed)
    ensures var s, d := e.stored.value, old(e.driver.value);
            e.Answered(d, Ok(s.steps[|d.history|].result))
    ensures AllOk(old(e.driver.value.history)) ==> e.strayed == old(e.strayed)
  {
    hide Engine.Valid, Extends, Results, Reach, FirstSignal, Followed, Execute, LogOk, CursorOk;
    match e.body(e.driver.value.history)
    case DoStep(_) => e.Step(Ok(0));
    case Sleep(_) => e.SleepCall(0, 0);
    case WaitFor(_) => e.WaitCall(false);
  }

  /** A new driver answers the settled part of the log from the store, and nothing more. */
  method ReplaySettled(e: Engine)
    requires e.Valid() && e.stored.Some? && e.stored.value.status != Done
    modifies e`stored, e`driver, e`executed, e`due, e`strayed, e`kept
    ensures e.Valid() && e.Calling() && e.stored == old(e.stored) && e.executed == old(e.executed)
    ensures e.strayed == old(e.strayed) && DoneBelow(e.stored.value.steps, ReachOf(e))
    ensures e.driver.value.history == Results(e.stored.value.steps, ReachOf(e))
    ensures var s, h := e.stored.value, e.driver.value.history;
            !Lookup(s.steps, s.cursor, |h|, e.body(h)).Replayed?
  {
    hide Engine.Valid, Extends, Results, Reach, FirstSignal, Followed, Execute, LogOk, CursorOk, Lookup;
    e.Crash();
    var finished := e.Resume();
    e.Facts();
    var s := e.stored.value;
    AnsweredIff(e.body, s.steps, s.cursor, []);
    while Lookup(s.steps, s.cursor, |e.driver.value.history|, e.body(e.driver.value.history)).Replayed?
      invariant e.Valid() && e.Calling() && e.stored == old(e.stored) == Some(s) && e.executed == old(e.executed)
      invariant e.strayed == old(e.strayed) && AllOk(e.driver.value.history) && CursorOk(s.steps, s.cursor)
      invariant Followed(e.body, s.steps, e.driver.value.history)
      decreases s.cursor - |e.driver.value.history|
    {
      AnsweredIff(e.body, s.steps, s.cursor, e.driver.value.history);
      AnswerOne(e);
      e.Facts();
    }
    AnsweredIff(e.body, s.steps, s.cursor, e.driver.value.history);
    AllOkIsLog(e.body, s.steps, s.cursor, e.driver.value.history);
  }

  // ----- entries the body does not stand by -----

  /** The first entry beyond the settled part, below the cursor: a step there is refused, and not run. */
  method RefusesUnsettled(e: Engine, outcome: Outcome)
    requires e.Valid() && e.stored.Some? && e.stored.value.status != Done && ReachOf(e) < e.stored.value.cursor
    requires DoneBelow(e.stored.value.steps, ReachOf(e))
    requires e.body(Results(e.stored.value.steps, ReachOf(e))).DoStep?
    modifies e
    ensures e.Valid() && e.Calling() && e.stored == old(e.stored) && e.executed == old(e.executed)
    ensures e.driver.value.history == old(Results(e.stored.value.steps, ReachOf(e))) + [Threw(Mismatch)]
  {
    hide Engine.Valid, Extends, Results, Reach, FirstSignal, Followed, Execute, LogOk, CursorOk;
    ReplaySettled(e);
    e.Step(outcome);
  }

  /** And a sleep there is made, and rewrites the entry under its own name. */
  method RewritesUnsettled(e: Engine)
    requires e.Valid() && e.stored.Some? && e.stored.value.status != Done && ReachOf(e) < e.stored.value.cursor
    requires DoneBelow(e.stored.value.steps, ReachOf(e))
    requires e.body(Results(e.stored.value.steps, ReachOf(e))).Sleep?
    modifies e
    ensures e.Valid() && e.stored.Some?
    ensures var k := old(ReachOf(e)); var steps := old(e.stored.value.steps);
            k in steps && k in e.stored.value.steps && e.stored.value.steps[k].id != steps[k].id
  {
    hide Engine.Valid, Extends, Results, Reach, FirstSignal, Followed, Execute, LogOk;
    ReplaySettled(e);
    var now := DueAt(e.stored.value.waiting, |e.driver.value.history|, 0);
    e.SleepCall(now, 0);
    e.Facts();
    e.Checkpoint();
  }

  // ----- entries beyond the cursor -----

  /** A call that comes out the same when it is made again: a step, or a sleep. */
  predicate Repeatable(a: Action, o: Outcome) { a.DoStep? || (a.Sleep? && (o == Ok(0) || o == Threw(Parked))) }

  /** The last outcome is a step's beyond a hole that follows the settled part, and the calls since can be repeated. */
  ghost predicate BeyondHole(body: Body, s: Snapshot, h: seq<Outcome>) {
    && DoneBelow(s.steps, s.cursor) && Reach(body, s.steps, s.cursor) == s.cursor < |h| - 1
    && h[|h| - 1].Ok? && body(h[..|h| - 1]).DoStep?
    && forall i :: s.cursor <= i < |h| - 1 ==> Repeatable(body(h[..i]), h[i])
  }

  /** One entry has a new result. */
  ghost predicate Rewritten(before: Steps, after: Steps, j: nat, v: Value) {
    j in before && after == before[j := StepRecord(before[j].id, v)]
  }

  /**
   * Whatever the body, an entry recorded beyond the cursor by a step can be replaced by any value: the process dies,
   * and the calls since the hole come out as they did before.
   */
  method RunsAgain(e: Engine, v: Value)
    requires e.Valid() && e.Calling() && BeyondHole(e.body, e.stored.value, e.driver.value.history)
    modifies e
    ensures e.Valid() && e.Calling()
    ensures Rewritten(old(e.stored.value.steps), e.stored.value.steps, |old(e.driver.value.history)| - 1, v)
    ensures old(e.executed) < e.executed && e.executed[|e.executed| - 1] == (|old(e.driver.value.history)| - 1, v)
  {
    hide Engine.Valid, Extends, Results, Reach, FirstSignal, Followed, Execute, LogOk, CursorOk;
    e.Facts();
    var h, s := e.driver.value.history, e.stored.value;
    var c, j := s.cursor, |h| - 1;
    SettledStart(e.body, s.steps, c, h);
    ReplaySettled(e);
    for i := c to j
      invariant e.Valid() && e.Calling() && e.driver.value.history == h[..i]
      invariant e.stored.value.steps == s.steps && e.stored.value.cursor == c && old(e.executed) <= e.executed
    {
      Again(e, h, i);
    }
    SameRecord(e.body, s.steps, h, j);
    e.Step(Ok(v));
    e.Checkpoint();
  }

  /** The call at the hole threw, and everything before it is in the settled part. */
  lemma SettledStart(body: Body, steps: Steps, cursor: nat, h: seq<Outcome>)
    requires CursorOk(steps, cursor) && Followed(body, steps, h) && Reach(body, steps, cursor) == cursor < |h|
    ensures h[..cursor] == Results(steps, cursor)
  {
    hide Reach, Results;
    assert h[cursor].Threw? by { assert FollowedAt(body, steps, h, cursor); }
    OnTrack(body, steps, cursor, h);
    ThrownAt(body, steps, cursor, h);
  }

  /** Making a recorded call again with the same outcome records the same. */
  lemma SameRecord(body: Body, steps: Steps, h: seq<Outcome>, i: nat)
    requires Followed(body, steps, h) && i < |h| && h[i].Ok?
    ensures i in steps && steps[i].result == h[i].value && Issues(body(h[..i]), steps[i].id)
  {
    assert FollowedAt(body, steps, h, i);
  }

  /** One call made again. */
  method Again(e: Engine, h: seq<Outcome>, i: nat)
    requires e.Valid() && e.Calling() && e.stored.value.cursor <= i < |h| && e.driver.value.history == h[..i]
    requires Followed(e.body, e.stored.value.steps, h) && Repeatable(e.body(h[..i]), h[i])
    modifies e
    ensures e.Valid() && e.Calling() && e.driver.value.history == h[..i + 1]
    ensures e.stored.value.steps == old(e.stored.value.steps) && e.stored.value.cursor == old(e.stored.value.cursor)
    ensures old(e.executed) <= e.executed
  {
    hide Engine.Valid, Extends, Results, Reach, FirstSignal, Followed, Execute, LogOk;
    e.Facts();
    assert h[..i] + [h[i]] == h[..i + 1];
    if h[i].Ok? { SameRecord(e.body, e.stored.value.steps, h, i); }
    if e.body(h[..i]).DoStep? {
      e.Step(h[i]);
    } else {
      var dueAt := DueAt(e.stored.value.waiting, i, 0);
      e.SleepCall(if h[i].Ok? then dueAt else dueAt - 1, 0);
    }
    if h[i].Ok? {
      ghost var steps := e.stored.value.steps;
      e.Checkpoint();
      assert e.stored.value.steps == steps;
      CursorUnique(steps, e.stored.value.cursor, old(e.stored.value.cursor));
    }
  }

  // ----- such runs -----

  /** Takes step "a"; when that fails, step "b" instead; and otherwise goes on with `other`. */
  function Fallback(other: Action): Body {
    (h: seq<Outcome>) =>
      if |h| == 0 then DoStep("a") else if |h| >= 2 then Return(0) else if h[0].Ok? then other else DoStep("b")
  }

  /** "a" fails, and "b" is recorded beyond the cursor. */
  method HoleLeft(other: Action, v: Value) returns (e: Engine)
    ensures fresh(e) && e.body == Fallback(other) && e.Valid() && e.Calling()
    ensures e.stored.value.cursor == 0 && e.stored.value.steps == map[1 := StepRecord("b", v)]
    ensures e.driver.value.history == [Threw(Thrown(0)), Ok(v)] && e.executed == [(1, v)] && e.strayed
  {
    hide Engine.Valid, Extends, Results, Reach, FirstSignal, Followed, Execute, LogOk;
    e := new Engine(Fallback(other));
    e.Start();
    e.Step(Threw(Thrown(0)));
    e.Step(Ok(v));
    e.Checkpoint();
    assert 0 !in e.stored.value.steps;
  }

  /** On a resume "a" fails again, and "b" runs a second time, over its record. */
  method StepRunsAgain(v: Value, w: Value) returns (e: Engine)
    ensures e.Valid() && e.stored.Some? && e.stored.value.steps == map[1 := StepRecord("b", w)]
    ensures |e.executed| >= 2 && e.executed[0] == (1, v) && e.executed[|e.executed| - 1] == (1, w)
  {
    hide Engine.Valid, Extends, Results, Reach, FirstSignal, Followed, Execute, LogOk;
    e := HoleLeft(DoStep("c"), v);
    e.Facts();
    RunsAgain(e, w);
  }

  /** On a resume "a" succeeds instead, and the cursor passes the record of "b". */
  method HoleFilled(other: Action, u: Value, v: Value) returns (e: Engine)
    ensures fresh(e) && e.body == Fallback(other) && e.Valid() && e.Calling() && e.stored.value.cursor == 2
    ensures e.stored.value.steps == map[0 := StepRecord("a", u), 1 := StepRecord("b", v)]
    ensures e.driver.value.history == [Ok(u)]
  {
    hide Engine.Valid, Extends, Results, Reach, FirstSignal, Followed, Execute, LogOk;
    e := HoleLeft(other, v);
    e.Facts();
    e.Crash();
    var finished := e.Resume();
    e.Step(Ok(u));
    e.Checkpoint();
    CursorUnique(e.stored.value.steps, e.stored.value.cursor, 2);
  }

  /** The body's next step now meets the mismatch error. */
  method StepMismatch(u: Value, v: Value, outcome: Outcome) returns (e: Engine)
    ensures e.Valid() && e.Calling() && e.driver.value.history == [Ok(u), Threw(Mismatch)]
    ensures e.stored.value.cursor == 2 && e.stored.value.steps[1] == StepRecord("b", v)
  {
    hide Engine.Valid, Extends, Results, Reach, FirstSignal, Followed, Execute, LogOk, CursorOk;
    e := HoleFilled(DoStep("c"), u, v);
    e.Step(outcome);
  }

  /** Or a sleep rewrites an entry below the cursor. */
  method SleepRewritesBelowCursor(u: Value, v: Value) returns (e: Engine)
    ensures e.Valid() && e.stored.Some? && e.stored.value.cursor == 2
    ensures e.stored.value.steps == map[0 := StepRecord("a", u), 1 := StepRecord("c", 0)]
  {
    hide Engine.Valid, Extends, Results, Reach, FirstSignal, Followed, Execute, LogOk;
    e := HoleFilled(Sleep("c"), u, v);
    e.SleepCall(DueAt(e.stored.value.waiting, 1, 0), 0);
    e.Checkpoint();
    CursorUnique(e.stored.value.steps, e.stored.value.cursor, 2);
  }
}
