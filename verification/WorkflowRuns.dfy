/** Whole runs of a durable workflow: what every run keeps, and the runs that lose a signal or rewrite a step. */
module WorkflowRuns {
  import opened Basics
  import opened WorkflowLog
  import opened WorkflowReplay
  import opened WorkflowRun

  /** What the surroundings of a driver decide: how its next call turns out. */
  datatype Turn = Turn(outcome: Outcome, now: Time, newDue: Time, timedOut: bool)

  /** What a driver's next move wrote: nothing, a record on top of what is stored, or its own snapshot over it. */
  datatype Save = Nothing | Record | Overwrite

  /** What has run since is beyond the first `k` calls. */
  ghost predicate RanBeyond(before: seq<(nat, Value)>, after: seq<(nat, Value)>, k: nat) {
    before <= after && forall i :: |before| <= i < |after| ==> k <= after[i].0
  }

  /** The settled part of the stored log. */
  ghost function ReachOf(e: Engine): nat
    requires e.Valid() && e.stored.Some?
    reads e
  {
    e.Facts();
    Reach(e.body, e.stored.value.steps, e.stored.value.cursor)
  }

  /** Every signal of `after` is one of `before`. */
  ghost predicate Among(after: seq<Signal>, before: seq<Signal>) {
    forall x :: x in after ==> x in before
  }

  lemma AmongItself(s: seq<Signal>)
    ensures Among(s, s)
    ensures forall i :: 0 <= i < |s| ==> Among(TakeOut(s, i), s)
  {
  }

  /** The driver's next move, whatever the body wants. */
  method Act(e: Engine, turn: Turn) returns (save: Save)
    requires e.Valid() && e.stored.Some? && e.driver.Some?
    modifies e
    ensures e.Valid() && e.stored.Some? && Extends(e.body, old(e.stored), e.stored, old(e.kept))
    ensures old(e.kept) <= e.kept && (old(e.strayed) ==> e.strayed)
    ensures RanBeyond(old(e.executed), e.executed, old(ReachOf(e)))
    ensures match save
            case Nothing =>
              && e.stored == old(e.stored) && e.driver.Some? && e.driver.value.base == old(e.driver.value.base)
              && Among(e.driver.value.state.signals, old(e.driver.value.state.signals))
            case Record =>
              e.stored.value.signals == old(e.stored.value.signals) && e.kept == |e.stored.value.signals|
            case Overwrite => e.stored.value.signals == old(e.driver.value.base.signals)
  {
    hide Engine.Valid, Extends, Results, Reach, FirstSignal, Followed, Execute, LogOk, Lookup, CursorOk, Among;
    e.Facts();
    if e.driver.value.pending.Completing? {
      e.Checkpoint();
      return Record;
    }
    match e.body(e.driver.value.history)
    case DoStep(_) =>
      AmongItself(e.driver.value.state.signals);
      e.Step(turn.outcome);
      return Nothing;
    case Sleep(_) =>
      save := ActSleep(e, turn);
    case WaitFor(_) =>
      save := ActWait(e, turn);
    case Return(_) =>
      var result := e.Finish();
      return Overwrite;
    case Throw(error) =>
      if error == Parked {
        e.Park();
      } else {
        e.Fail();
      }
      return Overwrite;
  }

  method ActSleep(e: Engine, turn: Turn) returns (save: Save)
    requires e.Valid() && e.Calling() && e.body(e.driver.value.history).Sleep?
    modifies e
    ensures e.Valid() && e.stored.Some? && Extends(e.body, old(e.stored), e.stored, old(e.kept)) && e.driver.Some?
    ensures e.kept == old(e.kept) && (old(e.strayed) ==> e.strayed) && e.executed == old(e.executed)
    ensures save == Nothing || (save == Overwrite && e.stored.value.signals == old(e.driver.value.base.signals))
    ensures save == Nothing ==>
          && e.stored == old(e.stored) && e.driver.value.base == old(e.driver.value.base)
          && Among(e.driver.value.state.signals, old(e.driver.value.state.signals))
  {
    hide Engine.Valid, Extends, Results, Reach, FirstSignal, Followed, Execute, LogOk, Lookup, CursorOk, Among;
    e.Facts();
    var d, s := e.driver.value, e.stored.value;
    AmongItself(d.state.signals);
    e.SleepCall(turn.now, turn.newDue);
    save := if e.driver.value.pending.Free? && e.driver.value.history[|d.history|].Threw? then Overwrite else Nothing;
  }

  method ActWait(e: Engine, turn: Turn) returns (save: Save)
    requires e.Valid() && e.Calling() && e.body(e.driver.value.history).WaitFor?
    modifies e
    ensures e.Valid() && e.stored.Some? && Extends(e.body, old(e.stored), e.stored, old(e.kept)) && e.driver.Some?
    ensures e.kept == old(e.kept) && (old(e.strayed) ==> e.strayed) && e.executed == old(e.executed)
    ensures save == Nothing || (save == Overwrite && e.stored.value.signals == old(e.driver.value.base.signals))
    ensures save == Nothing ==>
          && e.stored == old(e.stored) && e.driver.value.base == old(e.driver.value.base)
          && Among(e.driver.value.state.signals, old(e.driver.value.state.signals))
  {
    hide Engine.Valid, Extends, Results, Reach, FirstSignal, Followed, Execute, LogOk, Lookup, CursorOk, Among;
    e.Facts();
    var d := e.driver.value;
    AmongItself(d.state.signals);
    e.WaitCall(turn.timedOut);
    save := if e.driver.value.pending.Free? && e.driver.value.history[|d.history|] == Threw(Parked) then Overwrite
            else Nothing;
  }

  // ----- any run -----

  datatype Event = Die | Restart | Signalled(name: string, payload: Value) | Go(turn: Turn)

  lemma ExtendsOn(body: Body, a: Option<Snapshot>, b: Option<Snapshot>, c: Option<Snapshot>, kept: nat, kept': nat)
    requires Extends(body, a, b, kept) && Extends(body, b, c, kept')
    requires a.Some? && b.Some? && kept <= kept' <= |b.value.signals| && kept <= |a.value.signals|
    ensures Extends(body, a, c, kept)
  {
    hide Reach;
    assert a.value.signals[..kept] == b.value.signals[..kept'][..kept] == c.value.signals[..kept'][..kept];
  }

  /** One event; what cannot happen now is skipped. */
  method Happen(e: Engine, event: Event)
    requires e.Valid() && e.stored.Some?
    modifies e
    ensures e.Valid() && e.stored.Some? && Extends(e.body, old(e.stored), e.stored, old(e.kept))
    ensures old(e.kept) <= e.kept && (old(e.strayed) ==> e.strayed)
    ensures RanBeyond(old(e.executed), e.executed, old(ReachOf(e)))
  {
    hide Engine.Valid, Extends, Results, Reach, FirstSignal, Followed, Execute, LogOk, CursorOk;
    e.Facts();
    match event
    case Die =>
      e.Crash();
    case Restart =>
      if e.driver.None? { var finished := e.Resume(); }
    case Signalled(name, payload) =>
      var accepted := e.Deliver(name, payload);
    case Go(turn) =>
      if e.driver.Some? { var save := Act(e, turn); }
  }

  /**
   * Over any run of any body: the settled entries of the log never change and never run again, and the kept signals
   * stay. All entries of a log without holes are settled.
   */
  method RunOn(e: Engine, events: seq<Event>)
    requires e.Valid() && e.stored.Some?
    modifies e
    ensures e.Valid() && e.stored.Some? && Extends(e.body, old(e.stored), e.stored, old(e.kept))
    ensures RanBeyond(old(e.executed), e.executed, old(ReachOf(e)))
    ensures var s, t := old(e.stored.value), e.stored.value;
            LogOk(e.body, s.steps, s.cursor) ==>
              && (forall i :: i in s.steps ==> i in t.steps && t.steps[i] == s.steps[i])
              && (forall n :: |old(e.executed)| <= n < |e.executed| ==> e.executed[n].0 !in s.steps)
    ensures !e.strayed ==> LogOk(e.body, e.stored.value.steps, e.stored.value.cursor)
    ensures old(e.strayed) ==> e.strayed
  {
    hide Engine.Valid, Extends, Results, Reach, FirstSignal, Followed, Execute, LogOk, CursorOk, DoneBelow;
    e.Facts();
    for i := 0 to |events|
      invariant e.Valid() && e.stored.Some? && Extends(e.body, old(e.stored), e.stored, old(e.kept))
      invariant old(e.kept) <= e.kept && (old(e.strayed) ==> e.strayed)
      invariant RanBeyond(old(e.executed), e.executed, old(ReachOf(e)))
      invariant old(ReachOf(e)) <= ReachOf(e)
    {
      e.Facts();
      ghost var b, kept := e.stored, e.kept;
      Happen(e, events[i]);
      e.Facts();
      Grows(e.body, b, e.stored, kept);
      ExtendsOn(e.body, old(e.stored), b, e.stored, old(e.kept), kept);
    }
    if !e.strayed { e.NoHoles(); }
    ghost var s := old(e.stored.value);
    if LogOk(e.body, s.steps, s.cursor) { AllSettled(e.body, s, e.stored.value, old(e.kept)); }
  }

  lemma Grows(body: Body, a: Option<Snapshot>, b: Option<Snapshot>, kept: nat)
    requires Extends(body, a, b, kept) && a.Some?
    ensures b.Some? && DoneBelow(a.value.steps, a.value.cursor) && DoneBelow(b.value.steps, b.value.cursor)
    ensures Reach(body, a.value.steps, a.value.cursor) <= Reach(body, b.value.steps, b.value.cursor)
  {
    hide Reach;
  }

  lemma AllSettled(body: Body, s: Snapshot, t: Snapshot, kept: nat)
    requires LogOk(body, s.steps, s.cursor) && Extends(body, Some(s), Some(t), kept)
    ensures forall i :: i in s.steps ==> i in t.steps && t.steps[i] == s.steps[i]
    ensures DoneBelow(s.steps, s.cursor)
    ensures forall i :: i in s.steps <==> 0 <= i < Reach(body, s.steps, s.cursor)
  {
    hide Reach, Results;
    SettledReach(body, s.steps, s.cursor, s.cursor);
  }

  // ----- signals that are lost, and signals that are never used up -----

  /**
   * A signal accepted while a driver is active, over everything that driver may still do until it first saves. It
   * stays stored as long as nothing is saved. A save that records a call keeps it for good, and any other drops it.
   */
  method DriveOn(e: Engine, name: string, turns: seq<Turn>) returns (save: Save)
    requires e.Valid() && e.Unseen(name)
    modifies e
    ensures e.Valid() && e.stored.Some?
    ensures match save
            case Nothing => e.stored == old(e.stored) && e.Unseen(name)
            case Record =>
              && e.stored.value.signals == old(e.stored.value.signals) && e.kept == |e.stored.value.signals|
              && FirstSignal(e.stored.value.signals, name) >= 0
            case Overwrite => FirstSignal(e.stored.value.signals, name) == -1
  {
    hide Engine.Valid, Extends, Results, Reach, FirstSignal, Followed, Execute, LogOk, CursorOk, Among;
    save := Nothing;
    for i := 0 to |turns|
      invariant save == Nothing && e.Valid() && e.stored == old(e.stored) && e.Unseen(name)
    {
      ghost var before := e.driver.value.state.signals;
      save := Act(e, turns[i]);
      if save != Nothing { return; }
      StillNone(before, e.driver.value.state.signals, name);
    }
  }

  lemma StillNone(before: seq<Signal>, after: seq<Signal>, name: string)
    requires FirstSignal(before, name) == -1 && Among(after, before)
    ensures FirstSignal(after, name) == -1
  {
    NoSignal(before, name);
    NoSignal(after, name);
  }

  /** Waits for a signal twice, and lets everything thrown pass. */
  function WaitTwice(h: seq<Outcome>): Action {
    if h != [] && h[|h| - 1].Threw? then Throw(h[|h| - 1].error)
    else if |h| < 2 then WaitFor("go")
    else if h[1].Ok? then Return(h[1].value)
    else Return(0)
  }

  /** A wait for a stored signal takes the first of that name, and leaves it in the store. */
  method AnswerWait(e: Engine, name: string, payload: Value)
    requires e.Valid() && e.Calling() && e.body(e.driver.value.history) == WaitFor(name)
    requires |e.driver.value.history| == e.stored.value.cursor
    requires e.stored.value.signals == [Signal(name, payload)] == e.driver.value.state.signals
    modifies e
    ensures e.Valid() && e.Calling() && e.driver.value.history == old(e.driver.value.history) + [Ok(payload)]
    ensures e.stored.value.signals == [Signal(name, payload)] == e.driver.value.state.signals
    ensures e.driver.value.base == e.stored.value
    ensures e.strayed == (old(e.strayed) || !AllOk(old(e.driver.value.history)))
    ensures !e.strayed ==> |e.driver.value.history| == e.stored.value.cursor
  {
    hide Engine.Valid, Extends, Results, Reach, Followed, Execute, LogOk;
    if !e.strayed { e.NoHoles(); }
    e.WaitCall(false);
    e.Checkpoint();
    if !e.strayed {
      e.NoHoles();
      ghost var s, t := old(e.stored.value), e.stored.value;
      OneMore(e.body, s.steps, s.cursor, t.steps, t.cursor);
    }
  }

  lemma OneMore(body: Body, steps: Steps, cursor: nat, steps': Steps, cursor': nat)
    requires LogOk(body, steps, cursor) && LogOk(body, steps', cursor') && steps'.Keys == steps.Keys + {cursor}
    ensures cursor' == cursor + 1
  {
    assert cursor in steps' && cursor + 1 !in steps' && cursor' !in steps';
  }

  /** A run parks, one signal is delivered, and a new driver takes over. */
  method ResumedAfterDelivery(payload: Value) returns (e: Engine)
    ensures fresh(e) && e.body == WaitTwice && e.Valid() && e.Calling() && !e.strayed
    ensures e.driver.value.history == [] && e.stored.value.cursor == 0 && e.stored.value.steps == map[]
    ensures e.stored.value.signals == [Signal("go", payload)] == e.driver.value.state.signals
  {
    hide Engine.Valid, Extends, Execute, Results, Reach, Followed, LogOk;
    e := new Engine(WaitTwice);
    e.Start();
    e.WaitCall(false);
    e.Park();
    var accepted := e.Deliver("go", payload);
    var finished := e.Resume();
  }

  /**
   * The documentation says queued signals are consumed by a matching wait. They are not: one delivery
   * answers both waits, because completing a step starts again from the stored signals.
   */
  method OneSignalAnswersTwoWaits(payload: Value) returns (e: Engine, result: Value)
    ensures e.Valid() && e.stored.Some? && e.stored.value.status == Done && result == payload
    ensures e.stored.value.signals == [Signal("go", payload)]
  {
    hide Engine.Valid, Execute, Results, Extends, Reach, Followed, LogOk, CursorOk, Lookup, FirstSignal;
    e := ResumedAfterDelivery(payload);
    AnswerWait(e, "go", payload);
    AnswerWait(e, "go", payload);
    result := e.Finish();
  }

  /** A signal accepted between the two saves of a parked run is overwritten by the second. */
  method SignalLostWhileParking(payload: Value) returns (e: Engine, accepted: bool)
    ensures e.Valid() && accepted && e.stored.Some? && e.stored.value.signals == []
    ensures e.stored.value.status == Waiting && e.driver == None
  {
    hide Engine.Valid, Extends, Execute, Results, Reach, Followed, LogOk;
    e := new Engine(WaitTwice);
    e.Start();
    e.WaitCall(false);
    accepted := e.Deliver("go", payload);
    e.Park();
  }

  /** One accepted after a resume is overwritten when the resumed run waits again. */
  method SignalLostAfterResume(payload: Value) returns (e: Engine, accepted: bool)
    ensures e.Valid() && accepted && e.stored.Some? && e.stored.value.signals == []
    ensures e.stored.value.status == Waiting && e.driver == None
  {
    hide Engine.Valid, Extends, Execute, Results, Reach, Followed, LogOk;
    e := new Engine(WaitTwice);
    e.Start();
    e.WaitCall(false);
    e.Park();
    var finished := e.Resume();
    accepted := e.Deliver("go", payload);
    e.WaitCall(false);
    e.Park();
  }
}
