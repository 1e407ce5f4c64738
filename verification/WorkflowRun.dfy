/**
 * Durable workflows: a deterministic body is driven over a persisted step log. The process may crash at any point; a
 * later driver replays the recorded steps and carries on. Signals may arrive at any time, and the body may catch
 * what its calls throw.
 */
module WorkflowRun {
  import opened Basics
  import opened WorkflowLog
  import opened WorkflowReplay

  datatype Status = Running | Waiting | Done | Failed

  datatype Wait = Timer(id: string, dueAt: Time, stepIndex: nat) | ForSignal(name: string, stepIndex: nat)

  datatype Signal = Signal(name: string, payload: Value)

  /** `WorkflowState`, the persisted snapshot. */
  datatype Snapshot = Snapshot(status: Status, cursor: nat, steps: Steps, signals: seq<Signal>,
                               waiting: Option<Wait>, result: Option<Value>)

  /** What the driver still has to write: a completed call. */
  datatype Pending = Free | Completing(index: nat, id: string, value: Value)

  /** An active driver: `base` is `#drive`'s local state, `state` the runtime's. */
  datatype Driver = Driver(base: Snapshot, state: Snapshot, callIndex: nat, history: seq<Outcome>, pending: Pending)

  /** The first signal of this name. */
  ghost predicate FirstNamed(signals: seq<Signal>, name: string, i: nat) {
    i < |signals| && signals[i].name == name && forall j :: 0 <= j < i ==> signals[j].name != name
  }

  function FirstSignal(signals: seq<Signal>, name: string): (i: int)
    ensures -1 <= i < |signals| && (i >= 0 ==> FirstNamed(signals, name, i))
  {
    if signals == [] then -1
    else if signals[0].name == name then 0
    else
      var r := FirstSignal(signals[1..], name);
      if r == -1 then -1 else r + 1
  }

  lemma {:induction false} NoSignal(signals: seq<Signal>, name: string)
    ensures FirstSignal(signals, name) == -1 <==> forall x :: x in signals ==> x.name != name
  {
    if signals != [] {
      NoSignal(signals[1..], name);
      assert signals == [signals[0]] + signals[1..];
    }
  }

  /** `splice(i, 1)`. */
  function TakeOut(signals: seq<Signal>, i: nat): seq<Signal>
    requires i < |signals|
  {
    signals[..i] + signals[i + 1..]
  }

  /** The due time a sleep uses: that of a timer stored for this very call, or a new one. */
  function DueAt(waiting: Option<Wait>, index: nat, newDue: Time): Time {
    if waiting.Some? && waiting.value.Timer? && waiting.value.stepIndex == index then waiting.value.dueAt else newDue
  }

  // ----- what one call does, in terms of the stored log -----

  /** The call of driver `d` has ended with this outcome, and nothing else has happened. */
  ghost predicate Ends(d: Driver, o: Outcome, e: Option<Driver>) {
    && e.Some? && e.value.base == d.base && e.value.state == d.state && e.value.pending == d.pending
    && e.value.callIndex == |d.history| + 1 && e.value.history == d.history + [o]
  }

  /** The call of driver `d` has a value, which is not recorded yet. */
  ghost predicate Makes(d: Driver, id: string, v: Value, e: Option<Driver>) {
    && e.Some? && e.value.base == d.base && e.value.state == d.state && e.value.history == d.history
    && e.value.callIndex == |d.history| + 1 && e.value.pending == Completing(|d.history|, id, v)
  }

  /** The log has an entry below the cursor for call number `index`, made under this name. */
  ghost predicate LoggedAs(s: Snapshot, index: nat, id: string) {
    index < s.cursor && index in s.steps && s.steps[index].id == id
  }

  /** Below the cursor a step is answered or refused by the name of the entry; from there on it is run. */
  ghost predicate Stepped(s: Snapshot, d: Driver, id: string, outcome: Outcome, e: Option<Driver>) {
    var index := |d.history|;
    if LoggedAs(s, index, id) then Ends(d, Ok(s.steps[index].result), e)
    else if index < s.cursor then Ends(d, Threw(Mismatch), e)
    else if outcome.Ok? then Makes(d, id, outcome.value, e)
    else Ends(d, outcome, e)
  }

  /** A sleep that is not in the log parks until the time that was stored for it, or else the new one. */
  ghost predicate Slept(s: Snapshot, d: Driver, id: string, now: Time, newDue: Time, t: Snapshot, e: Option<Driver>) {
    var index := |d.history|;
    var dueAt := match s.waiting
      case Some(Timer(_, stored, at)) => if at == index then stored else newDue
      case _ => newDue;
    if LoggedAs(s, index, id) then t == s && Ends(d, Ok(s.steps[index].result), e)
    else if now >= dueAt then t == s && Makes(d, id, 0, e)
    else
      && t == d.state.(status := Waiting, waiting := Some(Timer(id, dueAt, index)))
      && Ends(d.(state := t), Threw(Parked), e)
  }

  /** The call of driver `d` takes signal number `i`: its payload is the value, and the driver's copy is without it. */
  ghost predicate Takes(d: Driver, name: string, i: nat, e: Option<Driver>)
    requires i < |d.state.signals|
  {
    var signals := d.state.signals;
    Makes(d.(state := d.state.(signals := signals[..i] + signals[i + 1..])), name, signals[i].payload, e)
  }

  /** A wait that is not in the log takes the first signal of the name the driver knows, times out, or parks. */
  ghost predicate Waited(s: Snapshot, d: Driver, name: string, timedOut: bool, t: Snapshot, e: Option<Driver>) {
    var index, signals := |d.history|, d.state.signals;
    if LoggedAs(s, index, name) then t == s && Ends(d, Ok(s.steps[index].result), e)
    else if exists i: nat :: FirstNamed(signals, name, i) then
      t == s && exists i: nat :: FirstNamed(signals, name, i) && Takes(d, name, i, e)
    else if timedOut then t == s && Ends(d, Threw(TimedOut), e)
    else
      && t == d.state.(status := Waiting, waiting := Some(ForSignal(name, index)))
      && Ends(d.(state := t), Threw(Parked), e)
  }

  lemma OneIsFirst(signals: seq<Signal>, name: string)
    ensures var i := FirstSignal(signals, name);
            if i == -1 then forall k: nat :: !FirstNamed(signals, name, k)
            else FirstNamed(signals, name, i) && forall k: nat :: FirstNamed(signals, name, k) ==> k == i
  {
    hide FirstSignal;
    NoSignal(signals, name);
    assert forall k: nat :: FirstNamed(signals, name, k) ==> signals[k] in signals;
  }

  lemma StepMeans(s: Snapshot, d: Driver, a: Action, outcome: Outcome, e: Option<Driver>)
    requires a.DoStep? && DoneBelow(s.steps, s.cursor)
    requires match Lookup(s.steps, s.cursor, |d.history|, a)
             case Replayed(v) => e == Some(Seen(d, Ok(v)))
             case Refused => e == Some(Seen(d, Threw(Mismatch)))
             case Fresh => e == Some(if outcome.Ok? then Recording(d, a.id, outcome.value) else Seen(d, outcome))
    ensures Stepped(s, d, a.id, outcome, e)
    ensures Lookup(s.steps, s.cursor, |d.history|, a).Fresh? <==> |d.history| >= s.cursor
  {
  }

  lemma SleepMeans(s: Snapshot, d: Driver, a: Action, now: Time, newDue: Time, t: Snapshot, e: Option<Driver>)
    requires a.Sleep? && DoneBelow(s.steps, s.cursor)
    requires var dueAt := DueAt(s.waiting, |d.history|, newDue);
             match Lookup(s.steps, s.cursor, |d.history|, a)
             case Replayed(v) => t == s && e == Some(Seen(d, Ok(v)))
             case _ =>
               if now >= dueAt then t == s && e == Some(Recording(d, a.id, 0))
               else
                 && t == d.state.(status := Waiting, waiting := Some(Timer(a.id, dueAt, |d.history|)))
                 && e == Some(Seen(d.(state := t), Threw(Parked)))
    ensures Slept(s, d, a.id, now, newDue, t, e)
  {
  }

  lemma WaitMeans(s: Snapshot, d: Driver, a: Action, timedOut: bool, t: Snapshot, e: Option<Driver>)
    requires a.WaitFor? && DoneBelow(s.steps, s.cursor)
    requires var i := FirstSignal(d.state.signals, a.name);
             match Lookup(s.steps, s.cursor, |d.history|, a)
             case Replayed(v) => t == s && e == Some(Seen(d, Ok(v)))
             case _ =>
               if i >= 0 then
                 var d' := d.(state := d.state.(signals := TakeOut(d.state.signals, i)));
                 t == s && e == Some(Recording(d', a.name, d.state.signals[i].payload))
               else if timedOut then t == s && e == Some(Seen(d, Threw(TimedOut)))
               else
                 && t == d.state.(status := Waiting, waiting := Some(ForSignal(a.name, |d.history|)))
                 && e == Some(Seen(d.(state := t), Threw(Parked)))
    ensures Waited(s, d, a.name, timedOut, t, e)
  {
    hide FirstSignal, FirstNamed, Ends, Takes, Seen, Recording, TakeOut;
    OneIsFirst(d.state.signals, a.name);
    forall o ensures Ends(d, o, Some(Seen(d, o))) {
      SeenEnds(d, o);
    }
    var i := FirstSignal(d.state.signals, a.name);
    if i >= 0 {
      RecordingTakes(d, a.name, i);
    } else {
      SeenEnds(d.(state := t), Threw(Parked));
    }
  }

  lemma SeenEnds(d: Driver, o: Outcome)
    ensures Ends(d, o, Some(Seen(d, o)))
  {
  }

  lemma RecordingTakes(d: Driver, name: string, i: nat)
    requires i < |d.state.signals|
    ensures var d' := d.(state := d.state.(signals := TakeOut(d.state.signals, i)));
            Takes(d, name, i, Some(Recording(d', name, d.state.signals[i].payload)))
  {
  }

  // ----- what holds between any two moments of a run -----

  /** The cursor has not gone back, the settled entries are as they were, and so are the first `kept` signals. */
  ghost predicate Extends(body: Body, before: Option<Snapshot>, after: Option<Snapshot>, kept: nat) {
    before.Some? ==>
      && after.Some? && KeepsSettled(body, before.value, after.value)
      && (kept <= |before.value.signals| ==>
            kept <= |after.value.signals| && after.value.signals[..kept] == before.value.signals[..kept])
  }

  ghost predicate KeepsSettled(body: Body, s: Snapshot, t: Snapshot) {
    && DoneBelow(s.steps, s.cursor) && DoneBelow(t.steps, t.cursor) && s.cursor <= t.cursor
    && Reach(body, s.steps, s.cursor) <= Reach(body, t.steps, t.cursor)
    && forall i :: 0 <= i < Reach(body, s.steps, s.cursor) ==> t.steps[i] == s.steps[i]
  }

  // ----- what holds at any moment, whatever the body does -----

  /** A driver over the stored log. A call it is completing was not answered from there. */
  ghost predicate DriverOk(body: Body, s: Snapshot, d: Driver) {
    && s.status != Done && d.base.status != Done && d.state.status != Done
    && d.state.steps == s.steps && d.state.cursor == s.cursor
    && d.base.steps == s.steps && d.base.cursor == s.cursor
    && Followed(body, s.steps, d.history)
    && match d.pending
       case Free => d.callIndex == |d.history|
       case Completing(index, id, _) =>
         && index == |d.history| && d.callIndex == index + 1 && Issues(body(d.history), id)
         && Lookup(s.steps, s.cursor, index, body(d.history)).Fresh?
  }

  /** Signals: the first `kept` are in the store and in every snapshot the driver may save. */
  ghost predicate SignalsOk(s: Snapshot, d: Driver, kept: nat) {
    && d.base.signals <= s.signals && kept <= |d.base.signals|
    && (d.pending.Free? ==> d.state.signals == d.base.signals)
    && (forall x :: x in d.state.signals ==> x in d.base.signals)
  }

  /** A run that waits for a signal has none of that name. */
  ghost predicate WaitOk(s: Snapshot) {
    s.waiting.Some? && s.waiting.value.ForSignal? ==> FirstSignal(s.signals, s.waiting.value.name) == -1
  }

  /** The driver and the store agree on timers. */
  ghost predicate TimerSeen(s: Snapshot, d: Driver) {
    forall index, newDue :: DueAt(s.waiting, index, newDue) == DueAt(d.state.waiting, index, newDue)
  }

  ghost predicate Consistent(body: Body, s: Snapshot, driver: Option<Driver>, kept: nat) {
    && CursorOk(s.steps, s.cursor) && kept <= |s.signals| && WaitOk(s)
    && (driver.Some? ==>
          && DriverOk(body, s, driver.value) && SignalsOk(s, driver.value, kept)
          && WaitOk(driver.value.state) && TimerSeen(s, driver.value))
  }

  /** A reported result is that of one run of the body over the outcomes it was given. */
  ghost predicate DoneOk(body: Body, s: Snapshot, seen: seq<Outcome>) {
    s.status == Done ==>
      && s.result.Some? && Followed(body, s.steps, seen) && body(seen) == Return(s.result.value)
      && Execute(body, seen, 0) == Finished(s.result.value)
  }

  /** Every entry a step recorded was returned by a run of that step's function. */
  ghost predicate Earned(steps: Steps, origin: map<nat, Action>, executed: seq<(nat, Value)>) {
    forall i :: i in steps ==>
      && i in origin && Issues(origin[i], steps[i].id)
      && (origin[i].DoStep? ==> (i, steps[i].result) in executed)
  }

  /** And so was the one about to be recorded. */
  ghost predicate EarnedNext(body: Body, driver: Option<Driver>, executed: seq<(nat, Value)>) {
    driver.Some? && driver.value.pending.Completing? && body(driver.value.history).DoStep? ==>
      (driver.value.pending.index, driver.value.pending.value) in executed
  }

  // ----- what holds besides, as long as the body has let everything thrown pass -----

  /** Timers: the due time of the step the log has reached is fixed once it is stored. */
  ghost predicate TimersOk(s: Snapshot, due: map<nat, Time>) {
    && (forall i :: i in due ==> i <= s.cursor)
    && (s.cursor in due ==> s.waiting.Some? && s.waiting.value.Timer?)
    && (s.waiting.Some? && s.waiting.value.Timer? ==>
          s.waiting.value.stepIndex == s.cursor && s.cursor in due && due[s.cursor] == s.waiting.value.dueAt)
  }

  ghost predicate Strict(body: Body, s: Snapshot, driver: Option<Driver>, due: map<nat, Time>) {
    && LogOk(body, s.steps, s.cursor) && TimersOk(s, due)
    && (s.cursor in due ==> body(Results(s.steps, s.cursor)).Sleep?)
    && (driver.Some? ==> StrictDriver(driver.value, due))
  }

  /** At most the last outcome was thrown, and then no call has been made since. */
  ghost predicate StrictDriver(d: Driver, due: map<nat, Time>) {
    && TimersOk(d.state, due)
    && (if d.pending.Completing? then AllOk(d.history) else d.history == [] || AllOk(d.history[..|d.history| - 1]))
  }

  class Engine {
    const body: Body
    var stored: Option<Snapshot>
    var driver: Option<Driver>
    /** Steps whose function ran to success, with the index they ran for. */
    ghost var executed: seq<(nat, Value)>
    /** The call that recorded each entry. */
    ghost var origin: map<nat, Action>
    /** Due time first stored for each sleeping step. */
    ghost var due: map<nat, Time>
    /** Signals known to every driver from now on. */
    ghost var kept: nat
    /** The outcomes a finished run was given. */
    ghost var seen: seq<Outcome>
    /** The body has caught something and gone on. */
    ghost var strayed: bool

    ghost predicate Valid()
      reads this
    {
      && (stored.None? ==>
            driver.None? && executed == [] && origin == map[] && due == map[] && kept == 0 && !strayed)
      && (stored.Some? ==>
            && Consistent(body, stored.value, driver, kept) && DoneOk(body, stored.value, seen)
            && Earned(stored.value.steps, origin, executed) && EarnedNext(body, driver, executed)
            && (!strayed ==> Strict(body, stored.value, driver, due))
            && (!strayed && stored.value.status == Done ==> AllOk(seen)))
    }

    /** The driver is about to carry out the body's next action. */
    ghost predicate Calling()
      reads this
    {
      stored.Some? && driver.Some? && driver.value.pending.Free?
    }

    /** Until the body catches something and goes on, the log is a history the body produces, without holes. */
    lemma NoHoles()
      requires Valid() && stored.Some? && !strayed
      ensures LogOk(body, stored.value.steps, stored.value.cursor)
      ensures stored.value.cursor == Reach(body, stored.value.steps, stored.value.cursor)
    {
      hide Reach, Results, FirstSignal, Followed, Execute;
      SettledReach(body, stored.value.steps, stored.value.cursor, stored.value.cursor);
    }

    lemma Facts()
      requires Valid() && stored.Some?
      ensures CursorOk(stored.value.steps, stored.value.cursor) && kept <= |stored.value.signals|
      ensures Extends(body, stored, stored, kept)
      ensures driver.Some? ==>
            && Followed(body, stored.value.steps, driver.value.history) && stored.value.status != Done
            && driver.value.state.steps == stored.value.steps && driver.value.state.cursor == stored.value.cursor
      ensures Calling() ==>
            driver.value.callIndex == |driver.value.history| && driver.value.state.signals == driver.value.base.signals
    {
      hide Reach, Results, FirstSignal, Followed, Execute, LogOk;
    }

    constructor (b: Body)
      ensures Valid() && body == b && stored == None && driver == None && executed == [] && !strayed
    {
      body, stored, driver := b, None, None;
      executed, origin, due, kept, seen, strayed := [], map[], map[], 0, [], false;
    }

    /** `start`: the first snapshot is saved before the body runs. */
    method Start()
      requires Valid() && stored.None?
      modifies this`stored, this`driver
      ensures Valid()
      ensures stored == Some(Snapshot(Running, 0, map[], [], None, None))
      ensures driver == Some(Driver(stored.value, stored.value, 0, [], Free))
    {
      var s := Snapshot(Running, 0, map[], [], None, None);
      stored, driver := Some(s), Some(Driver(s, s, 0, [], Free));
    }

    /** The process dies: everything in memory is lost. */
    method Crash()
      requires Valid()
      modifies this`driver
      ensures Valid() && driver == None
    {
      driver := None;
    }

    /** `resume`. A finished run is reported, not driven. */
    method Resume() returns (finished: Option<Value>)
      requires Valid() && stored.Some? && driver.None?
      modifies this`driver, this`kept
      ensures Valid() && kept == |stored.value.signals|
      ensures finished.Some? <==> stored.value.status == Done
      ensures finished.Some? ==> driver == None && finished == stored.value.result
      ensures finished.Some? ==> Execute(body, seen, 0) == Finished(finished.value)
      ensures finished.Some? && !strayed ==>
            Execute(body, Results(stored.value.steps, stored.value.cursor), 0) == Finished(finished.value)
      ensures finished.None? ==> var s := stored.value.(status := Running); driver == Some(Driver(s, s, 0, [], Free))
    {
      hide Followed, Execute, Results, FirstSignal, Settled;
      var s := stored.value;
      kept := |s.signals|;
      if s.status == Done {
        if !strayed { ResultIsUninterrupted(body, s.steps, s.cursor, seen, s.result.value); }
        return s.result;
      }
      NothingSeen(body, s.steps);
      driver := Some(Driver(s.(status := Running), s.(status := Running), 0, [], Free));
      return None;
    }

    /** `Workflow.signal`: accepted only while the stored run waits for this name. */
    method Deliver(name: string, payload: Value) returns (accepted: bool)
      requires Valid() && stored.Some?
      modifies this`stored, this`kept
      ensures Valid() && Extends(body, old(stored), stored, old(kept)) && stored.Some?
      ensures accepted <==> (var s := old(stored.value);
                             s.status == Waiting && s.waiting.Some? && s.waiting.value.ForSignal?
                                 && s.waiting.value.name == name)
      ensures !accepted ==> stored == old(stored) && kept == old(kept)
      ensures accepted ==>
            stored.value == old(stored.value).(status := Running, waiting := None,
                                               signals := old(stored.value.signals) + [Signal(name, payload)])
      ensures accepted && driver.None? ==> kept == |stored.value.signals|
      ensures accepted && driver.Some? ==> Unseen(name)
      ensures old(kept) <= kept
    {
      hide Earned, EarnedNext, Execute, Followed, Consistent, Strict, KeepsSettled, FirstSignal;
      var s := stored.value;
      Unchanged(body, s, driver, kept);
      if s.status != Waiting || s.waiting.None? || !s.waiting.value.ForSignal? || s.waiting.value.name != name {
        return false;
      }
      DeliverStep(body, s, driver, kept, payload);
      if !strayed { StrictDeliver(body, s, driver, due, payload); }
      stored := Some(Delivered(s, payload));
      if driver.None? { kept := |stored.value.signals|; }
      return true;
    }

    /** A signal of this name is stored, and the active driver does not know of it. */
    ghost predicate Unseen(name: string)
      reads this
    {
      && stored.Some? && driver.Some? && FirstSignal(stored.value.signals, name) >= 0
      && FirstSignal(driver.value.state.signals, name) == -1 && FirstSignal(driver.value.base.signals, name) == -1
    }

    /**
     * `#step`. A recorded step is answered from the log, and one recorded under another name is refused. Any other
     * runs its function, which returns or throws for good. No step of the settled part is ever run.
     */
    method Step(outcome: Outcome)
      requires Valid() && Calling() && body(driver.value.history).DoStep?
      modifies this`driver, this`executed, this`strayed
      ensures Valid() && strayed == (old(strayed) || !AllOk(old(driver.value.history)))
      ensures var d := old(driver.value); var index := |d.history|; var s := stored.value;
              match Lookup(s.steps, s.cursor, index, body(d.history))
              case Replayed(v) => Answered(d, Ok(v)) && executed == old(executed)
              case Refused => Answered(d, Threw(Mismatch)) && executed == old(executed)
              case Fresh =>
                && Reach(body, s.steps, s.cursor) <= index
                && if outcome.Ok? then
                     && executed == old(executed) + [(index, outcome.value)]
                     && driver == Some(Recording(d, body(d.history).id, outcome.value))
                   else Answered(d, outcome) && executed == old(executed)
      ensures var d := old(driver.value);
              && Stepped(stored.value, d, body(d.history).id, outcome, driver)
              && executed == old(executed) + if |d.history| >= stored.value.cursor && outcome.Ok?
                                             then [(|d.history|, outcome.value)] else []
    {
      hide Followed, Reach, Results, FirstSignal, Consistent, DoneOk, LogOk, TimersOk, Stepped;
      var d := driver.value;
      var id, index := body(d.history).id, d.callIndex;
      CallStep(body, stored.value, d, kept);
      strayed := strayed || !AllOk(d.history);
      if !strayed { StrictCall(d, due); }
      match Lookup(d.state.steps, d.state.cursor, index, body(d.history)) {
        case Replayed(v) =>
          driver := Some(Seen(d, Ok(v)));
        case Refused =>
          driver := Some(Seen(d, Threw(Mismatch)));
        case Fresh =>
          if outcome.Ok? {
            executed := executed + [(index, outcome.value)];
            driver := Some(Recording(d, id, outcome.value));
          } else {
            driver := Some(Seen(d, outcome));
          }
      }
      StepMeans(stored.value, d, body(d.history), outcome, driver);
    }

    /** `#complete`: the record is added to the snapshot in the store, whatever the driver holds. */
    method Checkpoint()
      requires Valid() && stored.Some? && driver.Some? && driver.value.pending.Completing?
      modifies this`stored, this`driver, this`origin, this`kept
      ensures Valid() && stored.Some? && driver.Some? && Extends(body, old(stored), stored, old(kept))
      ensures kept == |stored.value.signals|
      ensures var p := old(driver.value.pending); var s := old(stored.value); var t := stored.value;
              && t == s.(status := Running, cursor := t.cursor, waiting := None,
                         steps := s.steps[p.index := StepRecord(p.id, p.value)])
              && CursorOk(t.steps, t.cursor) && s.cursor <= t.cursor
              && driver == Some(Driver(t, t, p.index + 1, old(driver.value.history) + [Ok(p.value)], Free))
      ensures var p := old(driver.value.pending); var s := old(stored.value);
              && Reach(body, s.steps, s.cursor) <= p.index
              && (p.index < s.cursor ==> s.steps[p.index].id != p.id && !body(old(driver.value.history)).DoStep?)
      ensures var s := old(stored.value); var t := stored.value;
              LogOk(body, s.steps, s.cursor) ==>
                && old(driver.value.pending.index) !in s.steps
                && (LogOk(body, t.steps, t.cursor) <==> AllOk(old(driver.value.history)))
    {
      hide Consistent, LogOk, Strict, Execute, Followed, Reach, KeepsSettled, Results, FirstSignal, Settled;
      var d, s := driver.value, stored.value;
      var p := d.pending;
      CompletingStep(body, s, d, kept);
      var steps := s.steps[p.index := StepRecord(p.id, p.value)];
      StaysDone(s.steps, p.index, StepRecord(p.id, p.value), s.cursor);
      var cursor := AdvanceCursor(steps, s.cursor);
      var next := s.(status := Running, cursor := cursor, steps := steps, waiting := None);
      CheckpointStep(body, s, d, kept, cursor);
      if !strayed { StrictCheckpoint(body, s, d, due, kept, cursor); }
      origin, kept := origin[p.index := body(d.history)], |next.signals|;
      stored := Some(next);
      driver := Some(d.(base := next, state := next, history := d.history + [Ok(p.value)], pending := Free));
    }

    /**
     * `#sleep` at time `now`; `newDue` is the due time a new timer would get. A timer stored for this call keeps its
     * due time. As long as nothing was caught, a due time once stored never changes, and the step completes only
     * when that time has come.
     */
    method SleepCall(now: Time, newDue: Time)
      requires Valid() && Calling() && body(driver.value.history).Sleep?
      modifies this`stored, this`driver, this`due, this`strayed
      ensures Valid() && stored.Some? && Extends(body, old(stored), stored, kept)
      ensures strayed == (old(strayed) || !AllOk(old(driver.value.history)))
      ensures var d := old(driver.value); var index := |d.history|; var s := old(stored.value);
              var dueAt := DueAt(s.waiting, index, newDue);
              match Lookup(s.steps, s.cursor, index, body(d.history))
              case Replayed(v) => Answered(d, Ok(v)) && stored.value == s && due == old(due)
              case _ =>
                if now < dueAt then
                  && stored.value == d.state.(status := Waiting,
                                              waiting := Some(Timer(body(d.history).id, dueAt, index)))
                  && Answered(d.(state := stored.value), Threw(Parked)) && due == old(due)[index := dueAt]
                else
                  && stored.value == s && due == old(due)
                  && driver == Some(Recording(d, body(d.history).id, 0))
      ensures var d := old(driver.value);
              Slept(old(stored.value), d, body(d.history).id, now, newDue, stored.value, driver)
      ensures !strayed ==> forall i :: i in old(due) ==> i in due && due[i] == old(due)[i]
      ensures !strayed && driver.value.pending.Completing? && driver.value.pending.index in due ==>
            due[driver.value.pending.index] <= now
    {
      hide Consistent, LogOk, Strict, StrictDriver, Execute, Followed, Reach, KeepsSettled, Results, FirstSignal,
          Earned, Slept;
      var d := driver.value;
      var id, index := body(d.history).id, d.callIndex;
      CallStep(body, stored.value, d, kept);
      Unchanged(body, stored.value, driver, kept);
      strayed := strayed || !AllOk(d.history);
      if !strayed { StrictMade(body, stored.value, d, due); }
      var replay := Lookup(d.state.steps, d.state.cursor, index, body(d.history));
      if replay.Replayed? {
        driver := Some(Seen(d, Ok(replay.value)));
        SleepMeans(stored.value, d, body(d.history), now, newDue, stored.value, driver);
        return;
      }
      var dueAt := DueAt(d.state.waiting, index, newDue);
      ParkStep(body, stored.value, d, kept, Timer(id, dueAt, index));
      if !strayed { StrictSleep(body, stored.value, d, due, kept, id, newDue); }
      if now < dueAt {
        stored := Some(d.state.(status := Waiting, waiting := Some(Timer(id, dueAt, index))));
        due := due[index := dueAt];
        driver := Some(Seen(d.(state := stored.value), Threw(Parked)));
      } else {
        driver := Some(Recording(d, id, 0));
      }
      SleepMeans(old(stored.value), d, body(d.history), now, newDue, stored.value, driver);
    }

    /** `#waitForSignal`; `timedOut` tells whether a timeout was given and has passed. */
    method WaitCall(timedOut: bool)
      requires Valid() && Calling() && body(driver.value.history).WaitFor?
      modifies this`stored, this`driver, this`strayed
      ensures Valid() && stored.Some? && Extends(body, old(stored), stored, kept)
      ensures strayed == (old(strayed) || !AllOk(old(driver.value.history)))
      ensures var d := old(driver.value); var index := |d.history|; var s := old(stored.value);
              var name := body(d.history).name; var i := FirstSignal(d.state.signals, name);
              match Lookup(s.steps, s.cursor, index, body(d.history))
              case Replayed(v) => Answered(d, Ok(v)) && stored.value == s
              case _ =>
                if i >= 0 then
                  && stored.value == s && driver.Some?
                  && driver == Some(Recording(d.(state := driver.value.state), name, d.state.signals[i].payload))
                  && driver.value.state == d.state.(signals := TakeOut(d.state.signals, i))
                else if timedOut then
                  Answered(d, Threw(TimedOut)) && stored.value == s
                else
                  && stored.value == d.state.(status := Waiting, waiting := Some(ForSignal(name, index)))
                  && Answered(d.(state := stored.value), Threw(Parked))
      ensures var d := old(driver.value);
              Waited(old(stored.value), d, body(d.history).name, timedOut, stored.value, driver)
    {
      hide Consistent, LogOk, Strict, StrictDriver, Execute, Followed, Reach, KeepsSettled, Results, FirstSignal,
          Earned, TakeOut, Waited;
      var d := driver.value;
      var name, index := body(d.history).name, d.callIndex;
      CallStep(body, stored.value, d, kept);
      Unchanged(body, stored.value, driver, kept);
      strayed := strayed || !AllOk(d.history);
      if !strayed { StrictMade(body, stored.value, d, due); }
      var replay := Lookup(d.state.steps, d.state.cursor, index, body(d.history));
      if replay.Replayed? {
        driver := Some(Seen(d, Ok(replay.value)));
        WaitMeans(stored.value, d, body(d.history), timedOut, stored.value, driver);
        return;
      }
      var i := FirstSignal(d.state.signals, name);
      if i >= 0 {
        var rest := TakeOut(d.state.signals, i);
        TakeStep(body, stored.value, d, kept, name, i);
        if !strayed { StrictTake(body, stored.value, d, due, name, i); }
        driver := Some(Recording(d.(state := d.state.(signals := rest)), name, d.state.signals[i].payload));
      } else if timedOut {
        driver := Some(Seen(d, Threw(TimedOut)));
      } else {
        ParkStep(body, stored.value, d, kept, ForSignal(name, index));
        if !strayed { StrictWait(body, stored.value, d, due, kept, name); }
        stored := Some(d.state.(status := Waiting, waiting := Some(ForSignal(name, index))));
        driver := Some(Seen(d.(state := stored.value), Threw(Parked)));
      }
      WaitMeans(old(stored.value), d, body(d.history), timedOut, stored.value, driver);
    }

    /** The wait leaves the body: `#drive` saves the runtime's snapshot once more, over whatever is stored. */
    method Park()
      requires Valid() && Calling() && body(driver.value.history) == Throw(Parked)
      modifies this`stored, this`driver
      ensures Valid() && Extends(body, old(stored), stored, kept) && driver == None
      ensures stored == Some(old(driver.value.state))
    {
      hide LogOk, Followed, Reach, KeepsSettled, Results, FirstSignal, Earned, Settled, Execute;
      SaveStep(body, stored.value, driver.value, kept, driver.value.state);
      stored, driver := Some(driver.value.state), None;
    }

    /**
     * The body returns: the run is done. The result is that of one run of the body over the outcomes it was given;
     * over a log without holes, that of an uninterrupted run over the log exactly when nothing was caught.
     */
    method Finish() returns (result: Value)
      requires Valid() && Calling() && body(driver.value.history).Return?
      modifies this`stored, this`driver, this`seen, this`strayed
      ensures Valid() && Extends(body, old(stored), stored, kept) && driver == None
      ensures stored == Some(old(driver.value.base).(status := Done, result := Some(result), waiting := None))
      ensures seen == old(driver.value.history) && Followed(body, stored.value.steps, seen)
      ensures body(seen) == Return(result) && Execute(body, seen, 0) == Finished(result)
      ensures strayed == (old(strayed) || !AllOk(seen))
      ensures var s := stored.value;
              DoneBelow(s.steps, s.cursor)
              && (LogOk(body, s.steps, s.cursor) ==>
                    (Execute(body, Results(s.steps, s.cursor), 0) == Finished(result) <==> AllOk(seen)))
    {
      hide LogOk, Followed, Reach, KeepsSettled, Results, FirstSignal, Earned, Settled, Execute, StrictDriver;
      var d, s := driver.value, stored.value;
      result := body(d.history).value;
      seen := d.history;
      strayed := strayed || !AllOk(seen);
      ExecuteSeen(body, s.steps, seen, 0, result);
      if LogOk(body, s.steps, s.cursor) { ResultIsUninterrupted(body, s.steps, s.cursor, seen, result); }
      if !strayed { StrictEnd(body, s, d, due); }
      var last := d.base.(status := Done, result := Some(result), waiting := None);
      SaveStep(body, s, d, kept, last);
      stored, driver := Some(last), None;
    }

    /** The body throws. */
    method Fail()
      requires Valid() && Calling() && body(driver.value.history).Throw? && body(driver.value.history).error != Parked
      modifies this`stored, this`driver, this`strayed
      ensures Valid() && stored.Some? && Extends(body, old(stored), stored, kept) && driver == None
      ensures stored == Some(old(driver.value.state).(status := Failed, waiting := None))
      ensures strayed == (old(strayed) || Threw(Parked) in old(driver.value.history))
    {
      hide LogOk, Followed, Reach, KeepsSettled, Results, FirstSignal, Earned, Settled, Execute, StrictDriver;
      var d, s := driver.value, stored.value;
      strayed := strayed || Threw(Parked) in d.history;
      if !strayed { StrictEnd(body, s, d, due); }
      var last := d.state.(status := Failed, waiting := None);
      SaveStep(body, s, d, kept, last);
      stored, driver := Some(last), None;
    }

    /** The driver went on from `d` with this outcome, and the store is as it was. */
    ghost predicate Answered(d: Driver, o: Outcome)
      reads this
    {
      driver == Some(Seen(d, o))
    }
  }

  /** The driver after a call has ended. */
  function Seen(d: Driver, o: Outcome): Driver { d.(callIndex := |d.history| + 1, history := d.history + [o]) }

  /** The driver after a call was made whose result is to be recorded. */
  function Recording(d: Driver, id: string, v: Value): Driver {
    d.(callIndex := |d.history| + 1, pending := Completing(|d.history|, id, v))
  }

  lemma NothingSeen(body: Body, steps: Steps)
    ensures Followed(body, steps, [])
  {
  }

  lemma Unchanged(body: Body, s: Snapshot, driver: Option<Driver>, kept: nat)
    requires Consistent(body, s, driver, kept)
    ensures CursorOk(s.steps, s.cursor) && KeepsSettled(body, s, s) && kept <= |s.signals|
    ensures driver.Some? ==> TimerSeen(s, driver.value)
  {
    hide Followed, Reach, FirstSignal;
  }

  // ----- signals -----

  function Delivered(s: Snapshot, payload: Value): Snapshot
    requires s.waiting.Some? && s.waiting.value.ForSignal?
  {
    s.(status := Running, waiting := None, signals := s.signals + [Signal(s.waiting.value.name, payload)])
  }

  lemma DeliverStep(body: Body, s: Snapshot, driver: Option<Driver>, kept: nat, payload: Value)
    requires Consistent(body, s, driver, kept) && s.waiting.Some? && s.waiting.value.ForSignal?
    ensures var t := Delivered(s, payload); var name := s.waiting.value.name;
            && Consistent(body, t, driver, kept) && Extends(body, Some(s), Some(t), kept)
            && (driver.None? ==> Consistent(body, t, driver, |t.signals|))
            && FirstSignal(t.signals, name) >= 0
            && (driver.Some? ==> FirstSignal(driver.value.state.signals, name) == -1
                                 && FirstSignal(driver.value.base.signals, name) == -1)
  {
    hide Followed, Reach, FirstSignal, Lookup, Issues;
    var t := Delivered(s, payload);
    if driver.Some? {
      var d := driver.value;
      AcceptedUnseen(s, d, kept, payload);
      assert d.base.signals <= t.signals;
      assert TimerSeen(t, d) by {
        forall index, newDue ensures DueAt(t.waiting, index, newDue) == DueAt(d.state.waiting, index, newDue) {
          assert DueAt(s.waiting, index, newDue) == DueAt(d.state.waiting, index, newDue);
        }
      }
    } else {
      assert t.signals[|s.signals|].name == s.waiting.value.name;
      SignalThere(t.signals, |s.signals|);
    }
  }

  lemma SignalThere(signals: seq<Signal>, i: nat)
    requires i < |signals|
    ensures FirstSignal(signals, signals[i].name) >= 0
  {
    NoSignal(signals, signals[i].name);
  }

  lemma StrictDeliver(body: Body, s: Snapshot, driver: Option<Driver>, due: map<nat, Time>, payload: Value)
    requires Strict(body, s, driver, due) && s.waiting.Some? && s.waiting.value.ForSignal?
    ensures Strict(body, Delivered(s, payload), driver, due)
  {
    hide LogOk, Results, StrictDriver;
  }

  /** While a wait for a signal is stored, no driver knows of such a signal. */
  lemma AcceptedUnseen(s: Snapshot, d: Driver, kept: nat, payload: Value)
    requires WaitOk(s) && SignalsOk(s, d, kept) && s.waiting.Some? && s.waiting.value.ForSignal?
    ensures var name := s.waiting.value.name;
            && FirstSignal(d.state.signals, name) == -1 && FirstSignal(d.base.signals, name) == -1
            && FirstSignal(s.signals + [Signal(name, payload)], name) >= 0
  {
    var name, all := s.waiting.value.name, s.signals + [Signal(s.waiting.value.name, payload)];
    assert all[|s.signals|].name == name;
    NoSignal(s.signals, name);
    NoSignal(all, name);
    NoSignal(d.base.signals, name);
    NoSignal(d.state.signals, name);
  }

  /** What a call can do to the driver alone. */
  lemma CallStep(body: Body, s: Snapshot, d: Driver, kept: nat)
    requires Consistent(body, s, Some(d), kept) && d.pending.Free? && IsCall(body(d.history))
    ensures d.callIndex == |d.history| && d.state.steps == s.steps && d.state.cursor == s.cursor
    ensures CursorOk(s.steps, s.cursor)
    ensures var replay := Lookup(s.steps, s.cursor, |d.history|, body(d.history));
            if replay.Replayed? then Consistent(body, s, Some(Seen(d, Ok(replay.value))), kept)
            else
              && Reach(body, s.steps, s.cursor) <= |d.history|
              && (forall e :: (body(d.history).Sleep? ==> e == Parked) ==>
                    Consistent(body, s, Some(Seen(d, Threw(e))), kept))
              && (replay.Fresh? ==> forall id, v :: Issues(body(d.history), id) ==>
                    Consistent(body, s, Some(Recording(d, id, v)), kept))
  {
    hide Followed, Reach, Results, FirstSignal, Lookup;
    if Lookup(s.steps, s.cursor, |d.history|, body(d.history)).Replayed? {
      AnsweredStep(body, s.steps, s.cursor, d.history);
    } else {
      MadeBeyond(body, s.steps, s.cursor, d.history);
      forall e | body(d.history).Sleep? ==> e == Parked ensures Followed(body, s.steps, d.history + [Threw(e)]) {
        ThrownStep(body, s.steps, s.cursor, d.history, e);
      }
    }
  }

  /** A call made before anything was caught leaves the driver strict. */
  lemma StrictCall(d: Driver, due: map<nat, Time>)
    requires StrictDriver(d, due) && AllOk(d.history)
    ensures forall o :: d.pending.Free? ==> StrictDriver(Seen(d, o), due)
    ensures forall id, v :: StrictDriver(Recording(d, id, v), due)
  {
    hide TimersOk;
    forall o ensures (d.history + [o])[..|d.history|] == d.history {
    }
  }

  // ----- completed calls -----

  lemma CompletingStep(body: Body, s: Snapshot, d: Driver, kept: nat)
    requires Consistent(body, s, Some(d), kept) && d.pending.Completing?
    ensures DoneBelow(s.steps, s.cursor) && CursorOk(s.steps, s.cursor)
    ensures d.pending.index == |d.history| && d.callIndex == |d.history| + 1 && d.history + [] == d.history
    ensures d.pending.index < s.cursor ==>
          s.steps[d.pending.index].id != d.pending.id && !body(d.history).DoStep?
    ensures Issues(body(d.history), d.pending.id)
  {
    hide Followed, FirstSignal;
  }

  lemma StaysDone(steps: Steps, i: nat, r: StepRecord, n: nat)
    requires DoneBelow(steps, n)
    ensures DoneBelow(steps[i := r], n)
  {
  }

  /** The snapshot after a completed call. */
  function Completed(s: Snapshot, p: Pending, cursor: nat): Snapshot
    requires p.Completing?
  {
    s.(status := Running, cursor := cursor, steps := s.steps[p.index := StepRecord(p.id, p.value)], waiting := None)
  }

  /** And the driver. */
  function Recorded(d: Driver, next: Snapshot): Driver
    requires d.pending.Completing?
  {
    d.(base := next, state := next, history := d.history + [Ok(d.pending.value)], pending := Free)
  }

  lemma CheckpointStep(body: Body, s: Snapshot, d: Driver, kept: nat, cursor: nat)
    requires Consistent(body, s, Some(d), kept) && d.pending.Completing?
    requires CursorOk(Completed(s, d.pending, cursor).steps, cursor) && s.cursor <= cursor
    ensures var t := Completed(s, d.pending, cursor);
            && Consistent(body, t, Some(Recorded(d, t)), |t.signals|)
            && Extends(body, Some(s), Some(t), kept) && Reach(body, s.steps, s.cursor) <= d.pending.index
            && (LogOk(body, s.steps, s.cursor) ==>
                  d.pending.index !in s.steps && (LogOk(body, t.steps, t.cursor) <==> AllOk(d.history)))
  {
    hide Followed, Reach, FirstSignal, Results, Settled, LogOk, Lookup;
    RecordedStep(body, s.steps, s.cursor, d.history, StepRecord(d.pending.id, d.pending.value), cursor);
  }

  lemma StrictCheckpoint(body: Body, s: Snapshot, d: Driver, due: map<nat, Time>, kept: nat, cursor: nat)
    requires Consistent(body, s, Some(d), kept) && Strict(body, s, Some(d), due) && d.pending.Completing?
    requires CursorOk(Completed(s, d.pending, cursor).steps, cursor) && s.cursor <= cursor
    ensures var t := Completed(s, d.pending, cursor); Strict(body, t, Some(Recorded(d, t)), due)
  {
    hide Followed, Reach, FirstSignal, Results, Settled, LogOk, Lookup;
    RecordedStep(body, s.steps, s.cursor, d.history, StepRecord(d.pending.id, d.pending.value), cursor);
    assert (d.history + [Ok(d.pending.value)])[..|d.history|] == d.history;
  }

  // ----- waits -----

  /** The first save of a wait. */
  lemma ParkStep(body: Body, s: Snapshot, d: Driver, kept: nat, w: Wait)
    requires Consistent(body, s, Some(d), kept) && d.pending.Free? && IsCall(body(d.history))
    requires !Lookup(s.steps, s.cursor, |d.history|, body(d.history)).Replayed?
    requires w.ForSignal? ==> FirstSignal(d.state.signals, w.name) == -1
    ensures var t := d.state.(status := Waiting, waiting := Some(w));
            && Consistent(body, t, Some(Seen(d.(state := t), Threw(Parked))), kept)
            && Extends(body, Some(s), Some(t), kept)
  {
    hide Followed, Reach, FirstSignal, Lookup;
    ThrownStep(body, s.steps, s.cursor, d.history, Parked);
  }

  lemma TakeStep(body: Body, s: Snapshot, d: Driver, kept: nat, name: string, i: nat)
    requires Consistent(body, s, Some(d), kept) && d.pending.Free? && body(d.history) == WaitFor(name)
    requires Lookup(s.steps, s.cursor, |d.history|, body(d.history)).Fresh? && i < |d.state.signals|
    ensures var rest := TakeOut(d.state.signals, i);
            Consistent(body, s,
                       Some(Recording(d.(state := d.state.(signals := rest)), name, d.state.signals[i].payload)), kept)
  {
    hide Followed, Reach, Lookup, FirstSignal;
    if d.state.waiting.Some? && d.state.waiting.value.ForSignal? {
      NoSignal(d.state.signals, d.state.waiting.value.name);
      NoSignal(TakeOut(d.state.signals, i), d.state.waiting.value.name);
    }
  }

  /** A call made while nothing was caught is the one the log has come to. */
  lemma StrictMade(body: Body, s: Snapshot, d: Driver, due: map<nat, Time>)
    requires Strict(body, s, Some(d), due) && d.pending.Free? && AllOk(d.history)
    ensures forall o :: Strict(body, s, Some(Seen(d, o)), due)
    ensures forall id, v :: Strict(body, s, Some(Recording(d, id, v)), due)
  {
    hide LogOk, TimersOk, Results, StrictDriver;
    StrictCall(d, due);
  }

  lemma AtCursor(body: Body, s: Snapshot, d: Driver, kept: nat)
    requires Consistent(body, s, Some(d), kept) && LogOk(body, s.steps, s.cursor) && AllOk(d.history)
    requires IsCall(body(d.history)) && !Lookup(s.steps, s.cursor, |d.history|, body(d.history)).Replayed?
    ensures |d.history| == s.cursor && d.history == Results(s.steps, s.cursor)
  {
    hide Followed, Reach, FirstSignal, Lookup, LogOk, Results;
    MadeBeyond(body, s.steps, s.cursor, d.history);
    AllOkIsLog(body, s.steps, s.cursor, d.history);
  }

  lemma StrictSleep(body: Body, s: Snapshot, d: Driver, due: map<nat, Time>, kept: nat, id: string, newDue: Time)
    requires Consistent(body, s, Some(d), kept) && Strict(body, s, Some(d), due) && AllOk(d.history)
    requires body(d.history) == Sleep(id) && d.pending.Free?
    requires !Lookup(s.steps, s.cursor, |d.history|, body(d.history)).Replayed?
    ensures var dueAt := DueAt(d.state.waiting, |d.history|, newDue);
            var t := d.state.(status := Waiting, waiting := Some(Timer(id, dueAt, |d.history|)));
            && (|d.history| in due ==> due[|d.history|] == dueAt)
            && Strict(body, t, Some(Seen(d.(state := t), Threw(Parked))), due[|d.history| := dueAt])
  {
    AtCursor(body, s, d, kept);
    hide Followed, Reach, FirstSignal, Lookup, LogOk, Results;
    assert (d.history + [Threw(Parked)])[..|d.history|] == d.history;
  }

  lemma StrictWait(body: Body, s: Snapshot, d: Driver, due: map<nat, Time>, kept: nat, name: string)
    requires Consistent(body, s, Some(d), kept) && Strict(body, s, Some(d), due) && AllOk(d.history)
    requires body(d.history) == WaitFor(name) && d.pending.Free?
    requires !Lookup(s.steps, s.cursor, |d.history|, body(d.history)).Replayed?
    ensures var t := d.state.(status := Waiting, waiting := Some(ForSignal(name, |d.history|)));
            Strict(body, t, Some(Seen(d.(state := t), Threw(Parked))), due)
  {
    AtCursor(body, s, d, kept);
    hide Followed, Reach, FirstSignal, Lookup, LogOk, Results;
    assert (d.history + [Threw(Parked)])[..|d.history|] == d.history;
  }

  lemma StrictTake(body: Body, s: Snapshot, d: Driver, due: map<nat, Time>, name: string, i: nat)
    requires Strict(body, s, Some(d), due) && AllOk(d.history) && i < |d.state.signals|
    ensures var rest := TakeOut(d.state.signals, i);
            Strict(body, s,
                   Some(Recording(d.(state := d.state.(signals := rest)), name, d.state.signals[i].payload)), due)
  {
    hide LogOk, Results;
  }

  // ----- the end of a drive -----

  /** A snapshot with the driver's log and signals replaces the stored one. */
  lemma SaveStep(body: Body, s: Snapshot, d: Driver, kept: nat, t: Snapshot)
    requires Consistent(body, s, Some(d), kept) && d.pending.Free?
    requires t.steps == s.steps && t.cursor == s.cursor && t.signals == d.base.signals && WaitOk(t)
    ensures Consistent(body, t, None, kept) && Extends(body, Some(s), Some(t), kept)
  {
    hide Followed, Reach, FirstSignal;
  }

  /** A strict drive ends at the call the log has come to, and not at a sleep. */
  lemma StrictEnd(body: Body, s: Snapshot, d: Driver, due: map<nat, Time>)
    requires CursorOk(s.steps, s.cursor) && Strict(body, s, Some(d), due) && Followed(body, s.steps, d.history)
    requires d.pending.Free? && !IsCall(body(d.history)) && Threw(Parked) !in d.history
    ensures s.cursor !in due
  {
    hide Reach, Results, FirstSignal, TimersOk;
    var h := d.history;
    OnTrack(body, s.steps, s.cursor, h);
    SettledReach(body, s.steps, s.cursor, s.cursor);
    if FirstThrown(h) < |h| {
      ThrownAt(body, s.steps, s.cursor, h);
      assert FollowedAt(body, s.steps, h, FirstThrown(h));
    } else {
      assert h == h[..|h|];
      AllOkIsLog(body, s.steps, s.cursor, h);
    }
  }
}
