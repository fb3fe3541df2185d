/** A request that a signal stops: what the stop reaches, over every order in which signals, messages
    of the parent process, operations and the request's end come. */
module StopSignals {
  import opened Options

  type Id = string

  datatype StopSignal = SIGINT | SIGTERM | SIGHUP

  const STOP_SIGNALS := [SIGINT, SIGTERM, SIGHUP]

  const STOP_MESSAGE := "sandforge:stop"

  const CHECKPOINT := "checkpoint"

  datatype Status = Running | Completed | Failed | Aborted

  /** What the registry lists under an id; `run` says whose abort controller it holds. */
  datatype Operation = Operation(name: string, run: nat, status: Status)

  /** A run as it was started, whatever the registry has come to list under its id. */
  datatype Launch = Launch(id: Id, name: string)

  datatype Event =
    | Signalled(signal: StopSignal)
    | Told(sent: string)
    | Started(id: Id, name: string)
    | Settled(run: nat, ok: bool)
    | Cancelled(id: Id)
    | Over

  /** `heard` and `channel` are what the stop listens to, `watching` whether it hears operations
      start, `calls` the times the stop was called. `launched`, `aborted` and `settled` are about the
      runs themselves, numbered as they start. */
  datatype State = State(
    heard: set<StopSignal>,
    channel: bool,
    watching: bool,
    calls: seq<StopSignal>,
    ended: bool,
    operations: map<Id, Operation>,
    launched: seq<Launch>,
    aborted: set<nat>,
    settled: set<nat>)

  function Begun(channel: bool): State {
    State({SIGINT, SIGTERM, SIGHUP}, channel, true, [], false, map[], [], {}, {})
  }

  predicate Stopped(s: State) {
    s.calls != []
  }

  predicate RunningAs(s: State, id: Id, name: string) {
    id in s.operations && s.operations[id].status == Running && s.operations[id].name == name
  }

  function Abort(s: State, id: Id): State {
    if id in s.operations && s.operations[id].status == Running then
      s.(operations := s.operations[id := s.operations[id].(status := Aborted)],
         aborted := s.aborted + {s.operations[id].run})
    else s
  }

  /** Of these ids, the checkpoint operations that run are aborted. */
  function AbortAmong(s: State, ids: set<Id>): State {
    s.(operations := map id | id in s.operations ::
         if id in ids && RunningAs(s, id, CHECKPOINT) then s.operations[id].(status := Aborted) else s.operations[id],
       aborted := s.aborted + set id | id in ids && RunningAs(s, id, CHECKPOINT) :: s.operations[id].run)
  }

  lemma AbortAmongNone(s: State)
    ensures AbortAmong(s, {}) == s
  {
    assert AbortAmong(s, {}).operations == s.operations;
  }

  lemma AbortAmongElsewhere(s: State, ids: set<Id>, id: Id)
    requires id !in ids && id in s.operations
    ensures id in AbortAmong(s, ids).operations && AbortAmong(s, ids).operations[id] == s.operations[id]
  {
  }

  lemma AbortAmongOneMore(s: State, ids: set<Id>, id: Id)
    requires id !in ids && id in s.operations && s.operations[id].status == Running
    ensures AbortAmong(s, ids + {id}) ==
      if s.operations[id].name == CHECKPOINT then Abort(AbortAmong(s, ids), id) else AbortAmong(s, ids)
  {
    var before, after := AbortAmong(s, ids), AbortAmong(s, ids + {id});
    var target := if s.operations[id].name == CHECKPOINT then Abort(before, id) else before;
    assert before.operations[id] == s.operations[id];
    assert after.operations == target.operations;
    assert after.aborted == target.aborted;
  }

  lemma AbortAmongAll(s: State, ids: set<Id>)
    requires forall id | id in s.operations && s.operations[id].status == Running :: id in ids
    requires forall id | id in ids :: id in s.operations
    ensures AbortAmong(s, ids) == AbortAmong(s, s.operations.Keys)
  {
    assert AbortAmong(s, ids).operations == AbortAmong(s, s.operations.Keys).operations;
    assert AbortAmong(s, ids).aborted == AbortAmong(s, s.operations.Keys).aborted;
  }

  lemma AbortsCheckpoints(s: State)
    ensures var t := AbortAmong(s, s.operations.Keys);
      && t.operations.Keys == s.operations.Keys
      && (forall id | id in t.operations ::
            var was := s.operations[id];
            t.operations[id] == if was.name == "checkpoint" && was.status == Running then was.(status := Aborted) else was)
      && (forall run :: run in t.aborted <==> run in s.aborted || exists id ::
            id in s.operations && s.operations[id] == Operation("checkpoint", run, Running))
  {
    var t := AbortAmong(s, s.operations.Keys);
    forall run
      ensures run in t.aborted <==> run in s.aborted || exists id ::
        id in s.operations && s.operations[id] == Operation("checkpoint", run, Running)
    {
      if id :| id in s.operations && s.operations[id] == Operation("checkpoint", run, Running) {
        assert RunningAs(s, id, CHECKPOINT) && s.operations[id].run == run;
      }
    }
  }

  function Stop(s: State, signal: StopSignal): State {
    var released := s.(heard := {}, channel := false, calls := s.calls + [signal]);
    AbortAmong(released, released.operations.Keys)
  }

  function Start(s: State, id: Id, name: string): State {
    var listed := s.(operations := s.operations[id := Operation(name, |s.launched|, Running)],
                     launched := s.launched + [Launch(id, name)]);
    if s.watching && Stopped(s) && name == CHECKPOINT then Abort(listed, id) else listed
  }

  function Settle(s: State, run: nat, ok: bool): State
    requires run < |s.launched|
  {
    var id := s.launched[run].id;
    var done := s.(settled := s.settled + {run});
    if id in s.operations && s.operations[id].status == Running then
      done.(operations := s.operations[id := s.operations[id].(status := if ok then Completed else Failed)])
    else done
  }

  /** A run settles once, and nothing else is asked of what may come. */
  predicate May(s: State, e: Event) {
    e.Settled? ==> e.run < |s.launched| && e.run !in s.settled
  }

  function Step(s: State, e: Event): State
    requires May(s, e)
  {
    if s.ended then s
    else
      match e
      case Signalled(signal) => if signal in s.heard then Stop(s, signal) else s.(ended := true)
      case Told(sent) => if s.channel && sent == STOP_MESSAGE then Stop(s, SIGINT) else s
      case Started(id, name) => Start(s, id, name)
      case Settled(run, ok) => Settle(s, run, ok)
      case Cancelled(id) => Abort(s, id)
      case Over => s.(heard := {}, channel := false, watching := false)
  }

  // ----- The request as it runs

  class Stoppable {
    var heard: set<StopSignal>
    var channel: bool
    var watching: bool
    var stopped: Option<StopSignal>
    var ended: bool
    var operations: map<Id, Operation>
    var aborted: set<nat>
    var starts: nat
    ghost var calls: seq<StopSignal>
    ghost var launched: seq<Launch>
    ghost var settled: set<nat>

    ghost function Now(): State
      reads this
    {
      State(heard, channel, watching, calls, ended, operations, launched, aborted, settled)
    }

    ghost predicate Valid()
      reads this
    {
      && starts == |launched|
      && stopped == (if calls == [] then None else Some(calls[|calls| - 1]))
    }

    constructor (ipc: bool)
      ensures Valid() && Now() == Begun(ipc)
    {
      heard, channel, watching, stopped, ended := {}, ipc, true, None, false;
      operations, aborted, starts, calls, launched, settled := map[], {}, 0, [], [], {};
      new;
      for k := 0 to |STOP_SIGNALS|
        invariant heard == set j | 0 <= j < k :: STOP_SIGNALS[j]
        invariant Valid() && Now() == Begun(ipc).(heard := heard)
      {
        heard := heard + {STOP_SIGNALS[k]};
      }
      assert STOP_SIGNALS[0] == SIGINT && STOP_SIGNALS[1] == SIGTERM && STOP_SIGNALS[2] == SIGHUP;
    }

    method Release()
      requires Valid()
      modifies this
      ensures Valid() && Now() == old(Now()).(heard := {}, channel := false)
    {
      heard := {};
      channel := false;
    }

    method AbortOne(id: Id)
      requires Valid()
      modifies this
      ensures Valid() && Now() == Abort(old(Now()), id)
    {
      if id !in operations || operations[id].status != Running {
        return;
      }
      aborted := aborted + {operations[id].run};
      operations := operations[id := operations[id].(status := Aborted)];
    }

    /** What the first signal does, whatever order the running operations are gone through in. */
    method OnStop(signal: StopSignal)
      requires Valid()
      modifies this
      ensures Valid() && Now() == AbortAmong(old(Now()).(calls := old(calls) + [signal]), old(operations).Keys)
      ensures operations.Keys == old(operations).Keys && forall id | id in operations ::
        var was := old(operations)[id];
        operations[id] == if was.name == "checkpoint" && was.status == Running then was.(status := Aborted) else was
      ensures forall run :: run in aborted <==> run in old(aborted) || exists id ::
        id in old(operations) && old(operations)[id] == Operation("checkpoint", run, Running)
    {
      hide AbortAmong;
      stopped := Some(signal);
      calls := calls + [signal];
      AbortAmongNone(Now());
      var left := set id | id in operations && operations[id].status == Running;
      ghost var before := Now();
      ghost var gone: set<Id> := {};
      while left != {}
        invariant Valid()
        invariant gone !! left && gone <= before.operations.Keys
        invariant left == set id | id in before.operations && before.operations[id].status == Running && id !in gone
        invariant Now() == AbortAmong(before, gone)
        decreases left
      {
        var id :| id in left;
        AbortAmongOneMore(before, gone, id);
        AbortAmongElsewhere(before, gone, id);
        left := left - {id};
        gone := gone + {id};
        if operations[id].name == CHECKPOINT {
          AbortOne(id);
        }
      }
      forall id | id in before.operations && before.operations[id].status == Running ensures id in gone {
        assert id !in left;
      }
      AbortAmongAll(before, gone);
      AbortsCheckpoints(before);
    }

    method Signal(signal: StopSignal)
      requires Valid()
      modifies this
      ensures Valid() && Now() == Step(old(Now()), Signalled(signal))
    {
      if ended {
        return;
      }
      if signal in heard {
        Release();
        OnStop(signal);
      } else {
        ended := true;
      }
    }

    method Message(sent: string)
      requires Valid()
      modifies this
      ensures Valid() && Now() == Step(old(Now()), Told(sent))
    {
      if !ended && channel && sent == STOP_MESSAGE {
        Release();
        OnStop(SIGINT);
      }
    }

    method Register(id: Id, name: string)
      requires Valid()
      modifies this
      ensures Valid() && Now() == Step(old(Now()), Started(id, name))
      ensures !ended ==>
        && id in operations
        && operations[id] ==
             Operation(name, old(starts), if watching && stopped.Some? && name == "checkpoint" then Aborted else Running)
    {
      if ended {
        return;
      }
      operations := operations[id := Operation(name, starts, Running)];
      launched := launched + [Launch(id, name)];
      starts := starts + 1;
      if watching && stopped.Some? && name == CHECKPOINT {
        AbortOne(id);
      }
    }

    method Mark(id: Id, ghost run: nat, ok: bool)
      requires Valid() && May(Now(), Event.Settled(run, ok)) && launched[run].id == id
      modifies this
      ensures Valid() && Now() == Step(old(Now()), Event.Settled(run, ok))
      ensures !ended && id in old(operations) && old(operations)[id].status == Running ==>
        operations == old(operations)[id := old(operations)[id].(status := if ok then Completed else Failed)]
    {
      if ended {
        return;
      }
      settled := settled + {run};
      if id in operations && operations[id].status == Running {
        operations := operations[id := operations[id].(status := if ok then Completed else Failed)];
      }
    }

    method Cancel(id: Id)
      requires Valid()
      modifies this
      ensures Valid() && Now() == Step(old(Now()), Cancelled(id))
      ensures !ended && id in old(operations) && old(operations)[id].status == Running ==>
        operations == old(operations)[id := old(operations)[id].(status := Aborted)]
    {
      if !ended {
        AbortOne(id);
      }
    }

    method Finish() returns (stoppedBy: Option<StopSignal>)
      requires Valid()
      modifies this
      ensures Valid() && Now() == Step(old(Now()), Over)
      ensures stoppedBy == if old(calls) == [] then None else Some(old(calls)[|old(calls)| - 1])
    {
      stoppedBy := stopped;
      if ended {
        return;
      }
      Release();
      watching := false;
    }
  }

  // ----- Every order of events

  ghost predicate MayAll(s: State, events: seq<Event>)
    decreases |events|
  {
    events == [] || (May(s, events[0]) && MayAll(Step(s, events[0]), events[1..]))
  }

  function After(s: State, events: seq<Event>): State
    requires MayAll(s, events)
    decreases |events|
  {
    if events == [] then s else After(Step(s, events[0]), events[1..])
  }

  /** The signal that stops the request: the first one, or the parent's message where its channel is
      heard, unless the request is over first. */
  function FirstStop(events: seq<Event>, channel: bool): Option<StopSignal>
    decreases |events|
  {
    if events == [] || events[0].Over? then None
    else if events[0].Signalled? then Some(events[0].signal)
    else if channel && events[0] == Told("sandforge:stop") then Some(SIGINT)
    else FirstStop(events[1..], channel)
  }

  /** Whether a signal comes once the request no longer hears them: after the first stop, or over. */
  predicate SignalledAgain(events: seq<Event>, channel: bool)
    decreases |events|
  {
    events != [] &&
    if events[0].Over? || events[0].Signalled? || (channel && events[0] == Told("sandforge:stop")) then
      exists k :: 0 < k < |events| && events[k].Signalled?
    else SignalledAgain(events[1..], channel)
  }

  predicate Deaf(s: State) {
    s.heard == {} && !s.channel
  }

  predicate Listens(s: State, channel: bool) {
    s.heard == {SIGINT, SIGTERM, SIGHUP} && s.channel == channel && s.calls == [] && !s.ended
  }

  /** Once released, by a stop or by the end, nothing calls the stop again; a signal then ends the
      process. */
  lemma {:induction false} NeverAfterRelease(s: State, events: seq<Event>)
    requires Deaf(s) && MayAll(s, events)
    ensures After(s, events).calls == s.calls
    ensures After(s, events).ended <==> s.ended || exists k :: 0 <= k < |events| && events[k].Signalled?
    decreases |events|
  {
    if events != [] {
      var rest := events[1..];
      NeverAfterRelease(Step(s, events[0]), rest);
      assert forall k :: 0 < k < |events| ==> events[k] == rest[k - 1];
      assert forall k :: 0 <= k < |rest| ==> rest[k] == events[k + 1];
    }
  }

  /** The stop is called for the first stop before the end and for no other, whatever else comes in
      between; a signal after it ends the process, and nothing else does. */
  lemma {:induction false} StopsOnce(s: State, channel: bool, events: seq<Event>)
    requires Listens(s, channel) && MayAll(s, events)
    ensures After(s, events).calls ==
      if FirstStop(events, channel).None? then [] else [FirstStop(events, channel).value]
    ensures After(s, events).ended <==> SignalledAgain(events, channel)
    decreases |events|
  {
    if events != [] {
      var e, rest := events[0], events[1..];
      if e.Over? || e.Signalled? || (channel && e == Told(STOP_MESSAGE)) {
        if e.Signalled? {
          assert e.signal.SIGINT? || e.signal.SIGTERM? || e.signal.SIGHUP?;
        }
        NeverAfterRelease(Step(s, e), rest);
        assert forall k :: 0 < k < |events| ==> events[k] == rest[k - 1];
        assert forall k :: 0 <= k < |rest| ==> rest[k] == events[k + 1];
      } else {
        StopsOnce(Step(s, e), channel, rest);
      }
    }
  }

  // ----- What the stop reaches

  /** An id lists a run that was started under it, with its name; one listed as aborted is. */
  ghost predicate KeptAt(s: State, id: Id)
    requires id in s.operations
  {
    var operation := s.operations[id];
    && operation.run < |s.launched| && s.launched[operation.run] == Launch(id, operation.name)
    && (operation.status == Aborted ==> operation.run in s.aborted)
  }

  ghost predicate Kept(s: State) {
    && (forall id | id in s.operations :: KeptAt(s, id))
    && (forall run | run in s.aborted :: run < |s.launched|)
  }

  /** No checkpoint operation is listed as running once the stop was called and is still watching. */
  ghost predicate NoneRuns(s: State) {
    Stopped(s) && s.watching ==> forall id | id in s.operations :: !RunningAs(s, id, CHECKPOINT)
  }

  lemma AbortKeeps(s: State, id: Id)
    requires Kept(s)
    ensures Kept(Abort(s, id)) && (NoneRuns(s) ==> NoneRuns(Abort(s, id)))
  {
    var t := Abort(s, id);
    forall other | other in t.operations
      ensures KeptAt(t, other) && (RunningAs(t, other, CHECKPOINT) ==> RunningAs(s, other, CHECKPOINT))
    {
      assert KeptAt(s, other);
    }
  }

  lemma StopKeeps(s: State, signal: StopSignal)
    requires Kept(s)
    ensures Kept(Stop(s, signal)) && NoneRuns(Stop(s, signal))
  {
    var t := Stop(s, signal);
    forall id | id in t.operations
      ensures KeptAt(t, id) && !RunningAs(t, id, CHECKPOINT)
    {
      assert KeptAt(s, id);
      if RunningAs(s, id, CHECKPOINT) {
        assert s.operations[id].run in set i | i in s.operations.Keys && RunningAs(s, i, CHECKPOINT) :: s.operations[i].run;
      }
    }
    forall run | run in t.aborted
      ensures run < |t.launched|
    {
      if run !in s.aborted {
        var id :| id in s.operations && s.operations[id].run == run;
        assert KeptAt(s, id);
      }
    }
  }

  lemma StartKeeps(s: State, id: Id, name: string)
    requires Kept(s) && NoneRuns(s)
    ensures Kept(Start(s, id, name)) && NoneRuns(Start(s, id, name))
  {
    var listed := s.(operations := s.operations[id := Operation(name, |s.launched|, Running)],
                     launched := s.launched + [Launch(id, name)]);
    assert Kept(listed);
    AbortKeeps(listed, id);
  }

  lemma SettleKeepsOne(s: State, run: nat, ok: bool, id: Id)
    requires run < |s.launched| && id in s.operations && KeptAt(s, id)
    ensures var t := Settle(s, run, ok);
      && id in t.operations && KeptAt(t, id)
      && (RunningAs(t, id, CHECKPOINT) ==> RunningAs(s, id, CHECKPOINT))
  {
  }

  lemma SettleFrame(s: State, run: nat, ok: bool)
    requires run < |s.launched|
    ensures var t := Settle(s, run, ok);
      && t.operations.Keys == s.operations.Keys
      && t.calls == s.calls && t.watching == s.watching && t.launched == s.launched && t.aborted == s.aborted
  {
  }

  lemma SettleKeeps(s: State, run: nat, ok: bool)
    requires run < |s.launched| && Kept(s) && NoneRuns(s)
    ensures Kept(Settle(s, run, ok)) && NoneRuns(Settle(s, run, ok))
  {
    hide Settle;
    hide KeptAt;
    hide RunningAs;
    SettleFrame(s, run, ok);
    var t := Settle(s, run, ok);
    forall id | id in t.operations
      ensures KeptAt(t, id) && (RunningAs(t, id, CHECKPOINT) ==> RunningAs(s, id, CHECKPOINT))
    {
      assert id in s.operations.Keys;
      SettleKeepsOne(s, run, ok, id);
    }
  }

  /** A checkpoint run was aborted, or has settled. */
  ghost predicate Reached(s: State, run: nat)
    requires run < |s.launched|
  {
    s.launched[run].name == "checkpoint" ==> run in s.aborted || run in s.settled
  }

  ghost predicate AllReached(s: State) {
    forall run: nat | run < |s.launched| :: Reached(s, run)
  }

  /** A checkpoint run that goes on is the one its id lists as running: a stop would reach it. */
  ghost predicate Listed(s: State, run: nat)
    requires run < |s.launched|
  {
    var id := s.launched[run].id;
    Reached(s, run) || (RunningAs(s, id, CHECKPOINT) && s.operations[id].run == run)
  }

  ghost predicate AllListed(s: State) {
    forall run: nat | run < |s.launched| :: Listed(s, run)
  }

  /** The start of a run before the stop: one of a checkpoint finds every earlier run of its id
      settled, and one of anything else finds none of a checkpoint going on under its id. */
  ghost predicate Safe(s: State, e: Event) {
    e.Started? && !Stopped(s) ==>
      forall run: nat | run < |s.launched| && s.launched[run].id == e.id && run !in s.settled ::
        e.name != "checkpoint" && Reached(s, run)
  }

  /** Of two unsettled runs under one id, the later is no checkpoint's and the earlier was reached. */
  ghost predicate Apart(s: State) {
    forall i: nat, j: nat | i < j < |s.launched| && s.launched[i].id == s.launched[j].id
                            && i !in s.settled && j !in s.settled ::
      s.launched[j].name != CHECKPOINT && Reached(s, i)
  }

  /** What safe starts keep: before the stop all runs are listed, and since then all are reached. */
  ghost predicate Good(s: State) {
    && Kept(s) && NoneRuns(s)
    && (forall run | run in s.settled :: run < |s.launched|)
    && (s.watching && !Stopped(s) ==> Apart(s) && AllListed(s) && s.heard == {SIGINT, SIGTERM, SIGHUP})
    && (s.watching && Stopped(s) ==> AllReached(s))
  }

  lemma AbortLists(s: State, id: Id, run: nat)
    requires run < |s.launched|
    ensures Listed(s, run) ==> Listed(Abort(s, id), run)
    ensures Reached(s, run) ==> Reached(Abort(s, id), run)
  {
  }

  lemma StopReaches(s: State, signal: StopSignal, run: nat)
    requires run < |s.launched| && Listed(s, run)
    ensures Stop(s, signal).launched == s.launched && Reached(Stop(s, signal), run)
  {
    var id := s.launched[run].id;
    if RunningAs(s, id, CHECKPOINT) && s.operations[id].run == run {
      assert run in set i | i in s.operations.Keys && RunningAs(s, i, CHECKPOINT) :: s.operations[i].run;
    }
  }

  lemma SettleLists(s: State, settled: nat, ok: bool, run: nat)
    requires settled < |s.launched| && settled !in s.settled && run < |s.launched|
    requires Apart(s) && Listed(s, run)
    ensures Listed(Settle(s, settled, ok), run)
  {
    if run != settled && s.launched[run].id == s.launched[settled].id && run !in s.settled {
      assert Reached(s, run);
    }
  }

  lemma SettleReaches(s: State, settled: nat, ok: bool, run: nat)
    requires settled < |s.launched| && run < |s.launched| && Reached(s, run)
    ensures Reached(Settle(s, settled, ok), run)
  {
  }

  lemma StartLists(s: State, id: Id, name: string, run: nat)
    requires AllListed(s) && Safe(s, Started(id, name)) && !Stopped(s) && run <= |s.launched|
    requires |s.launched| !in s.settled
    ensures Listed(Start(s, id, name), run)
  {
    var listed := s.(operations := s.operations[id := Operation(name, |s.launched|, Running)],
                     launched := s.launched + [Launch(id, name)]);
    if run < |s.launched| {
      assert Listed(s, run) && listed.launched[run] == s.launched[run];
      assert s.launched[run].id == id ==> Reached(s, run);
    }
  }

  /** Once the stop was called and while starts are watched, a checkpoint that starts is aborted. */
  lemma StartReaches(s: State, id: Id, name: string, run: nat)
    requires AllReached(s) && Stopped(s) && s.watching && run <= |s.launched|
    ensures Reached(Start(s, id, name), run)
  {
    if run < |s.launched| {
      assert Reached(s, run) && Start(s, id, name).launched[run] == s.launched[run];
    }
  }

  /** The runs only ever settle and are only ever aborted, and two of them stay apart. */
  lemma ApartFurther(s: State, t: State)
    requires Apart(s) && t.launched == s.launched && s.aborted <= t.aborted && s.settled <= t.settled
    ensures Apart(t)
  {
    forall i: nat, j: nat | i < j < |t.launched| && t.launched[i].id == t.launched[j].id
                            && i !in t.settled && j !in t.settled
      ensures t.launched[j].name != CHECKPOINT && Reached(t, i)
    {
      assert Reached(s, i);
    }
  }

  lemma StartApart(s: State, id: Id, name: string)
    requires Apart(s) && Safe(s, Started(id, name)) && !Stopped(s)
    ensures Apart(Start(s, id, name))
  {
    var t := Start(s, id, name);
    forall i: nat, j: nat | i < j < |t.launched| && t.launched[i].id == t.launched[j].id
                            && i !in t.settled && j !in t.settled
      ensures t.launched[j].name != CHECKPOINT && Reached(t, i)
    {
      assert t.launched[i] == s.launched[i];
      assert Reached(s, i);
    }
  }

  lemma StartGood(s: State, id: Id, name: string)
    requires Good(s) && Safe(s, Started(id, name))
    ensures Good(Start(s, id, name))
  {
    var t := Start(s, id, name);
    StartKeeps(s, id, name);
    if s.watching && !Stopped(s) {
      StartApart(s, id, name);
      forall run: nat | run < |t.launched| ensures Listed(t, run) {
        StartLists(s, id, name, run);
      }
    }
    if s.watching && Stopped(s) {
      forall run: nat | run < |t.launched| ensures Reached(t, run) {
        StartReaches(s, id, name, run);
      }
    }
  }

  lemma SettleGood(s: State, settled: nat, ok: bool)
    requires Good(s) && settled < |s.launched| && settled !in s.settled
    ensures Good(Settle(s, settled, ok))
  {
    var t := Settle(s, settled, ok);
    SettleFrame(s, settled, ok);
    SettleKeeps(s, settled, ok);
    if s.watching && !Stopped(s) {
      ApartFurther(s, t);
      forall run: nat | run < |t.launched| ensures Listed(t, run) {
        SettleLists(s, settled, ok, run);
      }
    }
    if s.watching && Stopped(s) {
      forall run: nat | run < |t.launched| ensures Reached(t, run) {
        SettleReaches(s, settled, ok, run);
      }
    }
  }

  lemma CancelGood(s: State, id: Id)
    requires Good(s)
    ensures Good(Abort(s, id))
  {
    var t := Abort(s, id);
    AbortKeeps(s, id);
    assert t.launched == s.launched && s.aborted <= t.aborted && t.settled == s.settled;
    if s.watching && !Stopped(s) {
      ApartFurther(s, t);
    }
    forall run: nat | run < |t.launched|
      ensures Listed(s, run) ==> Listed(t, run)
      ensures Reached(s, run) ==> Reached(t, run)
    {
      AbortLists(s, id, run);
    }
  }

  lemma StopGood(s: State, signal: StopSignal)
    requires Good(s) && (s.watching ==> !Stopped(s))
    ensures Good(Stop(s, signal))
  {
    StopKeeps(s, signal);
    if s.watching {
      forall run: nat | run < |s.launched| ensures Reached(Stop(s, signal), run) {
        assert Listed(s, run);
        StopReaches(s, signal, run);
      }
    }
  }

  /** What is heard is heard until the stop. */
  lemma StepGood(s: State, e: Event)
    requires May(s, e) && Good(s) && Safe(s, e) && (Stopped(s) ==> Deaf(s))
    ensures Good(Step(s, e)) && (Stopped(Step(s, e)) ==> Deaf(Step(s, e)))
  {
    if !s.ended {
      match e
      case Signalled(signal) =>
        if signal in s.heard {
          StopGood(s, signal);
        } else {
          EndGood(s, s.(ended := true));
        }
      case Told(sent) =>
        if s.channel && sent == STOP_MESSAGE {
          StopGood(s, SIGINT);
        }
      case Started(id, name) => StartGood(s, id, name);
      case Settled(run, ok) =>
        SettleFrame(s, run, ok);
        SettleGood(s, run, ok);
      case Cancelled(id) => CancelGood(s, id);
      case Over =>
        EndGood(s, s.(heard := {}, channel := false, watching := false));
    }
  }

  lemma EndGood(s: State, t: State)
    requires Good(s) && t == s.(ended := t.ended, heard := t.heard, channel := t.channel, watching := t.watching)
    requires t.watching ==> s.watching && t.heard == s.heard
    ensures Good(t)
  {
    forall id | id in t.operations ensures KeptAt(t, id) {
      assert KeptAt(s, id);
    }
    if t.watching && !Stopped(t) {
      ApartFurther(s, t);
      forall run: nat | run < |t.launched| ensures Listed(t, run) {
        assert Listed(s, run);
      }
    }
    if t.watching && Stopped(t) {
      forall run: nat | run < |t.launched| ensures Reached(t, run) {
        assert Reached(s, run);
      }
    }
  }

  ghost predicate SafeAll(s: State, events: seq<Event>)
    requires MayAll(s, events)
    decreases |events|
  {
    events == [] || (Safe(s, events[0]) && SafeAll(Step(s, events[0]), events[1..]))
  }

  lemma {:induction false} RunGood(s: State, events: seq<Event>)
    requires MayAll(s, events) && SafeAll(s, events) && Good(s) && (Stopped(s) ==> Deaf(s))
    ensures Good(After(s, events))
    decreases |events|
  {
    if events != [] {
      StepGood(s, events[0]);
      RunGood(Step(s, events[0]), events[1..]);
    }
  }

  /** Over every order of events whose starts are safe: once the stop was called and until the request
      is over, every checkpoint run was aborted or had settled, one started after the signal
      included. A start after the stop is always safe. */
  lemma StopReachesAll(channel: bool, events: seq<Event>)
    requires MayAll(Begun(channel), events) && SafeAll(Begun(channel), events)
    ensures var t := After(Begun(channel), events); Stopped(t) && t.watching ==> AllReached(t)
  {
    RunGood(Begun(channel), events);
  }

  /** Why a run was aborted: it is a checkpoint's and the stop was called, or its id was cancelled. */
  ghost predicate Asked(s: State, events: seq<Event>, run: nat)
    requires run < |s.launched|
  {
    (s.launched[run].name == "checkpoint" && Stopped(s)) || Cancelled(s.launched[run].id) in events
  }

  lemma AskedStep(s: State, e: Event, run: nat)
    requires May(s, e) && Kept(s) && run in Step(s, e).aborted && run !in s.aborted
    ensures run < |Step(s, e).launched| && Asked(Step(s, e), [e], run)
  {
    var t := Step(s, e);
    match e
    case Signalled(_) => StopAsked(s, t, run);
    case Told(_) => StopAsked(s, t, run);
    case Cancelled(id) =>
      assert KeptAt(s, id);
    case _ =>
  }

  lemma StopAsked(s: State, t: State, run: nat)
    requires Kept(s) && run in t.aborted && run !in s.aborted && exists signal :: t == Stop(s, signal)
    ensures run < |t.launched| && t.launched == s.launched && t.launched[run].name == "checkpoint" && Stopped(t)
  {
    var id :| id in s.operations && RunningAs(s, id, CHECKPOINT) && s.operations[id].run == run;
    assert KeptAt(s, id);
  }

  lemma StepKeeps(s: State, e: Event)
    requires May(s, e) && Kept(s) && NoneRuns(s)
    ensures Kept(Step(s, e)) && NoneRuns(Step(s, e))
    ensures s.launched <= Step(s, e).launched && (Stopped(s) ==> Stopped(Step(s, e)))
  {
    if !s.ended {
      match e
      case Signalled(signal) => StopKeeps(s, signal);
      case Told(_) => StopKeeps(s, SIGINT);
      case Started(id, name) => StartKeeps(s, id, name);
      case Settled(run, ok) =>
        SettleFrame(s, run, ok);
        SettleKeeps(s, run, ok);
      case Cancelled(id) => AbortKeeps(s, id);
      case Over => assert forall id | id in s.operations :: KeptAt(s, id);
    }
  }

  lemma {:induction false} LaunchedStay(s: State, events: seq<Event>)
    requires MayAll(s, events) && Kept(s) && NoneRuns(s)
    ensures s.launched <= After(s, events).launched && (Stopped(s) ==> Stopped(After(s, events)))
    decreases |events|
  {
    if events != [] {
      StepKeeps(s, events[0]);
      LaunchedStay(Step(s, events[0]), events[1..]);
    }
  }

  /** Whatever happens, in whatever order, no run is aborted but a checkpoint's once the stop was
      called, and one whose id was cancelled. */
  lemma {:induction false} OnlyAskedAborted(s: State, events: seq<Event>, run: nat)
    requires MayAll(s, events) && Kept(s) && NoneRuns(s)
    requires run in After(s, events).aborted && run !in s.aborted
    ensures run < |After(s, events).launched| && Asked(After(s, events), events, run)
    decreases |events|
  {
    var e, rest := events[0], events[1..];
    var next := Step(s, e);
    StepKeeps(s, e);
    LaunchedStay(next, rest);
    if run in next.aborted {
      AskedStep(s, e, run);
      assert e in events;
    } else {
      OnlyAskedAborted(next, rest, run);
    }
  }

  /** Every stop that may follow, whatever safe starts, ends and cancels come before it, reaches every
      checkpoint run. */
  ghost predicate EveryStopReaches(s: State) {
    forall more | MayAll(s, more) && SafeAll(s, more) ::
      Stopped(After(s, more)) && After(s, more).watching ==> AllReached(After(s, more))
  }

  /** No weaker guard will do: while signals are heard, a start is safe if and only if every stop that
      may follow it reaches every checkpoint run. */
  lemma SafeIffEveryStopReaches(channel: bool, events: seq<Event>, id: Id, name: string)
    requires MayAll(Begun(channel), events) && SafeAll(Begun(channel), events)
    requires var s := After(Begun(channel), events); s.watching && !s.ended && !Stopped(s)
    ensures var s := After(Begun(channel), events);
      Safe(s, Started(id, name)) <==> EveryStopReaches(Step(s, Started(id, name)))
  {
    RunGood(Begun(channel), events);
    var s := After(Begun(channel), events);
    var next := Step(s, Started(id, name));
    if Safe(s, Started(id, name)) {
      StepGood(s, Started(id, name));
      forall more | MayAll(next, more) && SafeAll(next, more)
        ensures Stopped(After(next, more)) && After(next, more).watching ==> AllReached(After(next, more))
      {
        RunGood(next, more);
      }
    } else {
      var run: nat :| run < |s.launched| && s.launched[run].id == id && run !in s.settled
                      && !(name != CHECKPOINT && Reached(s, run));
      UnsafeStartEscapes(s, id, name, run);
    }
  }

  /** A run that goes on under the id of the one that starts: if the new one is a checkpoint's, the old
      one's end is marked on it, and the stop then passes it by; if the old one is, the registry lists
      it no more. */
  lemma UnsafeStartEscapes(s: State, id: Id, name: string, run: nat)
    requires Good(s) && s.watching && !s.ended && !Stopped(s)
    requires run < |s.launched| && s.launched[run].id == id && run !in s.settled
    requires name == CHECKPOINT || !Reached(s, run)
    ensures !EveryStopReaches(Step(s, Started(id, name)))
  {
    StartKeeps(s, id, name);
    if name == CHECKPOINT {
      NewRunEscapes(s, id, run);
    } else {
      OldRunEscapes(s, id, name, run);
    }
  }

  lemma NewRunEscapes(s: State, id: Id, run: nat)
    requires Good(s) && s.watching && !s.ended && !Stopped(s)
    requires run < |s.launched| && s.launched[run].id == id && run !in s.settled
    requires Kept(Step(s, Started(id, CHECKPOINT)))
    ensures !EveryStopReaches(Step(s, Started(id, CHECKPOINT)))
  {
    var u := Step(s, Started(id, CHECKPOINT));
    var signal, settle := Signalled(SIGINT), Event.Settled(run, true);
    assert u.launched[run] == s.launched[run];
    var v := Step(u, settle);
    assert RunningAs(u, id, CHECKPOINT) && u.operations[id].run == |s.launched|;
    StopPasses(v, |s.launched|);
    assert [settle, signal][1..] == [signal] && [signal][1..] == [];
    assert MayAll(v, [signal]);
    assert v.heard == s.heard && Step(v, signal) == Stop(v, SIGINT);
    assert After(v, [signal]) == Stop(v, SIGINT);
    assert SafeAll(v, [signal]) && SafeAll(u, [settle, signal]);
  }

  lemma OldRunEscapes(s: State, id: Id, name: string, run: nat)
    requires Good(s) && s.watching && !s.ended && !Stopped(s) && name != CHECKPOINT
    requires run < |s.launched| && s.launched[run].id == id && run !in s.settled && !Reached(s, run)
    requires Kept(Step(s, Started(id, name)))
    ensures !EveryStopReaches(Step(s, Started(id, name)))
  {
    var u := Step(s, Started(id, name));
    var signal := Signalled(SIGINT);
    assert u.launched[run] == s.launched[run];
    StopPasses(u, run);
    assert [signal][1..] == [];
    assert MayAll(u, [signal]) && SafeAll(u, [signal]);
    assert u.heard == s.heard && After(u, [signal]) == Stop(u, SIGINT);
  }

  /** A run the registry lists as running nowhere is not aborted by a stop. */
  lemma StopPasses(s: State, run: nat)
    requires Kept(s) && run < |s.launched| && !Reached(s, run)
    requires forall id | RunningAs(s, id, CHECKPOINT) :: s.operations[id].run != run
    ensures Stop(s, SIGINT).launched == s.launched && !Reached(Stop(s, SIGINT), run)
  {
  }
}
