/** One autopilot run, from its gate to its end, whatever each step outside it answers. */
module AutopilotRun {
  import opened Options
  import opened WritePath

  // ----- What the run meets outside itself

  /** The mute's plan: not asked, prepared (some of it to lease, or nothing), refused, or failed. */
  datatype Mute = NotAsked | Prepared(leases: bool) | MuteRefused | MuteThrew

  /** The scope of the checkpoint: an estimate, refused or not, or a failure. */
  datatype Scope = Estimated(refused: bool) | ScopeThrew

  /** The fit: not asked, nothing changed, refused, or a plan of other rows, whose checkpoint may
      have to be scoped again. */
  datatype Fit = NoFit | Unchanged | FitRefused | Fitted(rows: nat, narrowed: bool, rescope: Scope)

  datatype Take = Taken | TakeRefused | TakeThrew | TakeStopped

  datatype Acquire = Acquired | AcquireRefused | AcquireThrew

  datatype Check = Holds | Refuses

  /** One write: the answer told of so many records written, or never came though so many were. */
  datatype Answer = Answered(records: nat) | Lost(records: nat)

  /** A call of the executor: whether a stop signal is heard before it, its answer, and whether the
      run fails on it. */
  datatype Call = Call(signal: bool, answer: Answer, fails: bool)

  datatype Deletion = Deleted | Busy | DeletionThrew

  /** Where a second signal ends the process at once: before the checkpoint is taken, once it is,
      once the lease is acquired, in a write call that comes after so many others, once the writes are
      over, or once the lease was asked back. */
  datatype Moment = BeforeTake | Took | Leased | InCall(after: nat) | WritesOver | Unsettled

  /** All that the run is answered. */
  datatype Answers = Answers(
    planOnly: bool,
    checkpointAsked: bool,
    rows: nat,
    maxTotal: nat,
    otherRefusal: bool,
    sendersLeft: bool,
    mute: Mute,
    scope: Scope,
    fit: Fit,
    take: Take,
    acquire: Acquire,
    check: Check,
    calls: seq<Call>,
    takenBack: bool,
    deletion: Deletion,
    killed: Option<Moment>)

  /** The rows the plan writes once fitted. */
  function RowsOf(w: Answers): nat {
    if w.fit.Fitted? then w.fit.rows else w.rows
  }

  /** What the fit and the executor promise: a fit keeps no more rows than the plan counted, and a source
      that holds more is refused; and no row is read, so none written, past those counted. */
  predicate AsPromised(w: Answers) {
    RowsOf(w) <= w.rows && (RowsOf(w) == 0 ==> w.calls == [])
  }

  /** Ten rows to write, a checkpoint and a lease asked for, and one write, answered. */
  const ORDINARY := Answers(
    false, true, 10, 100, false, false, Prepared(true), Estimated(false), NoFit, Taken, Acquired, Holds,
    [Call(false, Answered(10), false)], true, Deleted, None)

  type World = w: Answers | AsPromised(w) witness ORDINARY

  datatype Exit = Planned | Refused | Failed | Stopped | Killed | Ended

  /** The lease: none, held, given back whole, or asked back with some of it still assigned. */
  datatype Lease = NoLease | Held | GivenBack | LeftInPart

  /** The fate of a checkpoint: kept for a rewind, or deleted. */
  datatype Fate = NotSettled | Kept | Removed

  // ----- The gate, as its reasons say it

  /** The last scope the checkpoint was given, or nothing when it has none. */
  function ScopeOf(w: World): Scope
    requires w.checkpointAsked && w.rows > 0
  {
    if w.scope.Estimated? && w.fit.Fitted? && w.fit.narrowed then w.fit.rescope else w.scope
  }

  /** Whether anything at the gate refuses the run. */
  predicate GateRefuses(w: World) {
    || (w.checkpointAsked && w.rows > 0 && ScopeOf(w) != Estimated(false))
    || RowsOf(w) > w.maxTotal
    || w.otherRefusal
    || w.mute.MuteRefused?
    || w.fit.FitRefused?
  }

  // ----- What each answer of the world lets the run do

  predicate GoesOn(w: World) {
    !w.planOnly && !GateRefuses(w) && !w.mute.MuteThrew?
  }

  predicate WantsCheckpoint(w: World) {
    w.checkpointAsked && w.rows > 0
  }

  predicate WantsLease(w: World) {
    w.mute.Prepared? && w.mute.leases
  }

  predicate PastTake(w: World) {
    && GoesOn(w) && w.killed != Some(BeforeTake)
    && (WantsCheckpoint(w) ==> w.take == Taken)
  }

  predicate PastLease(w: World) {
    && PastTake(w) && w.killed != Some(Took)
    && (WantsLease(w) ==> w.acquire == Acquired)
  }

  predicate TakesCheckpoint(w: World) {
    PastTake(w) && WantsCheckpoint(w)
  }

  predicate TakesLease(w: World) {
    PastLease(w) && WantsLease(w)
  }

  predicate Executes(w: World) {
    && PastLease(w) && w.killed != Some(Leased)
    && (WantsLease(w) && RowsOf(w) > 0 ==> w.check == Holds)
  }

  /** Whether the process is ended in one of the calls the executor makes. */
  predicate KilledInCall(w: World) {
    Executes(w) && w.killed.Some? && w.killed.value.InCall? && w.killed.value.after < |Made(w.calls)|
  }

  /** Whether the run comes to the moment at which the process is ended. */
  predicate IsKilled(w: World) {
    w.killed.Some? &&
    match w.killed.value
    case BeforeTake => GoesOn(w)
    case Took => PastTake(w)
    case Leased => PastLease(w)
    case InCall(_) => KilledInCall(w)
    case WritesOver => PastLease(w)
    case Unsettled => GoesOn(w)
  }

  /** Ended between the lease's acquisition and its release. */
  predicate KilledHolding(w: World) {
    TakesLease(w) && IsKilled(w) && w.killed != Some(Unsettled)
  }

  /** The calls the executor makes: none from the one a stop is heard before, none after a failure. */
  function Made(calls: seq<Call>): seq<Call> {
    if calls == [] || calls[0].signal then []
    else if calls[0].fails then [calls[0]]
    else [calls[0]] + Made(calls[1..])
  }

  /** The calls as their answers came: the one the process was ended in is never heard of. */
  function Heard(w: World): seq<Call> {
    var made := Made(w.calls);
    if !Executes(w) then []
    else if KilledInCall(w) then
      var k := w.killed.value.after;
      made[..k] + [made[k].(answer := Lost(made[k].answer.records))]
    else made
  }

  function Told(calls: seq<Call>): nat {
    if calls == [] then 0
    else (if calls[0].answer.Answered? then calls[0].answer.records else 0) + Told(calls[1..])
  }

  function LostIn(calls: seq<Call>): nat {
    if calls == [] then 0
    else (if calls[0].answer.Lost? then calls[0].answer.records else 0) + LostIn(calls[1..])
  }

  /** Two runs made the same steps but for the writes and what follows them. */
  ghost predicate SameElsewhere(a: set<Step>, b: set<Step>) {
    && (CheckpointTake in a <==> CheckpointTake in b)
    && (LeaseAcquire in a <==> LeaseAcquire in b)
    && (AfterLeaseCheck in a <==> AfterLeaseCheck in b)
  }

  class Run {
    /** What the run did, in order. */
    ghost var log: Log
    var wroteToTarget: bool
    var aborted: bool
    var checkpointTaken: bool
    var lease: Lease
    var checkpoint: Fate
    ghost var settled: nat
    /** Records an answer told of, and records written whose answer was lost. */
    ghost var told: nat
    ghost var lost: nat

    ghost function Steps(): seq<Step>
      reads this`log
    {
      Listed(log.trail)
    }

    /** What the fields say of the steps, up to the end of the writes. */
    ghost predicate Running()
      reads this
    {
      && (wroteToTarget <==> told > 0)
      && (told + lost > 0 ==> Write in log.seen)
      && (lease == NoLease <==> LeaseAcquire !in log.seen)
      && (lease == GivenBack || lease == LeftInPart <==> LeaseRelease in log.seen)
      && (checkpointTaken <==> CheckpointTake in log.seen)
      && checkpoint == NotSettled && settled == 0 && Result !in log.seen
    }

    constructor ()
      ensures Running() && log.seen == {} && log.rank == 0 && !aborted && told == 0 && lost == 0
    {
      log := Progress(Start, {}, 0);
      wroteToTarget, aborted, checkpointTaken, lease, checkpoint := false, false, false, NoLease, NotSettled;
      settled, told, lost := 0, 0, 0;
    }

    /** Asks the lease back once, and never fails: all of it comes back, or some stays assigned. A
        second asking changes nothing. */
    method Release(takenBack: bool)
      requires lease == Held ==> log.rank <= 8
      modifies this`log, this`lease
      ensures old(lease) == Held ==>
        && lease == (if takenBack then GivenBack else LeftInPart)
        && log.seen == old(log).seen + {LeaseRelease} && log.rank == 8
      ensures old(lease) != Held ==> lease == old(lease) && log.seen == old(log).seen && log.rank == old(log).rank
    {
      if lease == Held {
        log := Then(log, LeaseRelease);
        lease := if takenBack then GivenBack else LeftInPart;
      }
    }

    /** One write of the executor, through the run's own insert or update. */
    method WriteOnce(answer: Answer)
      requires Running() && log.rank <= 7
      modifies this
      ensures Running() && log.rank == 7 && log.seen == old(log).seen + {Write}
      ensures lease == old(lease) && checkpointTaken == old(checkpointTaken) && aborted == old(aborted)
      ensures told == old(told) + (if answer.Answered? then answer.records else 0)
      ensures lost == old(lost) + (if answer.Lost? then answer.records else 0)
    {
      hide Keeps;
      hide Ordered;
      hide SetOf;
      log := Then(log, Write);
      match answer
      case Answered(records) =>
        if records > 0 {
          wroteToTarget := true;
        }
        told := told + records;
      case Lost(records) =>
        lost := lost + records;
    }

    /** The executor's calls, in their order, none begun once a stop is heard; the process may be
        ended in any of them. */
    method MakeCalls(w: World) returns (exit: Exit)
      requires Running() && log.rank <= 7 && Write !in log.seen && !aborted && Executes(w)
      modifies this
      ensures Running() && log.rank <= 7 && lease == old(lease)
      ensures log.seen == if Made(w.calls) == [] then old(log).seen else old(log).seen + {Write}
      ensures told == old(told) + Told(Heard(w)) && lost == old(lost) + LostIn(Heard(w))
      ensures exit == Ended || exit == Failed || exit == Killed
      ensures exit == Killed <==> KilledInCall(w)
    {
      hide Keeps;
      hide Ordered;
      hide SetOf;
      hide Heard;
      hide Made;
      var i := 0;
      assert w.calls[0..] == w.calls;
      assert Made(w.calls)[0..] == Made(w.calls);
      while i < |w.calls|
        invariant 0 <= i <= |w.calls| && Running() && log.rank <= 7 && lease == old(lease) && !aborted
        invariant log.seen == if i == 0 then old(log).seen else old(log).seen + {Write}
        invariant MadeSoFar(w, i)
        invariant KilledInCall(w) ==> i <= w.killed.value.after
        invariant told == old(told) + Told(Made(w.calls)[..i])
        invariant lost == old(lost) + LostIn(Made(w.calls)[..i])
      {
        var call := w.calls[i];
        MadeNext(w, i);
        if call.signal {
          aborted := true;
        }
        if aborted {
          CallsEnd(w, i);
          return Ended;
        }
        HeardNext(w, i);
        if w.killed == Some(InCall(i)) {
          WriteOnce(Lost(call.answer.records));
          return Killed;
        }
        WriteOnce(call.answer);
        i := i + 1;
        if call.fails {
          CallsEnd(w, i);
          return Failed;
        }
      }
      CallsEnd(w, i);
      return Ended;
    }

    /** The executor: its calls, then the lease asked back, then the read of what types the records
        were given. */
    method ExecutePlan(w: World) returns (exit: Exit)
      requires Running() && log.rank <= 7 && (lease == NoLease || lease == Held) && Write !in log.seen && !aborted && Executes(w)
      modifies this
      ensures Running() && (lease == Held ==> log.rank <= 7) && log.rank <= 9
      ensures SameElsewhere(log.seen, old(log).seen)
      ensures exit == Ended || exit == Failed || exit == Killed
      ensures exit == Killed <==> KilledInCall(w) || w.killed == Some(WritesOver)
      ensures exit == Ended ==> lease != Held
      ensures exit == Failed || exit == Killed ==> lease == old(lease)
      ensures lease == old(lease) || (old(lease) == Held && lease == if w.takenBack then GivenBack else LeftInPart)
      ensures Write in log.seen <==> Made(w.calls) != []
      ensures told == old(told) + Told(Heard(w)) && lost == old(lost) + LostIn(Heard(w))
    {
      hide Keeps;
      hide Ordered;
      hide SetOf;
      hide Heard;
      hide Made;
      hide PastLease;
      hide PastTake;
      exit := MakeCalls(w);
      if exit == Killed || w.killed == Some(WritesOver) {
        return Killed;
      }
      if exit == Failed {
        return;
      }
      Release(w.takenBack);
      log := Then(log, RecordTypeReadBack);
    }

    /** The path past the gate, as the run's `try` holds it. */
    method PastGate(w: World) returns (exit: Exit)
      requires Running() && log.rank <= 3 && !aborted && told == 0 && lost == 0 && GoesOn(w)
      modifies this
      ensures Running() && log.rank <= 9 && exit != Planned
      ensures CheckpointTake in log.seen <==> TakesCheckpoint(w)
      ensures LeaseAcquire in log.seen <==> TakesLease(w)
      ensures Write in log.seen <==> Executes(w) && Made(w.calls) != []
      ensures told == Told(Heard(w)) && lost == LostIn(Heard(w))
      ensures TakesLease(w) ==> lease == if KilledHolding(w) then Held else if w.takenBack then GivenBack else LeftInPart
      ensures exit == Killed <==> IsKilled(w) && w.killed != Some(Unsettled)
      ensures exit == Refused ==> Write !in log.seen
      ensures exit == Refused ==> w.take == TakeRefused || w.take == TakeThrew || w.acquire == AcquireRefused || w.check == Refuses
    {
      hide Keeps;
      hide Ordered;
      hide SetOf;
      hide Made;
      hide GoesOn;
      forall step | Rank(step) > 3 ensures step !in log.seen {
        SeenWithin(log, step);
      }
      if !Executes(w) {
        NoneHeard(w);
      }
      if w.killed == Some(BeforeTake) {
        return Killed;
      }
      if w.checkpointAsked && w.rows > 0 {
        match w.take {
          case TakeRefused | TakeThrew => return Refused;
          case TakeStopped => return Stopped;
          case Taken =>
            log := Then(log, CheckpointTake);
            checkpointTaken := true;
        }
      }
      if w.killed == Some(Took) {
        return Killed;
      }
      if w.mute.Prepared? && w.mute.leases {
        match w.acquire {
          case AcquireRefused => return Refused;
          case AcquireThrew => return Failed;
          case Acquired =>
            log := Then(log, LeaseAcquire);
            lease := Held;
        }
      }
      exit := CheckAndWrite(w);
    }

    /** The lease read back against its plan, the writes, and the lease given back. */
    method CheckAndWrite(w: World) returns (exit: Exit)
      requires Running() && log.rank <= 5 && PastLease(w) && Write !in log.seen && AfterLeaseCheck !in log.seen
      requires lease == if WantsLease(w) then Held else NoLease
      requires !aborted && told == 0 && lost == 0
      modifies this
      ensures Running() && log.rank <= 9 && exit != Planned
      ensures CheckpointTake in log.seen <==> CheckpointTake in old(log).seen
      ensures LeaseAcquire in log.seen <==> LeaseAcquire in old(log).seen
      ensures WantsLease(w) ==> lease == if KilledHolding(w) then Held else if w.takenBack then GivenBack else LeftInPart
      ensures exit == Killed <==> w.killed == Some(Leased) || w.killed == Some(WritesOver) || KilledInCall(w)
      ensures Write in log.seen <==> Executes(w) && Made(w.calls) != []
      ensures told == Told(Heard(w)) && lost == LostIn(Heard(w))
      ensures exit == Refused ==> Write !in log.seen && w.check == Refuses
    {
      hide Keeps;
      hide Ordered;
      hide SetOf;
      hide Heard;
      hide Made;
      hide GoesOn;
      if !Executes(w) {
        NoneHeard(w);
      }
      if w.killed == Some(Leased) {
        return Killed;
      }
      if lease == Held && RowsOf(w) > 0 {
        log := Then(log, AfterLeaseCheck);
        if w.check == Refuses {
          if w.killed == Some(WritesOver) {
            return Killed;
          }
          Release(w.takenBack);
          return Refused;
        }
      }
      exit := ExecutePlan(w);
      if exit != Killed {
        Release(w.takenBack);
      }
    }

    /** The checkpoint's scope, and the rows the plan writes once fitted. */
    method Plan(w: World) returns (planned: Scoping, rows: nat)
      ensures rows == RowsOf(w)
      ensures planned == NoScope <==> !(w.checkpointAsked && w.rows > 0)
      ensures w.checkpointAsked && w.rows > 0 ==> (planned == Allowed <==> ScopeOf(w) == Estimated(false))
    {
      planned := if w.checkpointAsked && w.rows > 0 then Scoped(w.scope) else NoScope;
      rows := w.rows;
      if w.fit.Fitted? {
        rows := w.fit.rows;
        if w.fit.narrowed && (planned == Allowed || planned == Denied) {
          planned := Scoped(w.fit.rescope);
        }
      }
    }

    /** The steps of the gate: the mute planned, what still runs, the deliverability, the question. */
    method LogPlan(w: World, stillRunning: bool, deliverability: bool)
      requires Running() && log.rank == 0
      modifies this`log
      ensures Running() && log.rank <= 3
    {
      hide Keeps;
      hide Ordered;
      hide SetOf;
      log := Reach(log, LeasePlan, w.mute.Prepared? || w.mute.MuteRefused?);
      log := Reach(log, StillRunning, stillRunning);
      log := Reach(log, DeliverabilityRead, deliverability);
      log := Then(log, Question);
    }

    /** What the run reads and plans, and whether it goes on. */
    method Gate(w: World) returns (exit: Exit)
      requires Running() && log.seen == {} && log.rank == 0
      modifies this`log
      ensures Running() && log.rank <= 3
      ensures exit == Ended <==> !w.planOnly && !GateRefuses(w) && !w.mute.MuteThrew?
      ensures exit == Refused || exit == Ended || exit == Planned || exit == Failed
      // Each reason refuses a real run, and nothing else does: the last scope refused, failed or refused again
      // once the fit narrowed it; more rows than may be written; another refusal; the mute's; the fit's.
      ensures exit == Failed <==> w.mute.MuteThrew?
      ensures exit == Planned <==> w.planOnly && !w.mute.MuteThrew?
      ensures exit == Refused <==>
              && !w.planOnly && !w.mute.MuteThrew?
              && (|| (w.checkpointAsked && w.rows > 0 &&
                      (if w.scope.Estimated? && w.fit.Fitted? && w.fit.narrowed then w.fit.rescope else w.scope) != Estimated(false))
                  || (if w.fit.Fitted? then w.fit.rows else w.rows) > w.maxTotal
                  || w.otherRefusal
                  || w.mute.MuteRefused?
                  || w.fit.FitRefused?)
    {
      GateReasons(w);
      hide Keeps;
      hide Ordered;
      hide SetOf;
      hide ScopeOf;
      log := Then(log, Reads);
      if w.mute.MuteThrew? {
        return Failed;
      }
      var planned, rows := Plan(w);
      LogPlan(w, planned != NoScope || rows > 0, rows > 0 && w.sendersLeft);
      exit := if w.planOnly then Planned
              else if planned == Denied || planned == ScopeFailed || rows > w.maxTotal || w.otherRefusal
                || w.mute.MuteRefused? || w.fit.FitRefused? then Refused
              else Ended;
    }

    /** The checkpoint's fate: deleted when nothing is known written, unless its deletion fails. */
    method Settle(deletion: Deletion)
      requires checkpoint == NotSettled && settled == 0
      modifies this`checkpoint, this`settled
      ensures settled == 1 && checkpoint == if !wroteToTarget && deletion == Deleted then Removed else Kept
    {
      settled := settled + 1;
      if wroteToTarget {
        checkpoint := Kept;
      } else {
        match deletion
        case Deleted => checkpoint := Removed;
        case Busy | DeletionThrew => checkpoint := Kept;
      }
    }

    /** The run: its gate, then, past it, its writes, and whatever they ended on but the end of the
        process, the checkpoint kept or deleted. */
    method RunThrough(w: World) returns (exit: Exit)
      requires Running() && log.seen == {} && log.rank == 0 && !aborted && told == 0 && lost == 0
      modifies this
      ensures LeaseAcquire in log.seen && LeaseRelease !in log.seen <==> lease == Held
      ensures lease == NoLease <==> !TakesLease(w)
      ensures TakesLease(w) ==> lease == if KilledHolding(w) then Held else if w.takenBack then GivenBack else LeftInPart
      ensures CheckpointTake in log.seen <==> TakesCheckpoint(w)
      ensures LeaseAcquire in log.seen <==> TakesLease(w)
      ensures Write in log.seen <==> Executes(w) && Made(w.calls) != []
      ensures told == Told(Heard(w)) && lost == LostIn(Heard(w))
      ensures settled == if TakesCheckpoint(w) && !IsKilled(w) then 1 else 0
      ensures checkpoint == NotSettled <==> settled == 0
      ensures checkpoint == Removed <==> settled == 1 && told == 0 && w.deletion == Deleted
      ensures exit == Ended <==> Result in log.seen
      ensures exit == Killed <==> IsKilled(w)
      ensures exit == Refused ==> told + lost == 0
      ensures GateRefuses(w) && !w.planOnly && !w.mute.MuteThrew? ==> exit == Refused
      ensures exit == Refused ==>
        || GateRefuses(w)
        || w.take == TakeRefused || w.take == TakeThrew || w.acquire == AcquireRefused || w.check == Refuses
    {
      hide Keeps;
      hide Ordered;
      hide SetOf;
      exit := Gate(w);
      forall step | Rank(step) > 3 ensures step !in log.seen {
        SeenWithin(log, step);
      }
      if exit == Ended {
        exit := PastGate(w);
        if exit == Killed || w.killed == Some(Unsettled) {
          return Killed;
        }
        if checkpointTaken {
          Settle(w.deletion);
        }
        if exit == Ended {
          log := Then(log, Result);
        }
      }
    }
  }

  /** What every run keeps, whatever each step outside it answers, and wherever a second signal ends
      the process. */
  method Autopilot(w: World) returns (exit: Exit, run: Run)
    // The order of the write path is kept, but for a lease never given back: it is left held exactly
    // when the process is ended between its acquisition and its release, and is otherwise asked back
    // once.
    ensures OrderDefects(run.Steps()) == if KilledHolding(w) then [LeaseNeverGivenBack] else []
    ensures run.lease ==
      if !TakesLease(w) then NoLease
      else if KilledHolding(w) then Held
      else if w.takenBack then GivenBack
      else LeftInPart
    // A checkpoint asked for a plan that writes rows is taken past the gate of a real run, and
    // nothing is leased or written without it; a lease past that; and a write past a lease that
    // holds what the gate was told of, and never once a stop is heard.
    ensures CheckpointTake in run.Steps() <==> TakesCheckpoint(w)
    ensures LeaseAcquire in run.Steps() <==> TakesLease(w)
    ensures Write in run.Steps() <==> Executes(w) && Made(w.calls) != []
    // Where one is asked for, its taking is over before any record is written.
    ensures w.checkpointAsked && Write in run.Steps() ==>
      0 <= Last(run.Steps(), CheckpointTake) < First(run.Steps(), Write)
    // What was written: what an answer told of, and what was written with no answer heard.
    ensures run.told == Told(Heard(w)) && run.lost == LostIn(Heard(w))
    // A checkpoint taken is settled once, unless the process is ended first, and deleted only if no
    // answer told of a record written.
    ensures run.settled == if TakesCheckpoint(w) && !IsKilled(w) then 1 else 0
    ensures run.checkpoint == NotSettled <==> run.settled == 0
    ensures run.checkpoint == Removed <==>
      TakesCheckpoint(w) && !IsKilled(w) && w.deletion == Deleted && Told(Heard(w)) == 0
    ensures run.checkpoint == Removed && run.lost > 0 <==> LosesCheckpoint(w)
    ensures exit == Killed <==> IsKilled(w)
    ensures exit == Ended <==> Result in run.Steps()
    ensures exit == Refused ==> run.told + run.lost == 0
    // So, answer by answer: a record is written only by a real run, no more than may be, refused by nothing at
    // its gate, the last scope of a checkpoint asked for an estimate that is not refused, the checkpoint
    // taken, the lease acquired and holding.
    ensures Write in run.Steps() ==>
      && !w.planOnly && !w.otherRefusal && !w.mute.MuteRefused? && !w.mute.MuteThrew? && !w.fit.FitRefused?
      && (if w.fit.Fitted? then w.fit.rows else w.rows) <= w.maxTotal
      && (w.checkpointAsked ==>
            && (if w.scope.Estimated? && w.fit.Fitted? && w.fit.narrowed then w.fit.rescope else w.scope) == Estimated(false)
            && w.take == Taken)
      && (w.mute == Prepared(true) ==> w.acquire == Acquired && w.check == Holds)
      && w.calls != [] && !w.calls[0].signal
    // And by every such run that no second signal ends.
    ensures
      && w.killed.None?
      && !w.planOnly && !w.otherRefusal && !w.mute.MuteRefused? && !w.mute.MuteThrew? && !w.fit.FitRefused?
      && (if w.fit.Fitted? then w.fit.rows else w.rows) <= w.maxTotal
      && (w.checkpointAsked ==>
            && (if w.scope.Estimated? && w.fit.Fitted? && w.fit.narrowed then w.fit.rescope else w.scope) == Estimated(false)
            && w.take == Taken)
      && (w.mute == Prepared(true) ==> w.acquire == Acquired && w.check == Holds)
      && w.calls != [] && !w.calls[0].signal
      ==> Write in run.Steps()
    // Each reason at the gate refuses a real run; past it, only the checkpoint, the lease or its check does.
    ensures !w.planOnly && !w.mute.MuteThrew? && (
        || (w.checkpointAsked && w.rows > 0 &&
            (if w.scope.Estimated? && w.fit.Fitted? && w.fit.narrowed then w.fit.rescope else w.scope) != Estimated(false))
        || (if w.fit.Fitted? then w.fit.rows else w.rows) > w.maxTotal
        || w.otherRefusal || w.mute.MuteRefused? || w.fit.FitRefused?)
      ==> exit == Refused
    ensures exit == Refused ==>
      || (w.checkpointAsked && w.rows > 0 &&
          (if w.scope.Estimated? && w.fit.Fitted? && w.fit.narrowed then w.fit.rescope else w.scope) != Estimated(false))
      || (if w.fit.Fitted? then w.fit.rows else w.rows) > w.maxTotal
      || w.otherRefusal || w.mute.MuteRefused? || w.fit.FitRefused?
      || w.take == TakeRefused || w.take == TakeThrew || w.acquire == AcquireRefused || w.check == Refuses
    // A checkpoint and a lease are taken exactly by what the gate lets pass, asked for and answered so.
    ensures CheckpointTake in run.Steps() <==>
      && LetPass(w) && w.checkpointAsked && w.rows > 0 && w.take == Taken && w.killed != Some(BeforeTake)
    ensures LeaseAcquire in run.Steps() <==>
      && LetPass(w) && (w.checkpointAsked && w.rows > 0 ==> w.take == Taken)
      && w.mute == Prepared(true) && w.acquire == Acquired && w.killed != Some(BeforeTake) && w.killed != Some(Took)
    // What a second signal leaves behind, by when it comes.
    ensures exit == Killed ==> w.killed.Some?
    ensures w.killed.None? && CheckpointTake in run.Steps() ==> run.settled == 1
    ensures w.killed.None? && LeaseAcquire in run.Steps() ==> run.lease == if w.takenBack then GivenBack else LeftInPart
    ensures w.killed == Some(BeforeTake) ==> CheckpointTake !in run.Steps()
    ensures w.killed == Some(BeforeTake) || w.killed == Some(Took) ==> LeaseAcquire !in run.Steps()
    ensures w.killed == Some(BeforeTake) || w.killed == Some(Took) || w.killed == Some(Leased) ==> Write !in run.Steps()
    ensures (w.killed == Some(Leased) || w.killed == Some(WritesOver)) && LeaseAcquire in run.Steps() ==> run.lease == Held
    ensures w.killed == Some(Unsettled) ==> run.lease != Held && run.settled == 0
  {
    hide First;
    hide Last;
    hide OrderDefects;
    hide Listed;
    hide Made;
    hide Heard;
    hide PastTake;
    hide PastLease;
    hide Executes;
    hide IsKilled;
    hide LetPass;
    run := new Run();
    exit := run.RunThrough(w);
    GateReasons(w);
    AnswersSay(w);
    AnswersTake(w);
    LogDefects(run.log);
    LogKeepsOrder(run.log, CheckpointTake, Write);
    if w.checkpointAsked && Executes(w) && Made(w.calls) != [] {
      WritesWithCheckpoint(w);
    }
  }

  lemma GateReasons(w: World)
    ensures GateRefuses(w) <==>
            || (w.checkpointAsked && w.rows > 0 &&
                (if w.scope.Estimated? && w.fit.Fitted? && w.fit.narrowed then w.fit.rescope else w.scope) != Estimated(false))
            || (if w.fit.Fitted? then w.fit.rows else w.rows) > w.maxTotal
            || w.otherRefusal || w.mute.MuteRefused? || w.fit.FitRefused?
  {
  }

  /** A real run whose mute did not fail, with no more rows than may be written, refused nothing, and the last
      scope of a checkpoint for rows an estimate that is not refused. */
  predicate LetPass(w: Answers) {
    && !w.planOnly && !w.mute.MuteThrew? && !w.mute.MuteRefused? && !w.fit.FitRefused? && !w.otherRefusal
    && (if w.fit.Fitted? then w.fit.rows else w.rows) <= w.maxTotal
    && (w.checkpointAsked && w.rows > 0 ==>
          (if w.scope.Estimated? && w.fit.Fitted? && w.fit.narrowed then w.fit.rescope else w.scope) == Estimated(false))
  }

  lemma AnswersTake(w: World)
    ensures TakesCheckpoint(w) <==>
      LetPass(w) && w.checkpointAsked && w.rows > 0 && w.take == Taken && w.killed != Some(BeforeTake)
    ensures TakesLease(w) <==>
      && LetPass(w) && (w.checkpointAsked && w.rows > 0 ==> w.take == Taken)
      && w.mute == Prepared(true) && w.acquire == Acquired && w.killed != Some(BeforeTake) && w.killed != Some(Took)
  {
    GateReasons(w);
  }

  /** The stages of a run, answer by answer. */
  lemma AnswersSay(w: World)
    ensures Executes(w) && Made(w.calls) != [] ==>
      && !w.planOnly && !GateRefuses(w) && !w.mute.MuteThrew? && w.rows > 0 && RowsOf(w) > 0
      && (w.checkpointAsked ==> w.take == Taken)
      && (w.mute == Prepared(true) ==> w.acquire == Acquired && w.check == Holds)
      && w.calls != [] && !w.calls[0].signal
    ensures
      && w.killed.None? && !w.planOnly && !GateRefuses(w) && !w.mute.MuteThrew?
      && (w.checkpointAsked ==> w.take == Taken)
      && (w.mute == Prepared(true) ==> w.acquire == Acquired && w.check == Holds)
      && w.calls != [] && !w.calls[0].signal
      ==> Executes(w) && Made(w.calls) != []
    ensures IsKilled(w) ==> w.killed.Some?
    ensures w.killed == Some(BeforeTake) ==> !TakesCheckpoint(w) && !TakesLease(w) && !Executes(w)
    ensures w.killed == Some(Took) ==> !TakesLease(w) && !Executes(w)
    ensures w.killed == Some(Leased) ==> !Executes(w)
    ensures w.killed == Some(Leased) || w.killed == Some(WritesOver) ==> (TakesLease(w) ==> KilledHolding(w))
    ensures w.killed == Some(Unsettled) ==> !KilledHolding(w) && (TakesCheckpoint(w) ==> IsKilled(w))
  {
  }

  /** Rows are written only for a plan that counted some, for which a checkpoint asked for is scoped. */
  lemma WritesWithCheckpoint(w: World)
    requires w.checkpointAsked && Executes(w) && Made(w.calls) != []
    ensures TakesCheckpoint(w)
  {
  }

  /** The checkpoint's scope at the gate. */
  datatype Scoping = NoScope | Allowed | Denied | ScopeFailed

  function Scoped(scope: Scope): Scoping {
    match scope
    case Estimated(refused) => if refused then Denied else Allowed
    case ScopeThrew => ScopeFailed
  }

  /** The org was written, and no answer told of it: the run's checkpoint is deleted all the same. */
  predicate LosesCheckpoint(w: World) {
    && TakesCheckpoint(w) && !IsKilled(w) && w.deletion == Deleted
    && Told(Heard(w)) == 0 && LostIn(Heard(w)) > 0
  }

  // ----- The calls made and heard

  predicate MadeSoFar(w: World, i: nat)
    requires i <= |w.calls|
  {
    i <= |Made(w.calls)| && Made(w.calls)[i..] == Made(w.calls[i..])
  }

  /** The calls made are the first ones: none begun once a stop is heard, the last one alone may fail, and only
      a stop or a failure ends them before the plan does. */
  lemma {:induction false} MadeAreTheFirst(calls: seq<Call>)
    ensures var made := Made(calls); var n := |made|;
      && n <= |calls| && made == calls[..n]
      && (forall k :: 0 <= k < n ==> !calls[k].signal)
      && (forall k :: 0 <= k < n - 1 ==> !calls[k].fails)
      && (n < |calls| ==> calls[n].signal || (n > 0 && calls[n - 1].fails))
    decreases |calls|
  {
    if calls != [] && !calls[0].signal && !calls[0].fails {
      MadeAreTheFirst(calls[1..]);
      var made, rest := Made(calls), Made(calls[1..]);
      assert made == [calls[0]] + rest;
      forall k | 0 < k < |made| ensures made[k] == calls[k] {
        assert made[k] == rest[k - 1] == calls[1..][k - 1];
      }
      assert forall k :: 0 < k < |calls| ==> calls[k] == calls[1..][k - 1];
    }
  }

  /** Every record a call wrote is told of or lost, by how its answer came. */
  lemma {:induction false} ToldOrLost(calls: seq<Call>)
    ensures Told(calls) == 0 <==> forall k :: 0 <= k < |calls| && calls[k].answer.Answered? ==> calls[k].answer.records == 0
    ensures LostIn(calls) == 0 <==> forall k :: 0 <= k < |calls| && calls[k].answer.Lost? ==> calls[k].answer.records == 0
    ensures Told(calls) + LostIn(calls) == Written(calls)
    decreases |calls|
  {
    if calls != [] {
      var rest := calls[1..];
      ToldOrLost(rest);
      WrittenFirst(calls);
      assert forall k :: 0 < k < |calls| ==> calls[k] == rest[k - 1];
      assert forall k :: 0 <= k < |rest| ==> rest[k] == calls[k + 1];
    }
  }

  /** All the records the calls wrote. */
  function Written(calls: seq<Call>): nat {
    if calls == [] then 0 else Written(calls[..|calls| - 1]) + calls[|calls| - 1].answer.records
  }

  lemma {:induction false} WrittenFirst(calls: seq<Call>)
    requires calls != []
    ensures Written(calls) == calls[0].answer.records + Written(calls[1..])
    decreases |calls|
  {
    var n := |calls| - 1;
    if n > 0 {
      WrittenFirst(calls[..n]);
      assert calls[..n][1..] == calls[1..][..n - 1];
    }
  }

  lemma WrittenAppend(calls: seq<Call>, call: Call)
    ensures Written(calls + [call]) == Written(calls) + call.answer.records
  {
    assert (calls + [call])[..|calls|] == calls;
  }

  /** Every record of the calls made is told of or lost, up to the one the process was ended in, and it is the
      only one whose answer did not come as the org gave it. */
  lemma NothingUncounted(w: World)
    requires Executes(w)
    ensures var made, heard := Made(w.calls), Heard(w); var n := |heard|;
      && n <= |made| && (n < |made| ==> n > 0 && w.killed == Some(InCall(n - 1)))
      && Told(heard) + LostIn(heard) == Written(made[..n])
      && (forall k :: 0 <= k < n && w.killed != Some(InCall(k)) ==> heard[k] == made[k])
      && (forall k :: 0 <= k < n && w.killed == Some(InCall(k)) ==> heard[k].answer.Lost? && k == n - 1)
  {
    hide Told;
    hide LostIn;
    var made, heard := Made(w.calls), Heard(w);
    ToldOrLost(heard);
    if KilledInCall(w) {
      var k := w.killed.value.after;
      assert made[..k + 1] == made[..k] + [made[k]];
      WrittenAppend(made[..k], made[k]);
      WrittenAppend(made[..k], heard[k]);
    } else {
      assert made[..|made|] == made;
    }
  }

  lemma MadeNext(w: World, i: nat)
    requires i < |w.calls| && MadeSoFar(w, i)
    ensures w.calls[i].signal ==> |Made(w.calls)| == i
    ensures !w.calls[i].signal ==> i < |Made(w.calls)| && Made(w.calls)[i] == w.calls[i]
    ensures !w.calls[i].signal && w.calls[i].fails ==> |Made(w.calls)| == i + 1
    ensures !w.calls[i].signal && !w.calls[i].fails ==> MadeSoFar(w, i + 1)
  {
    var made, rest := Made(w.calls), w.calls[i..];
    assert rest[0] == w.calls[i] && rest[1..] == w.calls[i + 1..];
    if !rest[0].signal {
      assert made[i..][0] == made[i] && made[i..][1..] == made[i + 1..];
    }
  }

  /** Past the last call made, all of them were heard of, unless the process was ended in one. */
  lemma CallsEnd(w: World, i: nat)
    requires Executes(w) && i <= |w.calls|
    requires |Made(w.calls)| == i || (i == |w.calls| && MadeSoFar(w, i))
    ensures |Made(w.calls)| == i && Made(w.calls)[..i] == Made(w.calls)
    ensures !KilledInCall(w) ==> Heard(w) == Made(w.calls)
  {
    assert w.calls[|w.calls|..] == [];
  }

  lemma NoneHeard(w: World)
    requires !Executes(w) || w.calls == []
    ensures Told(Heard(w)) == 0 && LostIn(Heard(w)) == 0 && !KilledInCall(w)
  {
  }

  lemma ToldAppend(calls: seq<Call>, more: seq<Call>)
    ensures Told(calls + more) == Told(calls) + Told(more)
    ensures LostIn(calls + more) == LostIn(calls) + LostIn(more)
  {
    if calls == [] {
      assert calls + more == more;
    } else {
      assert (calls + more)[1..] == calls[1..] + more;
      ToldAppend(calls[1..], more);
    }
  }

  /** What one more call adds, heard or not. */
  lemma HeardNext(w: World, i: nat)
    requires Executes(w) && i < |Made(w.calls)|
    ensures var made := Made(w.calls); var answer := made[i].answer;
      && Told(made[..i + 1]) == Told(made[..i]) + (if answer.Answered? then answer.records else 0)
      && LostIn(made[..i + 1]) == LostIn(made[..i]) + (if answer.Lost? then answer.records else 0)
      && (w.killed == Some(InCall(i)) ==>
            Told(Heard(w)) == Told(made[..i]) && LostIn(Heard(w)) == LostIn(made[..i]) + answer.records)
  {
    var made := Made(w.calls);
    assert made[..i + 1] == made[..i] + [made[i]];
    assert [made[i]][1..] == [];
    ToldAppend(made[..i], [made[i]]);
    var unheard := [made[i].(answer := Lost(made[i].answer.records))];
    assert unheard[1..] == [];
    ToldAppend(made[..i], unheard);
  }

  // ----- Worlds in which a run leaves something behind

  /** A second signal can leave the lease held exactly when the run, let be, would take one: whatever the
      lease holds when it is read back, and with it any checkpoint unsettled. */
  lemma SecondSignalLeavesLease(w: World)
    ensures (exists m :: KilledHolding(w.(killed := Some(m)))) <==> TakesLease(w.(killed := None))
    ensures TakesLease(ORDINARY) && TakesCheckpoint(ORDINARY) && ORDINARY.check == Holds
  {
    var let := w.(killed := None);
    if TakesLease(let) {
      assert KilledHolding(w.(killed := Some(Leased)));
    }
    if m :| KilledHolding(w.(killed := Some(m))) {
      assert PastTake(w.(killed := Some(m))) && PastTake(let);
    }
  }

  const LOST_CALL := Call(false, Lost(1), true)

  lemma OneLost()
    ensures Made([LOST_CALL]) == [LOST_CALL] && LostIn([LOST_CALL]) == 1 && Told([LOST_CALL]) == 0
  {
    assert [LOST_CALL][1..] == [];
    assert Made([LOST_CALL]) == [[LOST_CALL][0]];
  }

  /** The run let be, its executor making other calls, where it promises none such. */
  function WithCalls(w: World, calls: seq<Call>): Option<World> {
    if RowsOf(w) == 0 && calls != [] then None else Some(w.(calls := calls, killed := None))
  }

  /** Lost answers can cost a run its checkpoint, records written, exactly when it takes one, comes to its
      writes with rows to write, and could delete it. */
  lemma LostAnswerLosesCheckpoint(w: World)
    ensures (exists calls :: WithCalls(w, calls).Some? && LosesCheckpoint(WithCalls(w, calls).value)) <==>
      var v := w.(killed := None); TakesCheckpoint(v) && Executes(v) && RowsOf(v) > 0 && v.deletion == Deleted
  {
    hide Made;
    hide LostIn;
    hide Told;
    var let := w.(killed := None);
    if TakesCheckpoint(let) && Executes(let) && RowsOf(w) > 0 && w.deletion == Deleted {
      OneLost();
      assert LosesCheckpoint(WithCalls(w, [LOST_CALL]).value);
    }
    if calls :| WithCalls(w, calls).Some? && LosesCheckpoint(WithCalls(w, calls).value) {
      var v := WithCalls(w, calls).value;
      if !Executes(v) || v.calls == [] {
        NoneHeard(v);
      }
      assert PastTake(v) && PastTake(let);
      assert PastLease(v) && PastLease(let);
    }
  }
}
