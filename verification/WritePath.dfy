/** The steps of a run that writes, in the order they are to keep, and the defects of one that does not. */
module WritePath {

  datatype Step =
    | Reads
    | LeasePlan
    | StillRunning
    | DeliverabilityRead
    | Question
    | CheckpointTake
    | LeaseAcquire
    | AfterLeaseCheck
    | Write
    | LeaseRelease
    | RecordTypeReadBack
    | Result

  datatype Defect =
    | OutOfOrder(earlier: Step, later: Step)
    | LeaseNeverGivenBack
    | WentOnPastResult

  function First(events: seq<Step>, step: Step): (at: int)
    ensures -1 <= at < |events|
    ensures at < 0 <==> step !in events
    ensures at >= 0 ==> events[at] == step && step !in events[..at]
  {
    if events == [] then -1
    else if events[0] == step then 0
    else
      var at := First(events[1..], step);
      assert events == [events[0]] + events[1..];
      if at < 0 then -1
      else
        assert events[..at + 1] == [events[0]] + events[1..][..at];
        at + 1
  }

  function Last(events: seq<Step>, step: Step): (at: int)
    ensures -1 <= at < |events|
    ensures at < 0 <==> step !in events
    ensures at >= 0 ==> events[at] == step && step !in events[at + 1..]
  {
    var n := |events| - 1;
    if events == [] then -1
    else if events[n] == step then n
    else
      assert events == events[..n] + [events[n]];
      var at := Last(events[..n], step);
      if at < 0 then -1
      else
        assert events[at + 1..] == events[..n][at + 1..] + [events[n]];
        at
  }

  /** A defect when some `earlier` step comes after some `later` one. */
  function Before(events: seq<Step>, earlier: Step, later: Step): seq<Defect> {
    if Last(events, earlier) >= 0 && First(events, later) >= 0 && Last(events, earlier) > First(events, later)
    then [OutOfOrder(earlier, later)] else []
  }

  /** The deliverability may be read again after a question: only its first read is held to one. */
  function FirstBefore(events: seq<Step>, earlier: Step, later: Step): seq<Defect> {
    if First(events, earlier) >= 0 && First(events, later) >= 0 && First(events, earlier) > First(events, later)
    then [OutOfOrder(earlier, later)] else []
  }

  /** The defects of a run's steps, rule by rule. */
  function OrderDefects(events: seq<Step>): seq<Defect> {
    Before(events, LeasePlan, StillRunning)
    + Before(events, StillRunning, DeliverabilityRead)
    + FirstBefore(events, DeliverabilityRead, Question)
    + Before(events, Question, CheckpointTake)
    + Before(events, Question, LeaseAcquire)
    + Before(events, CheckpointTake, LeaseAcquire)
    + Before(events, LeaseAcquire, AfterLeaseCheck)
    + Before(events, CheckpointTake, Write)
    + Before(events, LeaseAcquire, Write)
    + Before(events, AfterLeaseCheck, Write)
    + Before(events, Write, LeaseRelease)
    + Before(events, Write, RecordTypeReadBack)
    + Before(events, LeaseRelease, RecordTypeReadBack)
    + (if LeaseAcquire in events && LeaseRelease !in events then [LeaseNeverGivenBack] else [])
    + (if Result in events && exists k :: First(events, Result) < k < |events| && events[k] != Result
       then [WentOnPastResult] else [])
  }

  // ----- The rules, pair by pair

  /** What no step of the first kind may come after any of the second. */
  const ORDER: set<(Step, Step)> := {
    (LeasePlan, StillRunning), (StillRunning, DeliverabilityRead), (Question, CheckpointTake), (Question, LeaseAcquire),
    (CheckpointTake, LeaseAcquire), (LeaseAcquire, AfterLeaseCheck), (CheckpointTake, Write), (LeaseAcquire, Write),
    (AfterLeaseCheck, Write), (Write, LeaseRelease), (Write, RecordTypeReadBack), (LeaseRelease, RecordTypeReadBack)}

  /** Some `earlier` step comes after some `later` one. */
  ghost predicate Inverted(events: seq<Step>, earlier: Step, later: Step) {
    exists i, j :: 0 <= i < j < |events| && events[i] == later && events[j] == earlier
  }

  lemma FirstIs(events: seq<Step>, step: Step, k: nat)
    requires k < |events| && events[k] == step
    ensures 0 <= First(events, step) <= k
  {
    var first := First(events, step);
    assert forall m :: 0 <= m < first ==> events[..first][m] == events[m];
  }

  lemma LastIs(events: seq<Step>, step: Step, k: nat)
    requires k < |events| && events[k] == step
    ensures k <= Last(events, step) < |events|
  {
    var last := Last(events, step);
    assert forall m :: last < m < |events| ==> events[last + 1..][m - last - 1] == events[m];
  }

  lemma BeforeSays(events: seq<Step>, earlier: Step, later: Step, defect: Defect)
    requires earlier != later
    ensures defect in Before(events, earlier, later) <==>
            defect == OutOfOrder(earlier, later) && Inverted(events, earlier, later)
  {
    hide First;
    hide Last;
    var last, first := Last(events, earlier), First(events, later);
    if i, j :| 0 <= i < j < |events| && events[i] == later && events[j] == earlier {
      FirstIs(events, later, i);
      LastIs(events, earlier, j);
    }
    if last > first >= 0 {
      assert events[first] == later && events[last] == earlier;
    }
  }

  /** The deliverability read first is read after some question, and none came after it before. */
  ghost predicate ReadTooLate(events: seq<Step>) {
    exists i, j :: 0 <= i < j < |events| && events[i] == Question && events[j] == DeliverabilityRead
                   && DeliverabilityRead !in events[..j]
  }

  lemma FirstBeforeSays(events: seq<Step>, defect: Defect)
    ensures defect in FirstBefore(events, DeliverabilityRead, Question) <==>
            defect == OutOfOrder(DeliverabilityRead, Question) && ReadTooLate(events)
  {
    hide First;
    hide Last;
    var read, asked := First(events, DeliverabilityRead), First(events, Question);
    if i, j :| 0 <= i < j < |events| && events[i] == Question && events[j] == DeliverabilityRead
               && DeliverabilityRead !in events[..j] {
      FirstIs(events, Question, i);
      FirstIs(events, DeliverabilityRead, j);
      assert forall m :: 0 <= m < j ==> events[..j][m] == events[m];
    }
  }

  lemma PastResultSays(events: seq<Step>)
    ensures (Result in events && exists k :: First(events, Result) < k < |events| && events[k] != Result) <==>
            exists i, j :: 0 <= i < j < |events| && events[i] == Result && events[j] != Result
  {
    hide First;
    var first := First(events, Result);
    if i, j :| 0 <= i < j < |events| && events[i] == Result && events[j] != Result {
      FirstIs(events, Result, i);
      assert first < j && events[j] != Result;
    }
    if k :| Result in events && first < k < |events| && events[k] != Result {
      assert events[first] == Result;
    }
  }

  lemma InOrderDefects(events: seq<Step>, defect: Defect)
    ensures defect in OrderDefects(events) <==>
      || defect in Before(events, LeasePlan, StillRunning)
      || defect in Before(events, StillRunning, DeliverabilityRead)
      || defect in FirstBefore(events, DeliverabilityRead, Question)
      || defect in Before(events, Question, CheckpointTake)
      || defect in Before(events, Question, LeaseAcquire)
      || defect in Before(events, CheckpointTake, LeaseAcquire)
      || defect in Before(events, LeaseAcquire, AfterLeaseCheck)
      || defect in Before(events, CheckpointTake, Write)
      || defect in Before(events, LeaseAcquire, Write)
      || defect in Before(events, AfterLeaseCheck, Write)
      || defect in Before(events, Write, LeaseRelease)
      || defect in Before(events, Write, RecordTypeReadBack)
      || defect in Before(events, LeaseRelease, RecordTypeReadBack)
      || (defect == LeaseNeverGivenBack && LeaseAcquire in events && LeaseRelease !in events)
      || (defect == WentOnPastResult && Result in events && exists k :: First(events, Result) < k < |events| && events[k] != Result)
  {
    hide Before;
    hide FirstBefore;
    hide First;
    hide Last;
  }

  /** The defects of a run are exactly the pairs it inverts, the deliverability read too late, a lease taken and
      never given back, and a step past its result. */
  lemma DefectsAreTheRules(events: seq<Step>, defect: Defect)
    ensures defect in OrderDefects(events) <==>
      || (defect == OutOfOrder(DeliverabilityRead, Question) && ReadTooLate(events))
      || (defect.OutOfOrder? && (defect.earlier, defect.later) in ORDER && Inverted(events, defect.earlier, defect.later))
      || (defect == LeaseNeverGivenBack && LeaseAcquire in events && LeaseRelease !in events)
      || (defect == WentOnPastResult &&
          exists i, j :: 0 <= i < j < |events| && events[i] == Result && events[j] != Result)
  {
    hide OrderDefects;
    hide Before;
    hide FirstBefore;
    hide First;
    hide Inverted;
    hide ReadTooLate;
    InOrderDefects(events, defect);
    BeforeSays(events, LeasePlan, StillRunning, defect);
    BeforeSays(events, StillRunning, DeliverabilityRead, defect);
    FirstBeforeSays(events, defect);
    BeforeSays(events, Question, CheckpointTake, defect);
    BeforeSays(events, Question, LeaseAcquire, defect);
    BeforeSays(events, CheckpointTake, LeaseAcquire, defect);
    BeforeSays(events, LeaseAcquire, AfterLeaseCheck, defect);
    BeforeSays(events, CheckpointTake, Write, defect);
    BeforeSays(events, LeaseAcquire, Write, defect);
    BeforeSays(events, AfterLeaseCheck, Write, defect);
    BeforeSays(events, Write, LeaseRelease, defect);
    BeforeSays(events, Write, RecordTypeReadBack, defect);
    BeforeSays(events, LeaseRelease, RecordTypeReadBack, defect);
    PastResultSays(events);
  }

  // ----- A path whose steps never go back

  function Rank(step: Step): nat {
    match step
    case Reads | LeasePlan => 0
    case StillRunning => 1
    case DeliverabilityRead => 2
    case Question => 3
    case CheckpointTake => 4
    case LeaseAcquire => 5
    case AfterLeaseCheck => 6
    case Write => 7
    case LeaseRelease => 8
    case RecordTypeReadBack => 9
    case Result => 10
  }

  ghost predicate Ascending(events: seq<Step>) {
    forall i, j :: 0 <= i < j < |events| ==> Rank(events[i]) <= Rank(events[j])
  }

  lemma AscendingHasNoBefore(events: seq<Step>, earlier: Step, later: Step)
    requires Ascending(events) && Rank(earlier) < Rank(later)
    ensures Before(events, earlier, later) == [] && FirstBefore(events, earlier, later) == []
  {
  }

  /** On a path that never goes back, the one thing that can be wrong is a lease kept. */
  lemma AscendingDefects(events: seq<Step>)
    requires Ascending(events)
    ensures OrderDefects(events) ==
            if LeaseAcquire in events && LeaseRelease !in events then [LeaseNeverGivenBack] else []
  {
    AscendingHasNoBefore(events, LeasePlan, StillRunning);
    AscendingHasNoBefore(events, StillRunning, DeliverabilityRead);
    AscendingHasNoBefore(events, DeliverabilityRead, Question);
    AscendingHasNoBefore(events, Question, CheckpointTake);
    AscendingHasNoBefore(events, Question, LeaseAcquire);
    AscendingHasNoBefore(events, CheckpointTake, LeaseAcquire);
    AscendingHasNoBefore(events, LeaseAcquire, AfterLeaseCheck);
    AscendingHasNoBefore(events, CheckpointTake, Write);
    AscendingHasNoBefore(events, LeaseAcquire, Write);
    AscendingHasNoBefore(events, AfterLeaseCheck, Write);
    AscendingHasNoBefore(events, Write, LeaseRelease);
    AscendingHasNoBefore(events, Write, RecordTypeReadBack);
    AscendingHasNoBefore(events, LeaseRelease, RecordTypeReadBack);
    NothingPastResult(events);
    hide Before;
    hide FirstBefore;
    hide First;
    hide Ascending;
  }

  lemma NothingPastResult(events: seq<Step>)
    requires Ascending(events)
    ensures Result in events ==> forall k :: First(events, Result) < k < |events| ==> events[k] == Result
  {
    if Result in events {
      var r := First(events, Result);
      forall k | r < k < |events| ensures events[k] == Result {
        assert Rank(events[r]) <= Rank(events[k]);
      }
    }
  }

  // ----- A path under way

  /** The steps so far, the last one outermost. */
  datatype Trail = Start | After(before: Trail, step: Step)

  function Listed(trail: Trail): seq<Step> {
    match trail
    case Start => []
    case After(before, step) => Listed(before) + [step]
  }

  function SetOf(trail: Trail): set<Step> {
    match trail
    case Start => {}
    case After(before, step) => SetOf(before) + {step}
  }

  /** No step comes after one further down the path, and none is past `rank`. */
  ghost predicate Ordered(trail: Trail, rank: nat) {
    trail.After? ==> Rank(trail.step) <= rank && Ordered(trail.before, Rank(trail.step))
  }

  /** The steps so far, which of them there are, and how far down the path they are. */
  datatype Progress = Progress(trail: Trail, seen: set<Step>, rank: nat)

  ghost predicate Keeps(p: Progress) {
    Ordered(p.trail, p.rank) && p.seen == SetOf(p.trail)
  }

  /** Progress whose steps never went back. */
  type Log = p: Progress | Keeps(p) witness Progress(Start, {}, 0)

  lemma {:induction false} OrderedFurther(trail: Trail, rank: nat, further: nat)
    requires Ordered(trail, rank) && rank <= further
    ensures Ordered(trail, further)
  {
    if trail.After? {
      OrderedFurther(trail.before, Rank(trail.step), Rank(trail.step));
    }
  }

  function Then(log: Log, step: Step): (next: Log)
    requires log.rank <= Rank(step)
    ensures next.trail == After(log.trail, step) && next.seen == log.seen + {step} && next.rank == Rank(step)
  {
    OrderedFurther(log.trail, log.rank, Rank(step));
    Progress(After(log.trail, step), log.seen + {step}, Rank(step))
  }

  /** The path comes to `step`, which is done or passed over. */
  function Reach(log: Log, step: Step, done: bool): (next: Log)
    requires log.rank <= Rank(step)
    ensures next.seen == (if done then log.seen + {step} else log.seen) && next.rank == Rank(step)
  {
    OrderedFurther(log.trail, log.rank, Rank(step));
    if done then Then(log, step) else log.(rank := Rank(step))
  }

  lemma {:induction false} OrderedAscends(trail: Trail, rank: nat)
    requires Ordered(trail, rank)
    ensures Ascending(Listed(trail))
    ensures forall step :: step in SetOf(trail) <==> step in Listed(trail)
    ensures forall step :: step in Listed(trail) ==> Rank(step) <= rank
    decreases trail
  {
    if trail.After? {
      OrderedAscends(trail.before, Rank(trail.step));
    }
  }

  lemma SeenWithin(log: Log, step: Step)
    requires log.rank < Rank(step)
    ensures step !in log.seen
  {
    OrderedAscends(log.trail, log.rank);
  }

  /** Of two steps made, the one that comes first down the path is over before the other begins. */
  lemma LogKeepsOrder(log: Log, earlier: Step, later: Step)
    requires Rank(earlier) < Rank(later)
    ensures var events := Listed(log.trail);
      earlier in events && later in events ==> 0 <= Last(events, earlier) < First(events, later)
  {
    hide First;
    hide Last;
    hide Rank;
    hide Ordered;
    var events := Listed(log.trail);
    OrderedAscends(log.trail, log.rank);
    if earlier in events && later in events {
      var i, j := Last(events, earlier), First(events, later);
      assert Rank(events[i]) < Rank(events[j]);
    }
  }

  /** All that can be wrong of a path logged so. */
  lemma LogDefects(log: Log)
    ensures OrderDefects(Listed(log.trail)) ==
            if LeaseAcquire in log.seen && LeaseRelease !in log.seen then [LeaseNeverGivenBack] else []
    ensures forall step :: step in log.seen <==> step in Listed(log.trail)
  {
    OrderedAscends(log.trail, log.rank);
    AscendingDefects(Listed(log.trail));
  }
}
