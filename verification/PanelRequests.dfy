/** Requests sent to a panel host and the messages that settle them, under any interleaving. */
module PanelRequests {
  import opened Options

  type Id = string

  datatype Message = Message(correlation: Option<Id>, kind: string)

  datatype Outcome = Answered | Refused | Failed | Unanswered

  /** How a request ended, `late` when that took longer than its own timeout. */
  datatype Reply = Reply(outcome: Outcome, message: Option<Message>, elapsed: nat, late: bool)

  /** A request waiting for what settles it. */
  datatype Waiter = Waiter(id: Id, responseType: string, startedAt: nat, timeout: nat)

  /** What happens to the host: a request is sent, a message is posted, a request's timer rings, or
      time goes by. */
  datatype Event = Sent(waiter: Waiter) | Posted(message: Message) | Rang(id: Id) | Elapsed(ms: nat)

  predicate IsErrorChannel(kind: string) {
    |kind| >= 6 && kind[|kind| - 6..] == ":error"
  }

  function ResponseTypeOf(kind: string, responseType: Option<string>): string {
    if responseType.Some? then responseType.value else kind + ":response"
  }

  /** The outcome a message gives the request, when it gives one. */
  function Settles(message: Message, id: Id, responseType: string): Option<Outcome> {
    if message.correlation != Some(id) then None
    else if message.kind == responseType then Some(Answered)
    else if message.kind == "bridge:error" then Some(Refused)
    else if IsErrorChannel(message.kind) then Some(Failed)
    else None
  }

  function Max(a: nat, b: nat): nat {
    if a < b then b else a
  }

  // ----- Which messages close a request, and what the reply says then

  ghost predicate EndsInError(kind: string) {
    exists stem: string :: kind == stem + ":error"
  }

  /** The message carries the request's id and is its response, a refusal or a failure. */
  ghost predicate ClosedBy(w: Waiter, m: Message) {
    m.correlation == Some(w.id) && (m.kind == w.responseType || m.kind == "bridge:error" || EndsInError(m.kind))
  }

  /** The event ends the request: its timer, or a message that closes it. */
  ghost predicate EndedBy(w: Waiter, e: Event) {
    (e.Rang? && e.id == w.id) || (e.Posted? && ClosedBy(w, e.message))
  }

  /** What a request that waited so long is told by the event that ends it. */
  ghost predicate Told(reply: Reply, w: Waiter, waited: nat, e: Event) {
    match e
    case Posted(m) =>
      && reply.message == Some(m) && reply.elapsed == waited && (reply.late <==> waited > w.timeout)
      && (reply.outcome == Answered <==> m.kind == w.responseType)
      && (reply.outcome == Refused <==> m.kind == "bridge:error" && m.kind != w.responseType)
      && (reply.outcome == Failed <==> EndsInError(m.kind) && m.kind != "bridge:error" && m.kind != w.responseType)
    case Rang(_) => reply.message == None && reply.elapsed == waited && reply.late && reply.outcome == Unanswered
    case _ => false
  }

  lemma ErrorChannelIs(kind: string)
    ensures IsErrorChannel(kind) <==> EndsInError(kind)
  {
    if |kind| >= 6 {
      assert kind == kind[..|kind| - 6] + kind[|kind| - 6..];
    }
    forall stem: string | kind == stem + ":error"
      ensures IsErrorChannel(kind)
    {
      assert kind[|kind| - 6..] == ":error";
    }
  }

  // ----- One step of the host

  datatype Host = Host(now: nat, used: set<Id>, waiters: map<Id, Waiter>, settled: seq<(Id, Reply)>)

  function ReplyTo(w: Waiter, message: Message, outcome: Outcome, now: nat): Reply
    requires now >= w.startedAt
  {
    Reply(outcome, Some(message), now - w.startedAt, now - w.startedAt > w.timeout)
  }

  ghost predicate Sane(h: Host) {
    forall id :: id in h.waiters ==>
      id in h.used && h.waiters[id].id == id && h.waiters[id].startedAt <= h.now
  }

  /** What may happen next: ids are not given twice, and a timer rings for a request still open,
      once it has waited the host's wait and its own timeout. */
  predicate May(h: Host, wait: nat, e: Event) {
    match e
    case Sent(w) => w.id !in h.used && w.startedAt == h.now
    case Rang(id) => id in h.waiters && h.now >= h.waiters[id].startedAt + Max(wait, h.waiters[id].timeout)
    case _ => true
  }

  function Step(h: Host, wait: nat, e: Event): Host
    requires Sane(h) && May(h, wait, e)
  {
    match e
    case Sent(w) => h.(used := h.used + {w.id}, waiters := h.waiters[w.id := w])
    case Elapsed(ms) => h.(now := h.now + ms)
    case Rang(id) =>
      h.(waiters := h.waiters - {id},
         settled := h.settled + [(id, Reply(Unanswered, None, h.now - h.waiters[id].startedAt, true))])
    case Posted(m) =>
      match m.correlation
      case None => h
      case Some(id) =>
        if id in h.waiters && Settles(m, id, h.waiters[id].responseType).Some? then
          var outcome := Settles(m, id, h.waiters[id].responseType).value;
          h.(waiters := h.waiters - {id}, settled := h.settled + [(id, ReplyTo(h.waiters[id], m, outcome, h.now))])
        else h
  }

  /** A posted message takes from the open requests those it closes, and adds what they are told. */
  lemma PostedCloses(h: Host, wait: nat, m: Message)
    requires Sane(h)
    ensures var next := Step(h, wait, Posted(m));
      && (forall id :: id in next.waiters <==> id in h.waiters && !ClosedBy(h.waiters[id], m))
      && (forall id :: id in h.waiters && ClosedBy(h.waiters[id], m) ==>
           && |next.settled| == |h.settled| + 1 && next.settled[..|h.settled|] == h.settled
           && next.settled[|h.settled|].0 == id
           && Told(next.settled[|h.settled|].1, h.waiters[id], h.now - h.waiters[id].startedAt, Posted(m)))
  {
    ErrorChannelIs(m.kind);
  }

  lemma StepSane(h: Host, wait: nat, e: Event)
    requires Sane(h) && May(h, wait, e)
    ensures Sane(Step(h, wait, e))
  {
  }

  // ----- The host as it runs

  class PanelHost {
    const wait: nat
    var now: nat
    var waiters: map<Id, Waiter>
    var posted: seq<Message>
    /** The promises resolved, in order. */
    var settled: seq<(Id, Reply)>
    ghost var used: set<Id>

    ghost function State(): Host
      reads this
    {
      Host(now, used, waiters, settled)
    }

    constructor (wait: nat)
      ensures Sane(State()) && this.wait == wait && posted == [] && State() == Host(0, {}, map[], [])
    {
      this.wait := wait;
      now, waiters, posted, settled, used := 0, map[], [], [], {};
    }

    method Request(id: Id, kind: string, responseType: Option<string>, timeout: nat)
      requires Sane(State()) && id !in used
      modifies this
      ensures Sane(State()) && posted == old(posted)
      ensures id in waiters && waiters[id].timeout == timeout && waiters[id].startedAt == old(now)
      ensures responseType == None ==> waiters[id].responseType == kind + ":response"
      ensures responseType.Some? ==> waiters[id].responseType == responseType.value
      ensures State() == Step(old(State()), wait, Sent(Waiter(id, ResponseTypeOf(kind, responseType), old(now), timeout)))
    {
      used := used + {id};
      waiters := waiters[id := Waiter(id, ResponseTypeOf(kind, responseType), now, timeout)];
    }

    /** A waiter hears a message: settled by it, it is heard no more. */
    method Hear(id: Id, message: Message)
      requires Sane(State()) && id in waiters
      modifies this`waiters, this`settled
      ensures State() == if message.correlation == Some(id) then Step(old(State()), wait, Posted(message)) else old(State())
    {
      var w := waiters[id];
      var outcome := Settles(message, id, w.responseType);
      if outcome.Some? {
        waiters := waiters - {id};
        var elapsed := now - w.startedAt;
        settled := settled + [(id, Reply(outcome.value, Some(message), elapsed, elapsed > w.timeout))];
      }
    }

    /** A message is posted: every waiter there was when it came hears it. */
    method PostMessage(message: Message)
      requires Sane(State())
      modifies this
      ensures Sane(State()) && posted == old(posted) + [message]
      ensures State() == Step(old(State()), wait, Posted(message))
      ensures forall id :: id in waiters <==> id in old(waiters) && !ClosedBy(old(waiters)[id], message)
    {
      posted := posted + [message];
      ghost var before := State();
      var rest := waiters.Keys;
      while rest != {}
        invariant rest <= before.waiters.Keys && Sane(State()) && rest <= waiters.Keys
        invariant posted == old(posted) + [message]
        invariant State() == if message.correlation.Some? && message.correlation.value in before.waiters.Keys - rest
                             then Step(before, wait, Posted(message)) else before
        decreases rest
      {
        var id :| id in rest;
        rest := rest - {id};
        Hear(id, message);
        StepSane(before, wait, Posted(message));
      }
      StepSane(before, wait, Posted(message));
      PostedCloses(before, wait, message);
    }

    /** A request's timer rings. */
    method GiveUp(id: Id)
      requires Sane(State()) && May(State(), wait, Rang(id))
      modifies this`waiters, this`settled
      ensures Sane(State()) && State() == Step(old(State()), wait, Rang(id))
    {
      var elapsed := now - waiters[id].startedAt;
      waiters := waiters - {id};
      settled := settled + [(id, Reply(Unanswered, None, elapsed, true))];
    }
  }

  // ----- Every run

  /** The events may all happen, one after the other. */
  ghost predicate MayAll(h: Host, wait: nat, events: seq<Event>)
    requires Sane(h)
    decreases |events|
  {
    events == [] ||
    (May(h, wait, events[0]) && (StepSane(h, wait, events[0]); MayAll(Step(h, wait, events[0]), wait, events[1..])))
  }

  function Run(h: Host, wait: nat, events: seq<Event>): (end: Host)
    requires Sane(h) && MayAll(h, wait, events)
    ensures Sane(end)
    decreases |events|
  {
    if events == [] then h
    else
      StepSane(h, wait, events[0]);
      Run(Step(h, wait, events[0]), wait, events[1..])
  }

  /** How one event settles an open request, if it does: a message that carries its id and is its
      answer or an error, or its timer. */
  function SettledBy(w: Waiter, now: nat, e: Event): Option<Reply>
    requires now >= w.startedAt
  {
    match e
    case Posted(m) =>
      var outcome := Settles(m, w.id, w.responseType);
      if outcome.Some? then Some(ReplyTo(w, m, outcome.value, now)) else None
    case Rang(id) => if id == w.id then Some(Reply(Unanswered, None, now - w.startedAt, true)) else None
    case _ => None
  }

  /** An event settles a request exactly when it ends it, and the reply is what it tells. */
  lemma SettledIffEnded(w: Waiter, now: nat, e: Event)
    requires now >= w.startedAt
    ensures var reply := SettledBy(w, now, e);
      if reply.Some? then EndedBy(w, e) && Told(reply.value, w, now - w.startedAt, e) else !EndedBy(w, e)
  {
    if e.Posted? {
      ErrorChannelIs(e.message.kind);
    }
  }

  function After(now: nat, e: Event): nat {
    if e.Elapsed? then now + e.ms else now
  }

  /** What becomes of an open request, read off the events alone: the first that settles it. */
  function FateOf(w: Waiter, now: nat, events: seq<Event>): Option<Reply>
    requires now >= w.startedAt
    decreases |events|
  {
    if events == [] then None
    else
      var reply := SettledBy(w, now, events[0]);
      if reply.Some? then reply else FateOf(w, After(now, events[0]), events[1..])
  }

  /** The replies a request got. */
  function RepliesTo(settled: seq<(Id, Reply)>, id: Id): seq<Reply> {
    if settled == [] then []
    else
      var n := |settled| - 1;
      RepliesTo(settled[..n], id) + (if settled[n].0 == id then [settled[n].1] else [])
  }

  lemma RepliesToAppend(settled: seq<(Id, Reply)>, id: Id, one: (Id, Reply))
    ensures RepliesTo(settled + [one], id) == RepliesTo(settled, id) + (if one.0 == id then [one.1] else [])
  {
    assert (settled + [one])[..|settled|] == settled;
  }

  /** A request no longer waited for, its id used, gets no reply any more. */
  lemma {:induction false} ClosedStaysClosed(h: Host, wait: nat, events: seq<Event>, id: Id)
    requires Sane(h) && MayAll(h, wait, events) && id in h.used && id !in h.waiters
    ensures var end := Run(h, wait, events);
      Sane(end) && id in end.used && id !in end.waiters && RepliesTo(end.settled, id) == RepliesTo(h.settled, id)
    decreases |events|
  {
    if events != [] {
      var next := Step(h, wait, events[0]);
      StepSane(h, wait, events[0]);
      if |next.settled| > |h.settled| {
        RepliesToAppend(h.settled, id, next.settled[|h.settled|]);
      }
      ClosedStaysClosed(next, wait, events[1..], id);
    }
  }

  /** What one event does to an open request. */
  ghost predicate Continues(h: Host, wait: nat, e: Event, id: Id)
    requires Sane(h) && May(h, wait, e) && id in h.waiters
  {
    var next, reply := Step(h, wait, e), SettledBy(h.waiters[id], h.now, e);
    && next.now == After(h.now, e) && id in next.used
    && (reply.None? ==> id in next.waiters && next.waiters[id] == h.waiters[id])
    && (reply.Some? ==> id !in next.waiters)
    && RepliesTo(next.settled, id) == RepliesTo(h.settled, id) + (if reply.Some? then [reply.value] else [])
  }

  lemma RangOnOpen(h: Host, wait: nat, other: Id, id: Id)
    requires Sane(h) && May(h, wait, Rang(other)) && id in h.waiters
    ensures Continues(h, wait, Rang(other), id)
  {
    hide RepliesTo;
    var next := Step(h, wait, Rang(other));
    RepliesToAppend(h.settled, id, next.settled[|h.settled|]);
  }

  lemma PostedOnOpen(h: Host, wait: nat, m: Message, id: Id)
    requires Sane(h) && id in h.waiters
    ensures Continues(h, wait, Posted(m), id)
  {
    hide RepliesTo;
    hide IsErrorChannel;
    hide ReplyTo;
    var w := h.waiters[id];
    if m.correlation.Some? && m.correlation.value in h.waiters {
      var to := m.correlation.value;
      var outcome := Settles(m, to, h.waiters[to].responseType);
      if outcome.Some? {
        RepliesToAppend(h.settled, id, (to, ReplyTo(h.waiters[to], m, outcome.value, h.now)));
      }
    }
  }

  lemma StepOnOpen(h: Host, wait: nat, e: Event, id: Id)
    requires Sane(h) && May(h, wait, e) && id in h.waiters
    ensures Continues(h, wait, e, id)
  {
    match e
    case Posted(m) => PostedOnOpen(h, wait, m, id);
    case Rang(other) => RangOnOpen(h, wait, other, id);
    case _ =>
  }

  /** Over any run, an open request gets exactly the reply its events say, once, and is waited for
      exactly until then. */
  lemma {:induction false} OpenRequestSettles(h: Host, wait: nat, events: seq<Event>, id: Id)
    requires Sane(h) && MayAll(h, wait, events) && id in h.waiters
    ensures var end, fate := Run(h, wait, events), FateOf(h.waiters[id], h.now, events);
      && (id in end.waiters <==> fate.None?)
      && RepliesTo(end.settled, id) == RepliesTo(h.settled, id) + (if fate.Some? then [fate.value] else [])
    decreases |events|
  {
    if events != [] {
      var next := Step(h, wait, events[0]);
      StepSane(h, wait, events[0]);
      StepOnOpen(h, wait, events[0], id);
      if id in next.waiters {
        OpenRequestSettles(next, wait, events[1..], id);
      } else {
        ClosedStaysClosed(next, wait, events[1..], id);
      }
    }
  }

  /** Before it is sent, a request has no reply. */
  lemma {:induction false} NoReplyBefore(h: Host, wait: nat, events: seq<Event>, id: Id)
    requires Sane(h) && MayAll(h, wait, events) && id !in Run(h, wait, events).used
    ensures Sane(Run(h, wait, events)) && RepliesTo(Run(h, wait, events).settled, id) == RepliesTo(h.settled, id)
    decreases |events|
  {
    if events != [] {
      var next := Step(h, wait, events[0]);
      StepSane(h, wait, events[0]);
      if id in next.used {
        StaysUsed(next, wait, events[1..], id);
      }
      NoReplyBefore(next, wait, events[1..], id);
      if |next.settled| > |h.settled| {
        RepliesToAppend(h.settled, id, next.settled[|h.settled|]);
      }
    }
  }

  lemma {:induction false} StaysUsed(h: Host, wait: nat, events: seq<Event>, id: Id)
    requires Sane(h) && MayAll(h, wait, events) && id in h.used
    ensures id in Run(h, wait, events).used
    decreases |events|
  {
    if events != [] {
      StepSane(h, wait, events[0]);
      StaysUsed(Step(h, wait, events[0]), wait, events[1..], id);
    }
  }

  lemma {:induction false} RunSplits(h: Host, wait: nat, first: seq<Event>, second: seq<Event>)
    requires Sane(h) && MayAll(h, wait, first + second)
    ensures MayAll(h, wait, first) && MayAll(Run(h, wait, first), wait, second)
    ensures Run(h, wait, first + second) == Run(Run(h, wait, first), wait, second)
    decreases |first|
  {
    if first == [] {
      assert first + second == second;
    } else {
      assert (first + second)[0] == first[0] && (first + second)[1..] == first[1..] + second;
      StepSane(h, wait, first[0]);
      RunSplits(Step(h, wait, first[0]), wait, first[1..], second);
    }
  }

  const QUIET := Host(0, {}, map[], [])

  /** In every run of a host, whatever else is sent, posted or timed out: a request is replied to at
      most once, with what the first event after its sending that settles it says, and it is waited
      for exactly until then. */
  lemma RequestSettlesOnce(wait: nat, before: seq<Event>, w: Waiter, events: seq<Event>)
    requires MayAll(QUIET, wait, before + ([Sent(w)] + events))
    ensures MayAll(QUIET, wait, before) && Run(QUIET, wait, before).now == w.startedAt
    ensures var end, fate := Run(QUIET, wait, before + ([Sent(w)] + events)), FateOf(w, Run(QUIET, wait, before).now, events);
      && (w.id in end.waiters <==> fate.None?)
      && RepliesTo(end.settled, w.id) == if fate.Some? then [fate.value] else []
  {
    var all := [Sent(w)] + events;
    assert all[1..] == events;
    RunSplits(QUIET, wait, before, all);
    var h := Run(QUIET, wait, before);
    assert May(h, wait, Sent(w));
    NoReplyBefore(QUIET, wait, before, w.id);
    StepSane(h, wait, Sent(w));
    OpenRequestSettles(Step(h, wait, Sent(w)), wait, events, w.id);
  }

  /** No timer that should have rung is still to ring. */
  predicate NoneOverdue(h: Host, wait: nat) {
    forall id | id in h.waiters :: h.now < h.waiters[id].startedAt + Max(wait, h.waiters[id].timeout)
  }

  /** What is open is open as it was sent. */
  lemma {:induction false} OpenAsSent(h: Host, wait: nat, events: seq<Event>, id: Id)
    requires Sane(h) && MayAll(h, wait, events) && id in h.waiters && id in Run(h, wait, events).waiters
    ensures Run(h, wait, events).waiters[id] == h.waiters[id]
    decreases |events|
  {
    if events != [] {
      var next := Step(h, wait, events[0]);
      StepSane(h, wait, events[0]);
      StepOnOpen(h, wait, events[0], id);
      if id in next.waiters {
        OpenAsSent(next, wait, events[1..], id);
      } else {
        ClosedStaysClosed(next, wait, events[1..], id);
      }
    }
  }

  /** Exactly once: a request has one reply if and only if a message settled it or its timer rang; and
      so it has one in every run that lasts past its timer with no timer overdue. */
  lemma RequestSettlesExactlyOnce(wait: nat, before: seq<Event>, w: Waiter, events: seq<Event>)
    requires MayAll(QUIET, wait, before + ([Sent(w)] + events))
    ensures var end := Run(QUIET, wait, before + ([Sent(w)] + events));
      && |RepliesTo(end.settled, w.id)| == (if w.id in end.waiters then 0 else 1)
      && (w.id !in end.waiters <==> exists k :: 0 <= k < |events| && SettledBy(w, w.startedAt, events[k]).Some?)
      && (NoneOverdue(end, wait) && end.now >= w.startedAt + Max(wait, w.timeout) ==> |RepliesTo(end.settled, w.id)| == 1)
  {
    RequestSettlesOnce(wait, before, w, events);
    var all := [Sent(w)] + events;
    assert all[1..] == events;
    RunSplits(QUIET, wait, before, all);
    var h := Run(QUIET, wait, before);
    assert May(h, wait, Sent(w));
    StepSane(h, wait, Sent(w));
    FateWhenSettled(w, w.startedAt, events);
    var end := Run(QUIET, wait, before + all);
    if w.id in end.waiters {
      OpenAsSent(Step(h, wait, Sent(w)), wait, events, w.id);
    }
  }

  /** Whether an event settles a request does not depend on when it comes. */
  lemma {:induction false} FateWhenSettled(w: Waiter, now: nat, events: seq<Event>)
    requires now >= w.startedAt
    ensures FateOf(w, now, events).Some? <==>
      exists k :: 0 <= k < |events| && SettledBy(w, w.startedAt, events[k]).Some?
    decreases |events|
  {
    if events != [] {
      var rest := events[1..];
      FateWhenSettled(w, After(now, events[0]), rest);
      assert SettledBy(w, now, events[0]).Some? <==> SettledBy(w, w.startedAt, events[0]).Some?;
      assert forall k :: 0 < k < |events| ==> events[k] == rest[k - 1];
      assert forall k :: 0 <= k < |rest| ==> rest[k] == events[k + 1];
    }
  }

  /** An unanswered request waited its host's wait and its own timeout, and is late; an answer is
      late exactly past the timeout. */
  lemma {:induction false} RepliesKeepTime(h: Host, wait: nat, events: seq<Event>, id: Id)
    requires Sane(h) && MayAll(h, wait, events) && id in h.waiters
    ensures var w := h.waiters[id];
      match FateOf(w, h.now, events)
      case None => true
      case Some(reply) =>
        if reply.outcome == Unanswered then reply.elapsed >= wait && reply.elapsed >= w.timeout && reply.late
        else
          && (reply.late <==> reply.elapsed > w.timeout)
          && reply.message.Some? && reply.message.value.correlation == Some(id)
          && Posted(reply.message.value) in events
    decreases |events|
  {
    if events != [] {
      var next := Step(h, wait, events[0]);
      StepSane(h, wait, events[0]);
      StepOnOpen(h, wait, events[0], id);
      if id in next.waiters {
        RepliesKeepTime(next, wait, events[1..], id);
      }
    }
  }

  // ----- The reply, from the events alone

  /** How long the events took. */
  function Waited(events: seq<Event>): nat {
    if events == [] then 0
    else
      var n := |events| - 1;
      Waited(events[..n]) + match events[n] case Elapsed(ms) => ms case _ => 0
  }

  lemma {:induction false} WaitedAfter(e: Event, events: seq<Event>)
    ensures Waited([e] + events) == (if e.Elapsed? then e.ms else 0) + Waited(events)
    decreases |events|
  {
    if events == [] {
      assert ([e] + events)[..0] == [];
    } else {
      var n := |events| - 1;
      assert ([e] + events)[..|events|] == [e] + events[..n];
      WaitedAfter(e, events[..n]);
    }
  }

  ghost predicate FirstToEnd(w: Waiter, events: seq<Event>, k: nat) {
    k < |events| && EndedBy(w, events[k]) && forall j :: 0 <= j < k ==> !EndedBy(w, events[j])
  }

  lemma {:induction false} NoFateIff(w: Waiter, now: nat, events: seq<Event>)
    requires now >= w.startedAt
    ensures FateOf(w, now, events).None? <==> forall k :: 0 <= k < |events| ==> !EndedBy(w, events[k])
    decreases |events|
  {
    hide EndedBy;
    hide SettledBy;
    if events != [] {
      var rest := events[1..];
      SettledIffEnded(w, now, events[0]);
      NoFateIff(w, After(now, events[0]), rest);
      assert forall k :: 0 <= k < |rest| ==> rest[k] == events[k + 1];
      assert forall k :: 0 < k < |events| ==> events[k] == rest[k - 1];
    }
  }

  lemma {:induction false} FateIsTold(w: Waiter, now: nat, events: seq<Event>, k: nat)
    requires now >= w.startedAt && FirstToEnd(w, events, k)
    ensures var fate := FateOf(w, now, events);
      fate.Some? && Told(fate.value, w, now - w.startedAt + Waited(events[..k]), events[k])
    decreases |events|
  {
    hide EndedBy;
    hide Told;
    hide SettledBy;
    var first, rest := events[0], events[1..];
    SettledIffEnded(w, now, first);
    if k > 0 {
      assert forall j :: 0 <= j < |rest| ==> rest[j] == events[j + 1];
      assert FirstToEnd(w, rest, k - 1);
      FateIsTold(w, After(now, first), rest, k - 1);
      assert events[..k] == [first] + rest[..k - 1];
      WaitedAfter(first, rest[..k - 1]);
    }
  }

  lemma {:induction false} RepliesAreSettled(settled: seq<(Id, Reply)>, id: Id, reply: Reply)
    ensures reply in RepliesTo(settled, id) <==> (id, reply) in settled
    decreases |settled|
  {
    if settled != [] {
      var n := |settled| - 1;
      RepliesAreSettled(settled[..n], id, reply);
      assert settled == settled[..n] + [settled[n]];
    }
  }

  /** In every run of a host a request stays open exactly while no later event is its timer or a
      message with its id that is its response, `bridge:error` or any `:error`. The first such event
      ends it, once, and decides all the reply says: its response answers, a refusal refuses, another
      error fails, the timer leaves it unanswered; and the wait is the time gone by since it was sent. */
  lemma FirstEndingReplies(wait: nat, before: seq<Event>, w: Waiter, events: seq<Event>)
    requires MayAll(QUIET, wait, before + ([Sent(w)] + events))
    ensures var end := Run(QUIET, wait, before + ([Sent(w)] + events));
      && (w.id in end.waiters <==> forall k :: 0 <= k < |events| ==> !EndedBy(w, events[k]))
      && (w.id in end.waiters ==> forall reply :: (w.id, reply) !in end.settled)
      && (forall k: nat :: FirstToEnd(w, events, k) ==>
           && |RepliesTo(end.settled, w.id)| == 1
           && forall reply :: (w.id, reply) in end.settled ==> Told(reply, w, Waited(events[..k]), events[k]))
  {
    hide Told;
    hide FateOf;
    hide MayAll;
    RequestSettlesOnce(wait, before, w, events);
    NoFateIff(w, w.startedAt, events);
    var end := Run(QUIET, wait, before + ([Sent(w)] + events));
    forall reply {
      RepliesAreSettled(end.settled, w.id, reply);
    }
    forall k: nat | FirstToEnd(w, events, k)
      ensures var fate := FateOf(w, w.startedAt, events);
        fate.Some? && Told(fate.value, w, Waited(events[..k]), events[k])
    {
      FateIsTold(w, w.startedAt, events, k);
    }
  }
}
