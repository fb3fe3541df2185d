/** The parts of a run, read line by line from its journal. */
module JournalParts {
  import opened Options

  /** A parsed JSON value; a number, a truth value or null is a `Scalar`. */
  datatype Value = Str(s: string) | Arr(items: seq<Value>) | Obj(fields: map<string, Value>) | Scalar

  /** A line, and what it parses to; nothing when it does not parse. */
  datatype Line = Line(text: string, parsed: Option<Value>)

  datatype Part = Part(startedAt: Option<string>, endedAt: Option<string>, wrote: seq<string>)

  /** The instant a text dates, if it does. */
  type Clock = string -> Option<int>

  predicate StartsWith(text: string, prefix: string) {
    |text| >= |prefix| && text[..|prefix|] == prefix
  }

  const PART := "{\"part\":"
  const END := "{\"end\":"
  const X := "[\"x\""
  const P := "[\"p\""
  const G := "[\"g\""

  predicate IsId(s: string) {
    (|s| == 15 || |s| == 18) &&
    forall c | c in s :: 'A' <= c <= 'Z' || 'a' <= c <= 'z' || '0' <= c <= '9'
  }

  function Field(v: Option<Value>, name: string): Option<Value> {
    if v.Some? && v.value.Obj? && name in v.value.fields then Some(v.value.fields[name]) else None
  }

  function Item(items: seq<Value>, k: nat): Option<Value> {
    if k < |items| then Some(items[k]) else None
  }

  predicate IsIdValue(v: Option<Value>) {
    v.Some? && v.value.Str? && IsId(v.value.s)
  }

  predicate IsHeader(line: Line) {
    StartsWith(line.text, PART)
  }

  function StartOf(line: Line): Option<string> {
    match Field(Field(line.parsed, "part"), "startedAt")
    case Some(Str(s)) => if s == "" then None else Some(s)
    case _ => None
  }

  // ----- What one line says of the part it stands in

  function Items(line: Line): seq<Value> {
    if (StartsWith(line.text, X) || StartsWith(line.text, P) || StartsWith(line.text, G))
       && line.parsed.Some? && line.parsed.value.Arr?
    then line.parsed.value.items
    else []
  }

  /** The records the line says were written to: one, or none. */
  function Ids(line: Line): seq<string> {
    var items := if StartsWith(line.text, END) then [] else Items(line);
    if Item(items, 0) == Some(Str("p")) && IsIdValue(Item(items, 1)) then [items[1].s]
    else if Item(items, 0) == Some(Str("g")) && IsIdValue(Item(items, 2)) then [items[2].s]
    else []
  }

  /** The time the line holds, if it holds one that reads as a date. */
  function TimeOf(line: Line, clock: Clock): (held: Option<string>)
    ensures held.Some? ==> clock(held.value).Some?
  {
    var time :=
      if StartsWith(line.text, END) then Field(Field(line.parsed, "end"), "at")
      else if Item(Items(line), 0) == Some(Str("x")) then Item(Items(line), 3)
      else None;
    if time.Some? && time.value.Str? && clock(time.value.s).Some? then Some(time.value.s) else None
  }

  predicate After(a: string, b: string, clock: Clock) {
    clock(a).Some? && clock(b).Some? && clock(a).value > clock(b).value
  }

  function Later(end: Option<string>, time: Option<string>, clock: Clock): Option<string> {
    if time.Some? && (end.None? || After(time.value, end.value, clock)) then time else end
  }

  function Heard(part: Part, line: Line, clock: Clock): Part {
    Part(part.startedAt, Later(part.endedAt, TimeOf(line, clock), clock), part.wrote + Ids(line))
  }

  // ----- What a line says, as it is written

  ghost predicate Begins(text: string, prefix: string) {
    exists rest: string :: text == prefix + rest
  }

  lemma BeginsIff(text: string, prefix: string)
    ensures StartsWith(text, prefix) <==> Begins(text, prefix)
  {
    if StartsWith(text, prefix) {
      assert text == prefix + text[|prefix|..];
    }
    forall rest: string | text == prefix + rest
      ensures StartsWith(text, prefix)
    {
      assert text[..|prefix|] == prefix;
    }
  }

  /** Fifteen letters or digits, or eighteen. */
  lemma IdsAsWritten(s: string)
    ensures IsId(s) <==>
      exists head: string, tail: string ::
        s == head + tail && |head| == 15 && |tail| in {0, 3} && Alphanumeric(head) && Alphanumeric(tail)
  {
    if IsId(s) {
      assert forall k | 0 <= k < |s| :: s[k] in s;
      assert s == s[..15] + s[15..] && Alphanumeric(s[..15]) && Alphanumeric(s[15..]);
    }
  }

  ghost predicate Alphanumeric(s: string) {
    forall k | 0 <= k < |s| ::
      || 'A' as int <= s[k] as int < 'A' as int + 26
      || 'a' as int <= s[k] as int < 'a' as int + 26
      || '0' as int <= s[k] as int < '0' as int + 10
  }

  /** The value of a field two objects down. */
  ghost predicate Holds(v: Option<Value>, outer: string, inner: string, value: Value) {
    && v.Some? && v.value.Obj? && outer in v.value.fields
    && v.value.fields[outer].Obj? && inner in v.value.fields[outer].fields
    && v.value.fields[outer].fields[inner] == value
  }

  ghost predicate BeginsEntry(line: Line) {
    Begins(line.text, "[\"x\"") || Begins(line.text, "[\"p\"") || Begins(line.text, "[\"g\"")
  }

  /** The line parses to an array that starts so. */
  ghost predicate Lists(line: Line, start: seq<Value>) {
    exists rest: seq<Value> :: line.parsed == Some(Arr(start + rest))
  }

  lemma ListsIff(line: Line, start: seq<Value>)
    ensures Lists(line, start) <==>
      && line.parsed.Some? && line.parsed.value.Arr?
      && |start| <= |line.parsed.value.items| && line.parsed.value.items[..|start|] == start
  {
    if line.parsed.Some? && line.parsed.value.Arr? {
      var items := line.parsed.value.items;
      if |start| <= |items| && items[..|start|] == start {
        assert items == start + items[|start|..];
      }
    }
  }

  lemma EntryItems(line: Line)
    ensures Items(line) ==
      if BeginsEntry(line) && line.parsed.Some? && line.parsed.value.Arr? then line.parsed.value.items else []
  {
    BeginsIff(line.text, "[\"x\"");
    BeginsIff(line.text, "[\"p\"");
    BeginsIff(line.text, "[\"g\"");
  }

  /** A line names one record written to at most, and which: the second item of a `p` line, the third
      of a `g` line, where it is an id. */
  lemma IdsSay(line: Line, id: string)
    ensures |Ids(line)| <= 1
    ensures Ids(line) == [id] <==>
      BeginsEntry(line) && IsId(id) &&
      (Lists(line, [Str("p"), Str(id)]) || exists name: Value :: Lists(line, [Str("g"), name, Str(id)]))
  {
    hide Items;
    hide BeginsEntry;
    hide IsId;
    hide Lists;
    hide StartsWith;
    BeginsIff(line.text, "{\"end\":");
    EndIsNoEntry(line);
    EntryItems(line);
    ListsIff(line, [Str("p"), Str(id)]);
    forall name: Value
      ensures Lists(line, [Str("g"), name, Str(id)]) ==>
        line.parsed.Some? && line.parsed.value.Arr? && |line.parsed.value.items| >= 3 &&
        line.parsed.value.items[0] == Str("g") && line.parsed.value.items[2] == Str(id)
    {
      ListsIff(line, [Str("g"), name, Str(id)]);
    }
    var items := Items(line);
    if |items| >= 3 {
      ListsIff(line, [Str("g"), items[1], Str(id)]);
    }
  }

  lemma EndIsNoEntry(line: Line)
    ensures Begins(line.text, "{\"end\":") ==> !BeginsEntry(line)
  {
    BeginsIff(line.text, "{\"end\":");
    BeginsIff(line.text, "[\"x\"");
    BeginsIff(line.text, "[\"p\"");
    BeginsIff(line.text, "[\"g\"");
    assert Begins(line.text, "{\"end\":") ==> line.text[..7][0] == '{';
    assert BeginsEntry(line) ==> line.text[..4][0] == '[';
  }

  /** A line holds a time where it is an end with one, or an `x` line whose fourth item is one, and it
      reads as a date. */
  lemma TimeSays(line: Line, time: string, clock: Clock)
    ensures TimeOf(line, clock) == Some(time) <==>
      clock(time).Some? &&
      if Begins(line.text, "{\"end\":") then Holds(line.parsed, "end", "at", Str(time))
      else BeginsEntry(line) && exists a: Value, b: Value :: Lists(line, [Str("x"), a, b, Str(time)])
  {
    hide Items;
    hide BeginsEntry;
    hide Lists;
    hide StartsWith;
    BeginsIff(line.text, "{\"end\":");
    EntryItems(line);
    forall a: Value, b: Value
      ensures Lists(line, [Str("x"), a, b, Str(time)]) ==>
        line.parsed.Some? && line.parsed.value.Arr? && |line.parsed.value.items| >= 4 &&
        line.parsed.value.items[0] == Str("x") && line.parsed.value.items[3] == Str(time)
    {
      ListsIff(line, [Str("x"), a, b, Str(time)]);
    }
    var items := Items(line);
    if |items| >= 4 {
      ListsIff(line, [Str("x"), items[1], items[2], Str(time)]);
    }
  }

  /** A part begins at a line that starts so, at the time it names when it names one. */
  lemma HeaderSays(line: Line, start: string)
    ensures IsHeader(line) <==> Begins(line.text, "{\"part\":")
    ensures StartOf(line) == Some(start) <==> start != "" && Holds(line.parsed, "part", "startedAt", Str(start))
  {
    BeginsIff(line.text, "{\"part\":");
  }

  // ----- The journal as its parts

  /** The lines up to the next header. */
  function Body(lines: seq<Line>): (body: seq<Line>)
    ensures body <= lines
    ensures forall line | line in body :: !IsHeader(line)
    ensures |body| < |lines| ==> IsHeader(lines[|body|])
  {
    if lines == [] || IsHeader(lines[0]) then []
    else
      var rest := Body(lines[1..]);
      assert lines == [lines[0]] + lines[1..];
      [lines[0]] + rest
  }

  function Writes(body: seq<Line>): seq<string> {
    if body == [] then [] else Ids(body[0]) + Writes(body[1..])
  }

  /** The latest of a time and those the lines hold, the first of them when several are. */
  function Latest(end: Option<string>, body: seq<Line>, clock: Clock): Option<string>
    decreases |body|
  {
    if body == [] then end else Latest(Later(end, TimeOf(body[0], clock), clock), body[1..], clock)
  }

  function Extended(part: Part, body: seq<Line>, clock: Clock): Part {
    Part(part.startedAt, Latest(part.endedAt, body, clock), part.wrote + Writes(body))
  }

  function PartUnder(header: Line, body: seq<Line>, clock: Clock): Part {
    Part(StartOf(header), Latest(None, body, clock), Writes(body))
  }

  function Parts(lines: seq<Line>, clock: Clock): seq<Part>
    decreases |lines|
  {
    if lines == [] then []
    else if IsHeader(lines[0]) then [PartUnder(lines[0], Body(lines[1..]), clock)] + Parts(lines[1..], clock)
    else Parts(lines[1..], clock)
  }

  function Finished(parts: seq<Part>, lines: seq<Line>, clock: Clock): seq<Part> {
    (if parts == [] then []
     else parts[..|parts| - 1] + [Extended(parts[|parts| - 1], Body(lines), clock)]) + Parts(lines, clock)
  }

  lemma FinishedHeader(parts: seq<Part>, lines: seq<Line>, clock: Clock)
    requires lines != [] && IsHeader(lines[0])
    ensures Finished(parts, lines, clock) == Finished(parts + [Part(StartOf(lines[0]), None, [])], lines[1..], clock)
  {
    hide StartOf;
    hide IsHeader;
    hide Latest;
    var begun := Part(StartOf(lines[0]), None, []);
    var more, body := parts + [begun], Body(lines[1..]);
    assert more[..|more| - 1] == parts && more[|more| - 1] == begun;
    assert Extended(begun, body, clock) == PartUnder(lines[0], body, clock) by {
      assert [] + Writes(body) == Writes(body);
    }
    assert Parts(lines, clock) == [PartUnder(lines[0], body, clock)] + Parts(lines[1..], clock);
    NothingMore(parts, clock);
    assert Body(lines) == [];
    var rest := Parts(lines[1..], clock);
    assert parts + ([PartUnder(lines[0], body, clock)] + rest) == (parts + [PartUnder(lines[0], body, clock)]) + rest;
  }

  lemma NothingMore(parts: seq<Part>, clock: Clock)
    ensures parts != [] ==> parts[..|parts| - 1] + [Extended(parts[|parts| - 1], [], clock)] == parts
  {
    if parts != [] {
      var last := parts[|parts| - 1];
      assert last.wrote + [] == last.wrote;
      assert Extended(last, [], clock) == last;
    }
  }

  lemma FinishedLine(parts: seq<Part>, lines: seq<Line>, clock: Clock)
    requires lines != [] && !IsHeader(lines[0])
    ensures Finished(parts, lines, clock) ==
      Finished(if parts == [] then [] else parts[|parts| - 1 := Heard(parts[|parts| - 1], lines[0], clock)], lines[1..], clock)
  {
    if parts != [] {
      var part, body := parts[|parts| - 1], Body(lines[1..]);
      assert Body(lines) == [lines[0]] + body && ([lines[0]] + body)[1..] == body;
      assert part.wrote + (Ids(lines[0]) + Writes(body)) == (part.wrote + Ids(lines[0])) + Writes(body);
      assert Extended(part, Body(lines), clock) == Extended(Heard(part, lines[0], clock), body, clock);
    }
  }

  method PartLines(lines: seq<Line>, clock: Clock) returns (parts: seq<Part>)
    ensures parts == Parts(lines, clock)
  {
    parts := [];
    var i := 0;
    assert lines[0..] == lines;
    while i < |lines|
      invariant 0 <= i <= |lines|
      invariant Parts(lines, clock) == Finished(parts, lines[i..], clock)
    {
      var line := lines[i];
      assert lines[i..][0] == line && lines[i..][1..] == lines[i + 1..];
      if StartsWith(line.text, PART) {
        FinishedHeader(parts, lines[i..], clock);
        parts := parts + [Part(StartOf(line), None, [])];
      } else {
        FinishedLine(parts, lines[i..], clock);
        if parts != [] {
          var current := Hear(parts[|parts| - 1], line, clock);
          parts := parts[|parts| - 1 := current];
        }
      }
      i := i + 1;
    }
    NothingMore(parts, clock);
  }

  method Hear(part: Part, line: Line, clock: Clock) returns (now: Part)
    ensures now == Heard(part, line, clock)
  {
    now := part;
    var time: Option<Value> := None;
    if StartsWith(line.text, END) {
      if line.parsed.Some? {
        time := Field(Field(line.parsed, "end"), "at");
      }
    } else if !StartsWith(line.text, X) && !StartsWith(line.text, P) && !StartsWith(line.text, G) {
      return;
    } else if line.parsed.None? || !line.parsed.value.Arr? {
      return;
    } else {
      var items := line.parsed.value.items;
      if Item(items, 0) == Some(Str("x")) {
        time := Item(items, 3);
      } else if Item(items, 0) == Some(Str("p")) && IsIdValue(Item(items, 1)) {
        now := now.(wrote := now.wrote + [items[1].s]);
      } else if Item(items, 0) == Some(Str("g")) && IsIdValue(Item(items, 2)) {
        now := now.(wrote := now.wrote + [items[2].s]);
      }
    }
    if time.Some? && time.value.Str? && clock(time.value.s).Some? {
      if now.endedAt.None? || After(time.value.s, now.endedAt.value, clock) {
        now := now.(endedAt := Some(time.value.s));
      }
    }
  }

  // ----- What reading a journal back gives

  predicate NoHeader(lines: seq<Line>) {
    forall line | line in lines :: !IsHeader(line)
  }

  lemma {:induction false} PartsSplit(before: seq<Line>, after: seq<Line>, clock: Clock)
    requires after == [] || IsHeader(after[0])
    ensures Parts(before + after, clock) == Parts(before, clock) + Parts(after, clock)
    decreases |before|
  {
    hide IsHeader;
    hide PartUnder;
    hide Body;
    if before == [] {
      assert before + after == after;
    } else {
      var rest := before[1..];
      assert (before + after)[0] == before[0] && (before + after)[1..] == rest + after;
      PartsSplit(rest, after, clock);
      if after == [] {
        assert rest + after == rest;
      } else {
        BodyStops(rest, after);
      }
      if IsHeader(before[0]) {
        var part := PartUnder(before[0], Body(rest), clock);
        assert [part] + (Parts(rest, clock) + Parts(after, clock)) == ([part] + Parts(rest, clock)) + Parts(after, clock);
      }
    }
  }

  /** A journal is read part by part: what stands before a header, and from the next one on, is read
      as if it stood alone. */
  lemma PartsReadApart(before: seq<Line>, header: Line, body: seq<Line>, after: seq<Line>, clock: Clock)
    requires IsHeader(header) && NoHeader(body) && (after == [] || IsHeader(after[0]))
    ensures Parts(before + ([header] + (body + after)), clock) ==
      Parts(before, clock) + ([PartUnder(header, body, clock)] + Parts(after, clock))
  {
    var tail := [header] + (body + after);
    PartsSplit(before, tail, clock);
    assert tail[1..] == body + after;
    BodyOf(body, after);
    PassedOver(body, after, clock);
  }

  lemma {:induction false} BodyOf(body: seq<Line>, after: seq<Line>)
    requires NoHeader(body) && (after == [] || IsHeader(after[0]))
    ensures Body(body + after) == body
    decreases |body|
  {
    if body == [] {
      assert body + after == after;
    } else {
      assert (body + after)[1..] == body[1..] + after;
      BodyOf(body[1..], after);
      assert body == [body[0]] + body[1..];
    }
  }

  lemma {:induction false} BodyStops(lines: seq<Line>, after: seq<Line>)
    requires after != [] && IsHeader(after[0])
    ensures Body(lines + after) == Body(lines)
    decreases |lines|
  {
    if lines == [] {
      assert lines + after == after;
    } else {
      assert (lines + after)[1..] == lines[1..] + after;
      BodyStops(lines[1..], after);
    }
  }

  /** The lines before the first header change nothing. */
  lemma {:induction false} PassedOver(before: seq<Line>, after: seq<Line>, clock: Clock)
    requires NoHeader(before)
    ensures Parts(before + after, clock) == Parts(after, clock)
    decreases |before|
  {
    if before == [] {
      assert before + after == after;
    } else {
      assert (before + after)[1..] == before[1..] + after;
      PassedOver(before[1..], after, clock);
    }
  }

  /** A line that is no header, names no record written to and holds no time. */
  predicate Unread(line: Line, clock: Clock) {
    !IsHeader(line) && Ids(line) == [] && TimeOf(line, clock).None?
  }

  /** Nor does such a line anywhere: one cut short among them. */
  lemma {:induction false} UnreadLineChangesNothing(before: seq<Line>, line: Line, after: seq<Line>, clock: Clock)
    requires Unread(line, clock)
    ensures Parts(before + [line] + after, clock) == Parts(before + after, clock)
    decreases |before|
  {
    hide Unread;
    var with, without := before + [line] + after, before + after;
    if before == [] {
      assert with[1..] == after && without == after;
      assert !IsHeader(line) by {
        UnreadIsNoHeader(line, clock);
      }
    } else {
      assert with[1..] == before[1..] + [line] + after && without[1..] == before[1..] + after;
      UnreadLineChangesNothing(before[1..], line, after, clock);
      UnreadInBody(before[1..], line, after, None, clock);
    }
  }

  lemma UnreadIsNoHeader(line: Line, clock: Clock)
    requires Unread(line, clock)
    ensures !IsHeader(line)
  {
  }

  lemma {:induction false} UnreadInBody(before: seq<Line>, line: Line, after: seq<Line>, end: Option<string>, clock: Clock)
    requires Unread(line, clock)
    ensures Writes(Body(before + [line] + after)) == Writes(Body(before + after))
    ensures Latest(end, Body(before + [line] + after), clock) == Latest(end, Body(before + after), clock)
    decreases |before|
  {
    var with, without := before + [line] + after, before + after;
    if before == [] {
      assert with[1..] == after && without == after;
      assert Body(with)[1..] == Body(after);
      assert [] + Writes(Body(after)) == Writes(Body(after));
    } else {
      assert with[1..] == before[1..] + [line] + after && without[1..] == before[1..] + after;
      if !IsHeader(before[0]) {
        UnreadInBody(before[1..], line, after, Later(end, TimeOf(before[0], clock), clock), clock);
        assert Body(with)[1..] == Body(with[1..]) && Body(without)[1..] == Body(without[1..]);
      }
    }
  }

  /** A part's end is among the times of its lines, no time is after it, and none before it in the
      journal is as late; there is none exactly when no line holds a time. */
  lemma {:induction false} EndIsLatest(end: Option<string>, body: seq<Line>, clock: Clock)
    requires end.Some? ==> clock(end.value).Some?
    ensures var last := Latest(end, body, clock);
      && (last.None? <==> end.None? && forall k | 0 <= k < |body| :: TimeOf(body[k], clock).None?)
      && (last.Some? ==> clock(last.value).Some?)
      && (end.Some? ==> last.Some? && clock(end.value).value <= clock(last.value).value)
      && (last.Some? ==> forall k | 0 <= k < |body| && TimeOf(body[k], clock).Some? ::
            clock(TimeOf(body[k], clock).value).value <= clock(last.value).value)
      && (last != end ==> exists k :: FirstLatest(end, body, k, last, clock))
    decreases |body|
  {
    hide TimeOf;
    if body != [] {
      var rest, time := body[1..], TimeOf(body[0], clock);
      var now := Later(end, time, clock);
      EndIsLatest(now, rest, clock);
      var last := Latest(end, body, clock);
      assert forall k | 0 < k < |body| :: body[k] == rest[k - 1];
      assert forall k | 0 <= k < |rest| :: rest[k] == body[k + 1];
      if last != end {
        if last == now {
          assert FirstLatest(end, body, 0, last, clock);
        } else {
          var k :| FirstLatest(now, rest, k, last, clock);
          assert FirstLatest(end, body, k + 1, last, clock);
        }
      }
    }
  }

  /** Line `k` holds the time `last`, and it is after every time before it. */
  ghost predicate FirstLatest(end: Option<string>, body: seq<Line>, k: int, last: Option<string>, clock: Clock) {
    && 0 <= k < |body| && last.Some? && TimeOf(body[k], clock) == last
    && (end.Some? && clock(end.value).Some? ==> clock(end.value).value < clock(last.value).value)
    && forall j | 0 <= j < k && TimeOf(body[j], clock).Some? ::
         clock(TimeOf(body[j], clock).value).value < clock(last.value).value
  }

  // ----- A journal as it is written

  /** What a part writes down: a call sent, a lookup filled in, a status given, its end. */
  datatype Entry =
    | Sent(rest: seq<Value>, at: string)
    | Filled(id: string, field: string)
    | Given(name: string, id: string)
    | Ended(fields: map<string, Value>, at: string)

  datatype Written = Written(startedAt: string, fields: map<string, Value>, entries: seq<Entry>)

  predicate Writable(entry: Entry, clock: Clock) {
    match entry
    case Sent(rest, at) => |rest| == 2 && clock(at).Some?
    case Filled(id, _) => IsId(id)
    case Given(_, id) => IsId(id)
    case Ended(_, at) => clock(at).Some?
  }

  ghost predicate Says(line: Line, entry: Entry) {
    match entry
    case Sent(rest, at) => StartsWith(line.text, X) && line.parsed == Some(Arr([Str("x")] + rest + [Str(at)]))
    case Filled(id, field) => StartsWith(line.text, P) && line.parsed == Some(Arr([Str("p"), Str(id), Str(field)]))
    case Given(name, id) => StartsWith(line.text, G) && line.parsed == Some(Arr([Str("g"), Str(name), Str(id)]))
    case Ended(fields, at) => StartsWith(line.text, END) && line.parsed == Some(Obj(map["end" := Obj(fields["at" := Str(at)])]))
  }

  ghost predicate SaysAll(lines: seq<Line>, entries: seq<Entry>)
    decreases |entries|
  {
    if entries == [] then lines == []
    else lines != [] && Says(lines[0], entries[0]) && SaysAll(lines[1..], entries[1..])
  }

  ghost predicate Opens(line: Line, w: Written) {
    StartsWith(line.text, PART) && w.startedAt != "" &&
    line.parsed == Some(Obj(map["part" := Obj(w.fields["startedAt" := Str(w.startedAt)])]))
  }

  function IdsOf(entries: seq<Entry>): seq<string> {
    if entries == [] then []
    else (if entries[0].Filled? || entries[0].Given? then [entries[0].id] else []) + IdsOf(entries[1..])
  }

  function LastOf(end: Option<string>, entries: seq<Entry>, clock: Clock): Option<string>
    decreases |entries|
  {
    if entries == [] then end
    else LastOf(if entries[0].Sent? || entries[0].Ended? then Later(end, Some(entries[0].at), clock) else end, entries[1..], clock)
  }

  predicate AllWritable(entries: seq<Entry>, clock: Clock) {
    forall k | 0 <= k < |entries| :: Writable(entries[k], clock)
  }

  lemma SaysOne(line: Line, entry: Entry, clock: Clock)
    requires Says(line, entry) && Writable(entry, clock)
    ensures !IsHeader(line)
    ensures Ids(line) == if entry.Filled? || entry.Given? then [entry.id] else []
    ensures TimeOf(line, clock) == if entry.Sent? || entry.Ended? then Some(entry.at) else None
  {
    match entry
    case Sent(rest, at) =>
      assert line.text[..4][0] == '[' && Items(line)[3] == Str(at);
    case Filled(id, field) =>
      assert line.text[..4][0] == '[' && Items(line)[1] == Str(id);
    case Given(name, id) =>
      assert line.text[..4][0] == '[' && Items(line)[2] == Str(id);
    case Ended(fields, at) =>
      assert line.text[..7][2] == 'e';
      assert |line.text| >= 8 ==> line.text[..8][2] == line.text[..7][2];
  }

  lemma {:induction false} EntriesReadBack(lines: seq<Line>, entries: seq<Entry>, end: Option<string>, clock: Clock)
    requires SaysAll(lines, entries) && AllWritable(entries, clock)
    ensures NoHeader(lines) && Writes(lines) == IdsOf(entries) && Latest(end, lines, clock) == LastOf(end, entries, clock)
    decreases |entries|
  {
    if entries != [] {
      SaysOne(lines[0], entries[0], clock);
      EntriesReadBack(lines[1..], entries[1..], Later(end, TimeOf(lines[0], clock), clock), clock);
      assert lines == [lines[0]] + lines[1..];
    }
  }

  /** The lines of the parts, each a header that says when it began and then its entries. */
  ghost predicate Journal(lines: seq<Line>, written: seq<Written>)
    decreases |written|
  {
    if written == [] then lines == []
    else
      && lines != [] && Opens(lines[0], written[0])
      && SaysAll(Body(lines[1..]), written[0].entries)
      && Journal(lines[1..][|Body(lines[1..])|..], written[1..])
  }

  function Said(w: Written, clock: Clock): Part {
    Part(Some(w.startedAt), LastOf(None, w.entries, clock), IdsOf(w.entries))
  }

  function SaidAll(written: seq<Written>, clock: Clock): seq<Part> {
    if written == [] then [] else [Said(written[0], clock)] + SaidAll(written[1..], clock)
  }

  /** A journal reads back as what was written: one part for each header, with when it began, exactly
      the records it wrote to, in order, and the latest of its times. */
  lemma {:induction false} JournalReadsBack(lines: seq<Line>, written: seq<Written>, clock: Clock)
    requires Journal(lines, written) && forall k | 0 <= k < |written| :: AllWritable(written[k].entries, clock)
    ensures Parts(lines, clock) == SaidAll(written, clock)
    decreases |written|
  {
    if written != [] {
      var body := Body(lines[1..]);
      var after := lines[1..][|body|..];
      assert lines[1..] == body + after;
      assert StartOf(lines[0]) == Some(written[0].startedAt);
      EntriesReadBack(body, written[0].entries, None, clock);
      PassedOver(body, after, clock);
      JournalReadsBack(after, written[1..], clock);
    }
  }
}
