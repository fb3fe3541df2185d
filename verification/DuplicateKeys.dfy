/** The walk of raw JSON text that finds keys written twice: one cursor, moved by every reader. */
module DuplicateKeys {
  import opened SourceText
  import opened JsonText
  import RepeatedKeys

  // ----- A text at a place of another

  ghost predicate Stands(text: Text, at: nat, s: Text)
    decreases |s|
  {
    if s == [] then at <= |text|
    else at < |text| && text[at] == s[0] && Stands(text, at + 1, s[1..])
  }

  lemma {:induction false} StandsSplit(text: Text, at: nat, a: Text, b: Text)
    ensures Stands(text, at, a + b) <==> Stands(text, at, a) && Stands(text, at + |a|, b)
    decreases |a|
  {
    if a == [] {
      assert a + b == b;
      StandsCut(text, at, b);
    } else {
      assert (a + b)[0] == a[0] && (a + b)[1..] == a[1..] + b;
      StandsSplit(text, at + 1, a[1..], b);
    }
  }

  /** A text stands at a place exactly when it is the slice there. */
  lemma {:induction false} StandsCut(text: Text, at: nat, s: Text)
    ensures Stands(text, at, s) <==> at + |s| <= |text| && text[at..at + |s|] == s
    decreases |s|
  {
    if s != [] {
      StandsCut(text, at + 1, s[1..]);
      if at + |s| <= |text| {
        var slice := text[at..at + |s|];
        assert slice[0] == text[at] && slice[1..] == text[at + 1..at + |s|];
        assert s == [s[0]] + s[1..];
        assert slice == [slice[0]] + slice[1..];
      }
    } else {
      assert at <= |text| ==> text[at..at] == [];
    }
  }

  lemma StandsAt(text: Text, at: nat, s: Text, k: nat)
    requires Stands(text, at, s) && k < |s|
    ensures at + |s| <= |text| && text[at + k] == s[k]
  {
    StandsCut(text, at, s);
    assert text[at..at + |s|][k] == s[k];
  }


  // ----- Spelled strings read back

  /** What the characters between the quotes stand for, as a JSON parser reads them. */
  function Decoded(body: Text): Text
    decreases |body|
  {
    if body == [] then []
    else if body[0] != BACKSLASH then [body[0]] + Decoded(body[1..])
    else if |body| >= 6 && body[1] == LETTER_U && forall k :: 2 <= k < 6 ==> IsHexDigit(body[k]) then
      [MeaningOf(Hex(body[2..6]))] + Decoded(body[6..])
    else if |body| >= 2 && Escaped(body[1]).Some? then [Escaped(body[1]).value] + Decoded(body[2..])
    else []
  }

  lemma {:induction false} DecodedBody(s: Literal)
    requires Legal(s)
    ensures Decoded(Body(s)) == Meaning(s)
    decreases |s|
  {
    if s != [] {
      DecodedBody(s[1..]);
      var body, rest := Body(s), Body(s[1..]);
      match s[0]
      case Plain(u) =>
        assert body == [u] + rest && body[1..] == rest;
      case Escape(letter) =>
        assert body == [BACKSLASH, letter] + rest && body[2..] == rest;
      case Hex(digits) =>
        assert body == [BACKSLASH, LETTER_U] + digits + rest;
        assert body[2..6] == digits && body[6..] == rest;
        assert forall k :: 2 <= k < 6 ==> body[k] == digits[k - 2];
    }
  }

  /** The first quote from `j` on that no backslash escapes. */
  function StringEnd(text: Text, j: nat): nat
    decreases |text| - j
  {
    if j >= |text| || text[j] == QUOTE then j
    else StringEnd(text, j + if text[j] == BACKSLASH then 2 else 1)
  }

  lemma {:induction false} StringEndsAtQuote(text: Text, j: nat, s: Literal)
    requires Legal(s) && Stands(text, j, Body(s) + [QUOTE])
    ensures StringEnd(text, j) == j + |Body(s)|
    decreases |s|
  {
    StandsSplit(text, j, Body(s), [QUOTE]);
    StandsAt(text, j + |Body(s)|, [QUOTE], 0);
    if s != [] {
      var first, rest := Spelling(s[0]), Body(s[1..]);
      assert Body(s) + [QUOTE] == first + (rest + [QUOTE]);
      StandsSplit(text, j, first, rest + [QUOTE]);
      StringEndsAtQuote(text, j + |first|, s[1..]);
      SpellingIsPassed(text, j, s[0]);
    }
  }

  lemma SpellingIsPassed(text: Text, j: nat, c: Spelled)
    requires LegalSpelled(c) && Stands(text, j, Spelling(c))
    ensures StringEnd(text, j) == StringEnd(text, j + |Spelling(c)|)
  {
    StandsAt(text, j, Spelling(c), 0);
    match c
    case Plain(_) =>
    case Escape(letter) =>
    case Hex(digits) =>
      var s := Spelling(c);
      forall k | 0 <= k < 4 ensures digits[k] == text[j + 2 + k] {
        StandsAt(text, j, s, 2 + k);
      }
      assert digits[0] == text[j + 2] && digits[1] == text[j + 3] && digits[2] == text[j + 4] && digits[3] == text[j + 5];
      assert StringEnd(text, j) == StringEnd(text, j + 2);
      assert StringEnd(text, j + 2) == StringEnd(text, j + 3);
      assert StringEnd(text, j + 3) == StringEnd(text, j + 4);
      assert StringEnd(text, j + 4) == StringEnd(text, j + 5);
      assert StringEnd(text, j + 5) == StringEnd(text, j + 6);
  }

  // ----- What stands after a value

  /** The text ends here, or a space or a delimiter follows. */
  ghost predicate Cut(text: Text, at: nat) {
    at <= |text| && (at < |text| ==> EndsAtom(text[at]))
  }

  ghost predicate Spaces(t: Text) {
    forall k :: 0 <= k < |t| ==> IsSpace(t[k])
  }

  lemma SpacesStand(text: Text, at: nat, spaces: Text)
    requires Stands(text, at, spaces) && Spaces(spaces)
    ensures at + |spaces| <= |text| && forall k :: at <= k < at + |spaces| ==> IsSpace(text[k])
  {
    StandsCut(text, at, spaces);
    forall k | at <= k < at + |spaces| ensures IsSpace(text[k]) {
      StandsAt(text, at, spaces, k - at);
    }
  }

  lemma PrintStarts(v: Json)
    requires LegalJson(v)
    ensures Print(v) != [] && !IsSpace(Print(v)[0])
    ensures Print(v)[0] != CLOSE_BRACE && Print(v)[0] != CLOSE_BRACKET && Print(v)[0] != COMMA
    ensures Print(v)[0] == OPEN_BRACE <==> v.Object?
    ensures Print(v)[0] == OPEN_BRACKET <==> v.Array?
    ensures Print(v)[0] == QUOTE <==> v.String?
  {
    match v
    case Object(_, _) => assert Print(v)[0] == OPEN_BRACE;
    case Array(_, _) => assert Print(v)[0] == OPEN_BRACKET;
    case String(literal) => assert Print(v)[0] == QUOTE;
    case Atom(text) => assert EndsAtom(text[0]) == false;
  }

  ghost function Size(v: Json): nat {
    match v
    case Object(_, members) => 1 + SizeOfMembers(members)
    case Array(_, elements) => 1 + SizeOfElements(elements)
    case _ => 1
  }

  ghost function SizeOfMembers(m: Members): nat {
    if m.NoMember? then 0 else 1 + Size(m.value) + SizeOfMembers(m.rest)
  }

  ghost function SizeOfElements(e: Elements): nat {
    if e.NoElement? then 0 else 1 + Size(e.value) + SizeOfElements(e.rest)
  }

  // ----- Where the parts of a member and of an element stand

  ghost function KeyAt(p: nat, m: Members): nat
    requires m.Member?
  {
    p + |m.before|
  }

  ghost function ColonAt(p: nat, m: Members): nat
    requires m.Member?
  {
    KeyAt(p, m) + |Quoted(m.key)| + |m.afterKey|
  }

  ghost function ValueAt(p: nat, m: Members): nat
    requires m.Member?
  {
    ColonAt(p, m) + 1 + |m.beforeValue|
  }

  ghost function MemberEnd(p: nat, m: Members): nat
    requires m.Member?
  {
    ValueAt(p, m) + |Print(m.value)| + |m.afterValue|
  }

  ghost predicate MemberParts(text: Text, p: nat, m: Members)
    requires m.Member?
  {
    && Stands(text, p, m.before)
    && Stands(text, KeyAt(p, m), Quoted(m.key))
    && Stands(text, KeyAt(p, m) + |Quoted(m.key)|, m.afterKey)
    && Stands(text, ColonAt(p, m), [COLON])
    && Stands(text, ColonAt(p, m) + 1, m.beforeValue)
    && Stands(text, ValueAt(p, m), Print(m.value))
    && Stands(text, ValueAt(p, m) + |Print(m.value)|, m.afterValue)
    && (m.rest.Member? ==>
        && Stands(text, MemberEnd(p, m), [COMMA])
        && Stands(text, MemberEnd(p, m) + 1, PrintMembers(m.rest)))
  }

  lemma MemberStands(text: Text, p: nat, m: Members)
    requires m.Member? && Stands(text, p, PrintMembers(m))
    ensures MemberParts(text, p, m)
    ensures p + |PrintMembers(m)| ==
            MemberEnd(p, m) + if m.rest.Member? then 1 + |PrintMembers(m.rest)| else 0
  {
    hide Stands;
    hide Print;
    hide Quoted;
    var tail := if m.rest.NoMember? then [] else [COMMA] + PrintMembers(m.rest);
    var h := m.afterValue + tail;
    var f := Print(m.value) + h;
    var e := m.beforeValue + f;
    var d := [COLON] + e;
    var c := m.afterKey + d;
    var b := Quoted(m.key) + c;
    StandsSplit(text, p, m.before, b);
    StandsSplit(text, KeyAt(p, m), Quoted(m.key), c);
    StandsSplit(text, KeyAt(p, m) + |Quoted(m.key)|, m.afterKey, d);
    StandsSplit(text, ColonAt(p, m), [COLON], e);
    StandsSplit(text, ColonAt(p, m) + 1, m.beforeValue, f);
    StandsSplit(text, ValueAt(p, m), Print(m.value), h);
    StandsSplit(text, ValueAt(p, m) + |Print(m.value)|, m.afterValue, tail);
    if m.rest.Member? {
      StandsSplit(text, MemberEnd(p, m), [COMMA], PrintMembers(m.rest));
    }
  }

  ghost function ElementAt(p: nat, e: Elements): nat
    requires e.Element?
  {
    p + |e.before|
  }

  ghost function ElementEnd(p: nat, e: Elements): nat
    requires e.Element?
  {
    ElementAt(p, e) + |Print(e.value)| + |e.after|
  }

  ghost predicate ElementParts(text: Text, p: nat, e: Elements)
    requires e.Element?
  {
    && Stands(text, p, e.before)
    && Stands(text, ElementAt(p, e), Print(e.value))
    && Stands(text, ElementAt(p, e) + |Print(e.value)|, e.after)
    && (e.rest.Element? ==>
        && Stands(text, ElementEnd(p, e), [COMMA])
        && Stands(text, ElementEnd(p, e) + 1, PrintElements(e.rest)))
  }

  lemma ElementStands(text: Text, p: nat, e: Elements)
    requires e.Element? && Stands(text, p, PrintElements(e))
    ensures ElementParts(text, p, e)
    ensures p + |PrintElements(e)| ==
            ElementEnd(p, e) + if e.rest.Element? then 1 + |PrintElements(e.rest)| else 0
  {
    var tail := if e.rest.NoElement? then [] else [COMMA] + PrintElements(e.rest);
    StandsSplit(text, p, e.before, Print(e.value) + (e.after + tail));
    StandsSplit(text, ElementAt(p, e), Print(e.value), e.after + tail);
    StandsSplit(text, ElementAt(p, e) + |Print(e.value)|, e.after, tail);
    if e.rest.Element? {
      StandsSplit(text, ElementEnd(p, e), [COMMA], PrintElements(e.rest));
    }
  }

  /** White space and what follows it: a delimiter is not a space, and cuts what comes before. */
  lemma SpacesThenDelimiter(text: Text, at: nat, spaces: Text, u: Unit)
    requires Stands(text, at, spaces) && Spaces(spaces) && at + |spaces| < |text|
    requires text[at + |spaces|] == u && (u == COMMA || u == CLOSE_BRACE || u == CLOSE_BRACKET)
    ensures Cut(text, at) && !IsSpace(u)
  {
    if spaces != [] {
      StandsAt(text, at, spaces, 0);
    }
  }

  // ----- The readers

  class Walker {
    const text: Text
    var at: nat
    var found: seq<Text>

    constructor (text: Text)
      ensures this.text == text && at == 0 && found == []
    {
      this.text, at, found := text, 0, [];
    }

    method SkipSpace(ghost spaces: Text)
      requires Stands(text, at, spaces) && Spaces(spaces)
      requires at + |spaces| < |text| ==> !IsSpace(text[at + |spaces|])
      modifies this`at
      ensures at == old(at) + |spaces|
    {
      SpacesStand(text, at, spaces);
      while at < |text| && IsSpace(text[at])
        invariant old(at) <= at <= old(at) + |spaces|
        invariant forall k :: at <= k < old(at) + |spaces| ==> IsSpace(text[k])
      {
        at := at + 1;
      }
    }

    method ScanString()
      requires at + 1 <= StringEnd(text, at + 1) < |text|
      modifies this`at
      ensures at == StringEnd(text, old(at) + 1)
    {
      var start := at;
      at := at + 1;
      while text[at] != QUOTE
        invariant start < at <= StringEnd(text, start + 1) < |text|
        invariant StringEnd(text, at) == StringEnd(text, start + 1)
        decreases |text| - at
      {
        at := at + if text[at] == BACKSLASH then 2 else 1;
        StringEndAhead(text, at);
      }
    }

    /** Reads the string at the cursor, and ends past its closing quote. */
    method ReadString(ghost s: Literal) returns (key: Text)
      requires Legal(s) && Stands(text, at, Quoted(s))
      modifies this`at
      ensures at == old(at) + |Quoted(s)|
      ensures key == Meaning(s)
    {
      hide Quoted;
      hide Body;
      hide Meaning;
      hide Decoded;
      hide StringEnd;
      var start := at;
      QuotedStands(text, at, s);
      ScanString();
      at := at + 1;
      DecodedBody(s);
      key := Decoded(text[start + 1..at - 1]);
    }

    /** Reads the value at the cursor, past any space before it, and ends just past it; what its
        objects repeat goes on the list. */
    method ReadValue(path: Text, ghost before: Text, ghost v: Json)
      requires LegalJson(v) && Spaces(before)
      requires Stands(text, at, before) && Stands(text, at + |before|, Print(v))
      requires Cut(text, at + |before| + |Print(v)|)
      modifies this
      ensures at == old(at) + |before| + |Print(v)|
      ensures found == old(found) + Repeats(v, path)
      decreases Size(v), 1
    {
      PrintStarts(v);
      StandsAt(text, at + |before|, Print(v), 0);
      SkipSpace(before);
      if text[at] == OPEN_BRACE {
        ReadObject(path, v);
      } else if text[at] == OPEN_BRACKET {
        ReadArray(path, v);
      } else if text[at] == QUOTE {
        var _ := ReadString(v.literal);
      } else {
        ReadAtom(v);
      }
    }

    method ReadAtom(ghost v: Json)
      requires v.Atom? && LegalJson(v) && Stands(text, at, v.text) && Cut(text, at + |v.text|)
      modifies this`at
      ensures at == old(at) + |v.text|
    {
      ghost var start, end := at, at + |v.text|;
      forall k | start <= k < end ensures !EndsAtom(text[k]) {
        StandsAt(text, start, v.text, k - start);
      }
      while at < |text| && !EndsAtom(text[at])
        invariant start <= at <= end
      {
        at := at + 1;
      }
    }

    /** The key of a member, and the colon after it. */
    method ReadKey(ghost p: nat, ghost m: Members) returns (key: Text)
      requires m.Member? && LegalMembers(m) && MemberParts(text, p, m)
      requires at == p || at == KeyAt(p, m)
      modifies this`at
      ensures at == ColonAt(p, m) + 1
      ensures key == Meaning(m.key)
    {
      hide Stands;
      hide Print;
      hide PrintMembers;
      StandsAt(text, KeyAt(p, m), Quoted(m.key), 0);
      SkipSpace(if at == p then m.before else []);
      key := ReadString(m.key);
      StandsAt(text, ColonAt(p, m), [COLON], 0);
      SkipSpace(m.afterKey);
      at := at + 1;
    }

    /** The value of a member, past the comma that parts it from the next. */
    method ReadMemberValue(keyPath: Text, ghost p: nat, ghost m: Members, ghost end: nat)
      requires m.Member? && LegalMembers(m) && MemberParts(text, p, m)
      requires at == ColonAt(p, m) + 1
      requires m.rest.NoMember? ==> MemberEnd(p, m) == end < |text| && text[end] == CLOSE_BRACE
      modifies this
      ensures at == MemberEnd(p, m) + if m.rest.Member? then 1 else 0
      ensures found == old(found) + Repeats(m.value, keyPath)
      decreases Size(m.value), 2
    {
      hide Stands;
      hide Print;
      hide PrintMembers;
      hide Repeats;
      if m.rest.Member? {
        StandsAt(text, MemberEnd(p, m), [COMMA], 0);
      }
      SpacesThenDelimiter(text, ValueAt(p, m) + |Print(m.value)|, m.afterValue, if m.rest.Member? then COMMA else CLOSE_BRACE);
      ReadValue(keyPath, m.beforeValue, m.value);
      SkipSpace(m.afterValue);
      if text[at] == COMMA {
        at := at + 1;
      }
    }

    /** One member: its key, then its value, past the comma that parts it from the next. */
    method ReadMember(path: Text, seen: set<Text>, ghost p: nat, ghost m: Members, ghost end: nat) returns (now: set<Text>)
      requires m.Member? && LegalMembers(m) && MemberParts(text, p, m)
      requires at == p || at == KeyAt(p, m)
      requires m.rest.NoMember? ==> MemberEnd(p, m) == end < |text| && text[end] == CLOSE_BRACE
      modifies this
      ensures at == MemberEnd(p, m) + if m.rest.Member? then 1 else 0
      ensures now == seen + {Meaning(m.key)}
      ensures found == old(found)
        + (if Meaning(m.key) in seen then [KeyPath(path, Meaning(m.key))] else [])
        + Repeats(m.value, KeyPath(path, Meaning(m.key)))
      decreases Size(m.value), 3
    {
      var key := ReadKey(p, m);
      var keyPath := KeyPath(path, key);
      if key in seen {
        found := found + [keyPath];
      }
      now := seen + {key};
      ReadMemberValue(keyPath, p, m, end);
    }

    /** One element of an array, past the comma that parts it from the next. */
    method ReadElement(path: Text, index: nat, ghost p: nat, ghost e: Elements, ghost end: nat)
      requires e.Element? && LegalElements(e) && Stands(text, p, PrintElements(e))
      requires at == ElementAt(p, e)
      requires p + |PrintElements(e)| == end < |text| && text[end] == CLOSE_BRACKET
      modifies this
      ensures at == if e.rest.Element? then ElementAt(ElementEnd(p, e) + 1, e.rest) else end
      ensures found == old(found) + Repeats(e.value, IndexPath(path, index))
      decreases Size(e.value), 2
    {
      hide Stands;
      hide Print;
      hide PrintElements;
      hide Repeats;
      ElementStands(text, p, e);
      if e.rest.Element? {
        StandsAt(text, ElementEnd(p, e), [COMMA], 0);
        ElementStands(text, ElementEnd(p, e) + 1, e.rest);
        PrintStarts(e.rest.value);
        StandsAt(text, ElementAt(ElementEnd(p, e) + 1, e.rest), Print(e.rest.value), 0);
      }
      SpacesThenDelimiter(text, ElementAt(p, e) + |Print(e.value)|, e.after, if e.rest.Element? then COMMA else CLOSE_BRACKET);
      ReadValue(IndexPath(path, index), [], e.value);
      SkipSpace(e.after);
      if text[at] == COMMA {
        at := at + 1;
      }
      SkipSpace(if e.rest.Element? then e.rest.before else []);
    }

    /** The next member of an object, and what is left of its members. */
    method NextMember(path: Text, seen: set<Text>, ghost p: nat, ghost m: Members, ghost end: nat)
        returns (now: set<Text>, ghost q: nat, ghost rest: Members)
      requires LegalMembers(m) && MembersFrom(text, p, m, at, end)
      requires at <= end < |text| && text[end] == CLOSE_BRACE && text[at] != CLOSE_BRACE
      modifies this
      ensures LegalMembers(rest) && MembersFrom(text, q, rest, at, end) && at <= end
      ensures SizeOfMembers(rest) < SizeOfMembers(m)
      ensures found + RepeatsOfMembers(rest, path, now) == old(found) + RepeatsOfMembers(m, path, seen)
      decreases SizeOfMembers(m), 4
    {
      hide Stands;
      hide Print;
      hide PrintMembers;
      hide MembersFrom;
      hide RepeatsOfMembers;
      hide Repeats;
      ghost var start := at;
      MembersStart(text, p, m, at, end);
      RepeatsGoOn(m, path, seen, found);
      now := ReadMember(path, seen, p, m, end);
      q, rest := MemberEnd(p, m) + 1, m.rest;
      MembersGoOn(text, p, m, start, end, q, rest, at);
    }

    /** The members of an object, up to its closing brace. */
    method ReadMembers(path: Text, ghost start: nat, ghost members: Members, ghost end: nat)
      requires LegalMembers(members) && MembersFrom(text, start, members, at, end)
      requires at <= end < |text| && text[end] == CLOSE_BRACE
      modifies this
      ensures at == end
      ensures found == old(found) + RepeatsOfMembers(members, path, {})
      decreases SizeOfMembers(members), 5
    {
      var seen: set<Text> := {};
      ghost var p: nat, rest: Members := start, members;
      while text[at] != CLOSE_BRACE
        invariant at <= end && LegalMembers(rest) && MembersFrom(text, p, rest, at, end)
        invariant SizeOfMembers(rest) <= SizeOfMembers(members)
        invariant found + RepeatsOfMembers(rest, path, seen) == old(found) + RepeatsOfMembers(members, path, {})
        decreases SizeOfMembers(rest)
      {
        seen, p, rest := NextMember(path, seen, p, rest, end);
      }
    }

    method ReadObject(path: Text, ghost v: Json)
      requires v.Object? && LegalJson(v) && Stands(text, at, Print(v))
      modifies this
      ensures at == old(at) + |Print(v)|
      ensures found == old(found) + Repeats(v, path)
      decreases Size(v), 0
    {
      hide Print;
      hide MembersFrom;
      ghost var p: nat := at + 1;
      ObjectStands(text, at, v);
      at := at + 1;
      SkipSpace(if v.members.Member? then v.members.before else v.empty);
      ReadMembers(path, p, v.members, p + |Print(v)| - 2);
      at := at + 1;
    }

    /** The next element of an array, and what is left of its elements. */
    method NextElement(path: Text, index: nat, ghost p: nat, ghost e: Elements, ghost end: nat)
        returns (ghost q: nat, ghost rest: Elements)
      requires LegalElements(e) && ElementsFrom(text, p, e, at, end)
      requires at <= end < |text| && text[end] == CLOSE_BRACKET && text[at] != CLOSE_BRACKET
      modifies this
      ensures LegalElements(rest) && ElementsFrom(text, q, rest, at, end) && at <= end
      ensures SizeOfElements(rest) < SizeOfElements(e)
      ensures found + RepeatsOfElements(rest, path, index + 1) == old(found) + RepeatsOfElements(e, path, index)
      decreases SizeOfElements(e), 4
    {
      hide Stands;
      hide Print;
      hide PrintElements;
      hide Repeats;
      ElementsGoOn(text, p, e, at, end);
      q, rest := ElementEnd(p, e) + 1, e.rest;
      ReadElement(path, index, p, e, end);
    }

    /** The elements of an array, up to its closing bracket. */
    method ReadElements(path: Text, ghost start: nat, ghost elements: Elements, ghost end: nat)
      requires LegalElements(elements) && ElementsFrom(text, start, elements, at, end)
      requires at <= end < |text| && text[end] == CLOSE_BRACKET
      modifies this
      ensures at == end
      ensures found == old(found) + RepeatsOfElements(elements, path, 0)
      decreases SizeOfElements(elements), 5
    {
      var index := 0;
      ghost var p: nat, rest: Elements := start, elements;
      while text[at] != CLOSE_BRACKET
        invariant at <= end && LegalElements(rest) && ElementsFrom(text, p, rest, at, end)
        invariant SizeOfElements(rest) <= SizeOfElements(elements)
        invariant found + RepeatsOfElements(rest, path, index) == old(found) + RepeatsOfElements(elements, path, 0)
        decreases SizeOfElements(rest)
      {
        p, rest := NextElement(path, index, p, rest, end);
        index := index + 1;
      }
    }

    method ReadArray(path: Text, ghost v: Json)
      requires v.Array? && LegalJson(v) && Stands(text, at, Print(v))
      modifies this
      ensures at == old(at) + |Print(v)|
      ensures found == old(found) + Repeats(v, path)
      decreases Size(v), 0
    {
      hide Print;
      hide Stands;
      hide ElementsFrom;
      ghost var p: nat := at + 1;
      ArrayStands(text, at, v);
      at := at + 1;
      SkipSpace(if v.elements.Element? then v.elements.before else v.empty);
      ReadElements(path, p, v.elements, p + |Print(v)| - 2);
      at := at + 1;
    }
  }

  /** The rest of an array's elements stand from `p` to its bracket, the cursor at the first. */
  ghost predicate ElementsFrom(text: Text, p: nat, rest: Elements, at: nat, end: nat) {
    if rest.NoElement? then at == end
    else
      && Stands(text, p, PrintElements(rest)) && p + |PrintElements(rest)| == end
      && at == ElementAt(p, rest) && at < |text| && text[at] != CLOSE_BRACKET
  }

  lemma ElementsGoOn(text: Text, p: nat, e: Elements, at: nat, end: nat)
    requires LegalElements(e) && ElementsFrom(text, p, e, at, end)
    requires at <= end < |text| && text[end] == CLOSE_BRACKET && text[at] != CLOSE_BRACKET
    ensures e.Element?
    ensures var next := if e.rest.Element? then ElementAt(ElementEnd(p, e) + 1, e.rest) else end;
      next <= end && ElementsFrom(text, ElementEnd(p, e) + 1, e.rest, next, end)
  {
    hide Stands;
    hide Print;
    hide PrintElements;
    ElementStands(text, p, e);
    if e.rest.Element? {
      ElementFirst(text, ElementEnd(p, e) + 1, e.rest);
      ElementStands(text, ElementEnd(p, e) + 1, e.rest);
    }
  }

  lemma ArrayStands(text: Text, at: nat, v: Json)
    requires v.Array? && LegalJson(v) && Stands(text, at, Print(v))
    ensures var end := at + |Print(v)| - 1;
      && end < |text| && text[end] == CLOSE_BRACKET
      && ElementsFrom(text, at + 1, v.elements, if v.elements.Element? then ElementAt(at + 1, v.elements) else end, end)
      && (v.elements.NoElement? ==> Stands(text, at + 1, v.empty) && at + 1 + |v.empty| == end)
      && (v.elements.Element? ==>
          && Stands(text, at + 1, v.elements.before) && ElementAt(at + 1, v.elements) < end
          && !IsSpace(text[ElementAt(at + 1, v.elements)]))
  {
    hide Stands;
    hide PrintElements;
    hide LegalElements;
    var inner := if v.elements.NoElement? then v.empty else PrintElements(v.elements);
    Enclosed(text, at, OPEN_BRACKET, inner, CLOSE_BRACKET);
    if v.elements.Element? {
      ElementFirst(text, at + 1, v.elements);
      ElementStands(text, at + 1, v.elements);
    }
  }

  /** What stands between two brackets, and the closing one after it. */
  lemma Enclosed(text: Text, at: nat, open: Unit, inner: Text, close: Unit)
    requires Stands(text, at, [open] + inner + [close])
    ensures Stands(text, at + 1, inner)
    ensures at + 1 + |inner| < |text| && text[at + 1 + |inner|] == close
  {
    hide Stands;
    StandsSplit(text, at, [open] + inner, [close]);
    StandsSplit(text, at, [open], inner);
    StandsAt(text, at + 1 + |inner|, [close], 0);
  }

  /** The rest of an object's members stand from `p` to its brace, the cursor before the first. */
  ghost predicate MembersFrom(text: Text, p: nat, rest: Members, at: nat, end: nat) {
    if rest.NoMember? then at == end
    else
      && Stands(text, p, PrintMembers(rest)) && p + |PrintMembers(rest)| == end
      && (at == p || at == KeyAt(p, rest)) && at < |text| && text[at] != CLOSE_BRACE
  }

  lemma MembersStart(text: Text, p: nat, m: Members, at: nat, end: nat)
    requires LegalMembers(m) && MembersFrom(text, p, m, at, end)
    requires at <= end < |text| && text[end] == CLOSE_BRACE && text[at] != CLOSE_BRACE
    ensures m.Member? && MemberParts(text, p, m) && (at == p || at == KeyAt(p, m))
    ensures m.rest.NoMember? ==> MemberEnd(p, m) == end
  {
    MemberStands(text, p, m);
  }

  lemma MembersGoOn(text: Text, p: nat, m: Members, at: nat, end: nat, q: nat, rest: Members, next: nat)
    requires LegalMembers(m) && m.Member? && MembersFrom(text, p, m, at, end)
    requires q == MemberEnd(p, m) + 1 && rest == m.rest
    requires next == MemberEnd(p, m) + if m.rest.Member? then 1 else 0
    ensures next <= end && MembersFrom(text, q, rest, next, end)
  {
    hide Stands;
    hide Print;
    hide Quoted;
    hide PrintMembers;
    MemberStands(text, p, m);
    if rest.Member? {
      MemberFirst(text, q, rest);
    }
  }

  lemma RepeatsGoOn(m: Members, path: Text, seen: set<Text>, found: seq<Text>)
    requires LegalMembers(m) && m.Member?
    ensures var name := Meaning(m.key);
      found + RepeatsOfMembers(m, path, seen) ==
      (found + (if name in seen then [KeyPath(path, name)] else []) + Repeats(m.value, KeyPath(path, name)))
      + RepeatsOfMembers(m.rest, path, seen + {name})
  {
    var name := Meaning(m.key);
    var again := if name in seen then [KeyPath(path, name)] else [];
    var inner, after := Repeats(m.value, KeyPath(path, name)), RepeatsOfMembers(m.rest, path, seen + {name});
    assert RepeatsOfMembers(m, path, seen) == again + inner + after;
    Regroups(found, again, inner, after);
  }

  lemma Regroups(a: seq<Text>, b: seq<Text>, c: seq<Text>, d: seq<Text>)
    ensures a + (b + c + d) == (a + b + c) + d
  {
  }

  lemma ObjectStands(text: Text, at: nat, v: Json)
    requires v.Object? && LegalJson(v) && Stands(text, at, Print(v))
    ensures var end := at + |Print(v)| - 1;
      && end < |text| && text[end] == CLOSE_BRACE
      && MembersFrom(text, at + 1, v.members, if v.members.Member? then KeyAt(at + 1, v.members) else end, end)
      && (v.members.NoMember? ==> Stands(text, at + 1, v.empty) && at + 1 + |v.empty| == end)
      && (v.members.Member? ==>
          && Stands(text, at + 1, v.members.before) && KeyAt(at + 1, v.members) < end
          && text[KeyAt(at + 1, v.members)] == QUOTE)
  {
    hide Stands;
    hide PrintMembers;
    hide LegalMembers;
    var inner := if v.members.NoMember? then v.empty else PrintMembers(v.members);
    Enclosed(text, at, OPEN_BRACE, inner, CLOSE_BRACE);
    if v.members.Member? {
      MemberFirst(text, at + 1, v.members);
      MemberStands(text, at + 1, v.members);
    }
  }

  /** What begins a member is a space or its key's quote. */
  lemma MemberFirst(text: Text, p: nat, m: Members)
    requires m.Member? && LegalMembers(m) && Stands(text, p, PrintMembers(m))
    ensures Stands(text, p, m.before) && KeyAt(p, m) < |text|
    ensures text[p] != CLOSE_BRACE && text[KeyAt(p, m)] == QUOTE
  {
    MemberStands(text, p, m);
    StandsAt(text, KeyAt(p, m), Quoted(m.key), 0);
    if m.before != [] {
      StandsAt(text, p, m.before, 0);
    }
  }

  lemma ElementFirst(text: Text, p: nat, e: Elements)
    requires e.Element? && LegalElements(e) && Stands(text, p, PrintElements(e))
    ensures Stands(text, p, e.before) && ElementAt(p, e) < |text|
    ensures !IsSpace(text[ElementAt(p, e)]) && text[ElementAt(p, e)] != CLOSE_BRACKET
  {
    ElementStands(text, p, e);
    PrintStarts(e.value);
    StandsAt(text, ElementAt(p, e), Print(e.value), 0);
  }

  lemma QuotedStands(text: Text, at: nat, s: Literal)
    requires Legal(s) && Stands(text, at, Quoted(s))
    ensures StringEnd(text, at + 1) == at + 1 + |Body(s)| == at + |Quoted(s)| - 1 < |text|
    ensures text[at + 1..at + 1 + |Body(s)|] == Body(s)
  {
    assert Quoted(s) == [QUOTE] + (Body(s) + [QUOTE]);
    StandsSplit(text, at, [QUOTE], Body(s) + [QUOTE]);
    StandsSplit(text, at + 1, Body(s), [QUOTE]);
    StandsCut(text, at + 1, Body(s));
    StringEndsAtQuote(text, at + 1, s);
  }

  lemma {:induction false} StringEndAhead(text: Text, j: nat)
    ensures j <= StringEnd(text, j)
    decreases |text| - j
  {
    if j < |text| && text[j] != QUOTE {
      StringEndAhead(text, j + if text[j] == BACKSLASH then 2 else 1);
    }
  }

  /** For every tree and every layout of it, in document order, the path of each second and later
      writing of a key within one object. */
  method DuplicateKeys(text: Text, ghost before: Text, ghost v: Json, ghost after: Text) returns (found: seq<Text>)
    requires LegalJson(v) && Blank(before) && Blank(after) && text == before + Print(v) + after
    ensures found == Repeats(v, [])
    ensures RepeatedKeys.Reports(found, v)
    ensures found == [] <==> AllDistinct(v)
  {
    var walker := new Walker(text);
    StandsCut(text, 0, text);
    StandsSplit(text, 0, before + Print(v), after);
    StandsSplit(text, 0, before, Print(v));
    if after != [] {
      StandsAt(text, |before + Print(v)|, after, 0);
    }
    walker.ReadValue([], before, v);
    found := walker.found;
    NothingRepeatsIffDistinct(v, []);
    RepeatedKeys.RepeatsAreShown(v);
  }
}
