/** JSON as it is written (RFC 8259, sections 2, 4, 5 and 7): every tree, every layout of white
    space, every spelling of a string; and the keys an object repeats. */
module JsonText {
  import opened Options
  import opened SourceText

  // ----- Strings

  /** One character of a string as it is spelled: itself, a two-character escape, or `\u` and four
      hexadecimal digits. */
  datatype Spelled = Plain(unit: Unit) | Escape(letter: Unit) | Hex(digits: seq<Unit>)

  type Literal = seq<Spelled>

  predicate IsHexDigit(u: Unit) {
    0x30 <= u <= 0x39 || 0x41 <= u <= 0x46 || 0x61 <= u <= 0x66
  }

  function HexValue(u: Unit): (v: nat)
    requires IsHexDigit(u)
    ensures v < 16
  {
    if u <= 0x39 then u - 0x30 else if u <= 0x46 then u - 0x37 else u - 0x57
  }

  const LETTER_U: Unit := 0x75

  /** What a two-character escape stands for. */
  function Escaped(letter: Unit): Option<Unit> {
    if letter == QUOTE || letter == BACKSLASH || letter == SLASH then Some(letter)
    else if letter == 0x62 then Some(0x08)
    else if letter == 0x66 then Some(0x0C)
    else if letter == 0x6E then Some(0x0A)
    else if letter == 0x72 then Some(0x0D)
    else if letter == 0x74 then Some(0x09)
    else None
  }

  const HEX_LOWER := Units("0123456789abcdef")
  const HEX_UPPER := Units("0123456789ABCDEF")

  /** The hexadecimal digits in their order, in either case. */
  lemma HexAsWritten(u: Unit)
    ensures IsHexDigit(u) <==> exists k :: 0 <= k < 16 && (HEX_LOWER[k] == u || HEX_UPPER[k] == u)
    ensures IsHexDigit(u) ==> HEX_LOWER[HexValue(u)] == u || HEX_UPPER[HexValue(u)] == u
  {
    if IsHexDigit(u) {
      assert HEX_LOWER[HexValue(u)] == u || HEX_UPPER[HexValue(u)] == u;
    }
  }

  const ESCAPES := Units("\"\\/bfnrt")
  const ESCAPED: Text := [0x22, 0x5C, 0x2F, 0x08, 0x0C, 0x0A, 0x0D, 0x09]

  /** The escapes and what they stand for, as section 7 of RFC 8259 lists them. */
  lemma EscapesAsWritten(letter: Unit, u: Unit)
    ensures Escaped(letter) == Some(u) <==> exists k :: 0 <= k < 8 && ESCAPES[k] == letter && ESCAPED[k] == u
  {
    assert ESCAPES == [0x22, 0x5C, 0x2F, 0x62, 0x66, 0x6E, 0x72, 0x74];
    if Escaped(letter) == Some(u) {
      var k := if letter == 0x22 then 0 else if letter == 0x5C then 1 else if letter == 0x2F then 2
        else if letter == 0x62 then 3 else if letter == 0x66 then 4 else if letter == 0x6E then 5
        else if letter == 0x72 then 6 else 7;
      assert ESCAPES[k] == letter && ESCAPED[k] == u;
    }
  }

  predicate LegalSpelled(c: Spelled) {
    match c
    case Plain(u) => u >= 0x20 && u != QUOTE && u != BACKSLASH
    case Escape(letter) => Escaped(letter).Some?
    case Hex(digits) => |digits| == 4 && forall k :: 0 <= k < 4 ==> IsHexDigit(digits[k])
  }

  predicate Legal(s: Literal) {
    forall k :: 0 <= k < |s| ==> LegalSpelled(s[k])
  }

  function Spelling(c: Spelled): Text {
    match c
    case Plain(u) => [u]
    case Escape(letter) => [BACKSLASH, letter]
    case Hex(digits) => [BACKSLASH, LETTER_U] + digits
  }

  function Body(s: Literal): Text {
    if s == [] then [] else Spelling(s[0]) + Body(s[1..])
  }

  function Quoted(s: Literal): Text {
    [QUOTE] + Body(s) + [QUOTE]
  }

  function MeaningOf(c: Spelled): Unit
    requires LegalSpelled(c)
  {
    match c
    case Plain(u) => u
    case Escape(letter) => Escaped(letter).value
    case Hex(d) => 0x1000 * HexValue(d[0]) + 0x100 * HexValue(d[1]) + 0x10 * HexValue(d[2]) + HexValue(d[3])
  }

  lemma LastDigit(q: nat, r: nat)
    requires r < 0x10
    ensures (0x10 * q + r) / 0x10 == q && (0x10 * q + r) % 0x10 == r
  {
  }

  /** Four hexadecimal digits are those of the unit they stand for. */
  lemma HexIsTheUnit(d: seq<Unit>)
    requires LegalSpelled(Hex(d))
    ensures var u := MeaningOf(Hex(d));
      && u % 0x10 == HexValue(d[3]) && u / 0x10 % 0x10 == HexValue(d[2])
      && u / 0x10 / 0x10 % 0x10 == HexValue(d[1]) && u / 0x10 / 0x10 / 0x10 == HexValue(d[0])
  {
    var first, second, third := HexValue(d[0]), HexValue(d[1]), HexValue(d[2]);
    hide HexValue;
    LastDigit(0x100 * first + 0x10 * second + third, HexValue(d[3]));
    LastDigit(0x10 * first + second, third);
    LastDigit(first, second);
  }

  /** The text a string stands for, however it is spelled. */
  function Meaning(s: Literal): Text
    requires Legal(s)
  {
    if s == [] then [] else [MeaningOf(s[0])] + Meaning(s[1..])
  }

  // ----- Trees with their layout

  datatype Json =
    | Object(empty: Text, members: Members)
    | Array(empty: Text, elements: Elements)
    | String(literal: Literal)
    | Atom(text: Text)

  datatype Members =
    | NoMember
    | Member(before: Text, key: Literal, afterKey: Text, beforeValue: Text, value: Json, afterValue: Text, rest: Members)

  datatype Elements =
    | NoElement
    | Element(before: Text, value: Json, after: Text, rest: Elements)

  /** White space JSON allows. */
  predicate Blank(t: Text) {
    forall k :: 0 <= k < |t| ==> t[k] == 0x20 || t[k] == 0x09 || t[k] == 0x0A || t[k] == 0x0D
  }

  /** A unit no number, `true`, `false` or `null` holds. */
  predicate EndsAtom(u: Unit) {
    IsSpace(u) || u == COMMA || u == CLOSE_BRACE || u == CLOSE_BRACKET
  }

  /** A number, `true`, `false` or `null`, and any other run that no delimiter cuts. */
  predicate LegalAtom(t: Text) {
    && t != [] && t[0] != OPEN_BRACE && t[0] != OPEN_BRACKET && t[0] != QUOTE
    && forall k :: 0 <= k < |t| ==> !EndsAtom(t[k])
  }

  predicate LegalJson(v: Json) {
    match v
    case Object(empty, members) => Blank(empty) && LegalMembers(members)
    case Array(empty, elements) => Blank(empty) && LegalElements(elements)
    case String(literal) => Legal(literal)
    case Atom(text) => LegalAtom(text)
  }

  predicate LegalMembers(m: Members) {
    match m
    case NoMember => true
    case Member(before, key, afterKey, beforeValue, value, afterValue, rest) =>
      && Blank(before) && Legal(key) && Blank(afterKey) && Blank(beforeValue)
      && LegalJson(value) && Blank(afterValue) && LegalMembers(rest)
  }

  predicate LegalElements(e: Elements) {
    match e
    case NoElement => true
    case Element(before, value, after, rest) =>
      Blank(before) && LegalJson(value) && Blank(after) && LegalElements(rest)
  }

  function Print(v: Json): Text {
    match v
    case Object(empty, members) =>
      [OPEN_BRACE] + (if members.NoMember? then empty else PrintMembers(members)) + [CLOSE_BRACE]
    case Array(empty, elements) =>
      [OPEN_BRACKET] + (if elements.NoElement? then empty else PrintElements(elements)) + [CLOSE_BRACKET]
    case String(literal) => Quoted(literal)
    case Atom(text) => text
  }

  function PrintMembers(m: Members): Text {
    match m
    case NoMember => []
    case Member(before, key, afterKey, beforeValue, value, afterValue, rest) =>
      before + (Quoted(key) + (afterKey + ([COLON] + (beforeValue + (Print(value) + (afterValue
      + (if rest.NoMember? then [] else [COMMA] + PrintMembers(rest))))))))
  }

  function PrintElements(e: Elements): Text {
    match e
    case NoElement => []
    case Element(before, value, after, rest) =>
      before + (Print(value) + (after + (if rest.NoElement? then [] else [COMMA] + PrintElements(rest))))
  }

  // ----- The keys an object repeats

  function Decimal(n: nat): Text {
    (if n < 10 then [] else Decimal(n / 10)) + [0x30 + n % 10]
  }

  function KeyPath(path: Text, key: Text): Text {
    if path != [] then path + [DOT] + key else key
  }

  function IndexPath(path: Text, index: nat): Text {
    path + [OPEN_BRACKET] + Decimal(index) + [CLOSE_BRACKET]
  }

  /** In document order, the path of each key that an earlier key of its object already is. */
  function Repeats(v: Json, path: Text): seq<Text>
    requires LegalJson(v)
  {
    match v
    case Object(_, members) => RepeatsOfMembers(members, path, {})
    case Array(_, elements) => RepeatsOfElements(elements, path, 0)
    case _ => []
  }

  function RepeatsOfMembers(m: Members, path: Text, seen: set<Text>): seq<Text>
    requires LegalMembers(m)
  {
    match m
    case NoMember => []
    case Member(_, key, _, _, value, _, rest) =>
      var name := Meaning(key);
      (if name in seen then [KeyPath(path, name)] else [])
      + Repeats(value, KeyPath(path, name))
      + RepeatsOfMembers(rest, path, seen + {name})
  }

  function RepeatsOfElements(e: Elements, path: Text, index: nat): seq<Text>
    requires LegalElements(e)
  {
    match e
    case NoElement => []
    case Element(_, value, _, rest) =>
      Repeats(value, IndexPath(path, index)) + RepeatsOfElements(rest, path, index + 1)
  }

  function KeysOf(m: Members): seq<Text>
    requires LegalMembers(m)
  {
    match m
    case NoMember => []
    case Member(_, key, _, _, _, _, rest) => [Meaning(key)] + KeysOf(rest)
  }

  ghost predicate Distinct(keys: seq<Text>) {
    forall i, j :: 0 <= i < j < |keys| ==> keys[i] != keys[j]
  }

  /** Every object of the tree has distinct keys. */
  ghost predicate AllDistinct(v: Json)
    requires LegalJson(v)
  {
    match v
    case Object(_, members) => Distinct(KeysOf(members)) && MembersAllDistinct(members)
    case Array(_, elements) => ElementsAllDistinct(elements)
    case _ => true
  }

  ghost predicate MembersAllDistinct(m: Members)
    requires LegalMembers(m)
  {
    m.Member? ==> AllDistinct(m.value) && MembersAllDistinct(m.rest)
  }

  ghost predicate ElementsAllDistinct(e: Elements)
    requires LegalElements(e)
  {
    e.Element? ==> AllDistinct(e.value) && ElementsAllDistinct(e.rest)
  }

  /** Nothing is reported exactly when every object, at any depth, has distinct keys. */
  lemma {:induction false} NothingRepeatsIffDistinct(v: Json, path: Text)
    requires LegalJson(v)
    ensures Repeats(v, path) == [] <==> AllDistinct(v)
    decreases v
  {
    match v
    case Object(_, members) => MembersRepeatIff(members, path, {});
    case Array(_, elements) => ElementsRepeatIff(elements, path, 0);
    case _ =>
  }

  lemma {:induction false} MembersRepeatIff(m: Members, path: Text, seen: set<Text>)
    requires LegalMembers(m)
    ensures RepeatsOfMembers(m, path, seen) == [] <==>
            Distinct(KeysOf(m)) && (forall k :: k in KeysOf(m) ==> k !in seen) && MembersAllDistinct(m)
    decreases m
  {
    if m.Member? {
      var name := Meaning(m.key);
      NothingRepeatsIffDistinct(m.value, KeyPath(path, name));
      MembersRepeatIff(m.rest, path, seen + {name});
      var keys, rest := KeysOf(m), KeysOf(m.rest);
      assert keys == [name] + rest;
      if Distinct(rest) && name !in rest {
        assert Distinct(keys);
      }
      if Distinct(keys) {
        assert forall i :: 0 <= i < |rest| ==> rest[i] == keys[i + 1];
        assert Distinct(rest) && forall k :: k in rest ==> k != keys[0];
      }
      assert forall k :: k in keys <==> k == name || k in rest;
    }
  }

  lemma {:induction false} ElementsRepeatIff(e: Elements, path: Text, index: nat)
    requires LegalElements(e)
    ensures RepeatsOfElements(e, path, index) == [] <==> ElementsAllDistinct(e)
    decreases e
  {
    if e.Element? {
      NothingRepeatsIffDistinct(e.value, IndexPath(path, index));
      ElementsRepeatIff(e.rest, path, index + 1);
    }
  }
}
