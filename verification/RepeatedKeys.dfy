/** The keys a JSON text repeats, said by the places they are written at: which places they are, in
    which order they come, and how each is shown. */
module RepeatedKeys {
  import opened Options
  import opened SourceText
  import opened JsonText

  /** From a value to one inside it. */
  datatype Step = Under(key: Text) | At(index: nat)

  /** Which member or element at each level, counted as written. */
  type Place = seq<nat>

  // ----- Places

  function MembersFrom(m: Members, i: nat): Members {
    if i == 0 || m.NoMember? then m else MembersFrom(m.rest, i - 1)
  }

  function ElementsFrom(e: Elements, i: nat): Elements {
    if i == 0 || e.NoElement? then e else ElementsFrom(e.rest, i - 1)
  }

  /** The value of member or element `i`. */
  function Inner(v: Json, i: nat): Option<Json> {
    match v
    case Object(_, members) => var m := MembersFrom(members, i); if m.Member? then Some(m.value) else None
    case Array(_, elements) => var e := ElementsFrom(elements, i); if e.Element? then Some(e.value) else None
    case _ => None
  }

  lemma {:induction false} MembersFromSays(m: Members, i: nat)
    requires LegalMembers(m)
    ensures var rest := MembersFrom(m, i);
      && LegalMembers(rest) && (rest.Member? <==> i < |KeysOf(m)|)
      && (rest.Member? ==> Meaning(rest.key) == KeysOf(m)[i] && MembersFrom(m, i + 1) == rest.rest)
      && (rest.NoMember? ==> forall k: nat | k >= i :: MembersFrom(m, k).NoMember?)
    decreases m
  {
    if i > 0 && m.Member? {
      MembersFromSays(m.rest, i - 1);
      forall k: nat | k >= i && MembersFrom(m, i).NoMember?
        ensures MembersFrom(m, k).NoMember?
      {
        assert MembersFrom(m, k) == MembersFrom(m.rest, k - 1);
      }
    }
  }

  lemma {:induction false} ElementsFromSays(e: Elements, i: nat)
    requires LegalElements(e)
    ensures var rest := ElementsFrom(e, i);
      && LegalElements(rest)
      && (rest.Element? ==> ElementsFrom(e, i + 1) == rest.rest)
      && (rest.NoElement? ==> forall k: nat | k >= i :: ElementsFrom(e, k).NoElement?)
    decreases e
  {
    if i > 0 && e.Element? {
      ElementsFromSays(e.rest, i - 1);
      forall k: nat | k >= i && ElementsFrom(e, i).NoElement?
        ensures ElementsFrom(e, k).NoElement?
      {
        assert ElementsFrom(e, k) == ElementsFrom(e.rest, k - 1);
      }
    }
  }

  lemma InnerIsLegal(v: Json, i: nat)
    requires LegalJson(v) && Inner(v, i).Some?
    ensures LegalJson(Inner(v, i).value)
    ensures v.Object? ==> i < |KeysOf(v.members)|
  {
    match v
    case Object(_, members) => MembersFromSays(members, i);
    case Array(_, elements) => ElementsFromSays(elements, i);
    case _ =>
  }

  function StepTo(v: Json, i: nat): Step
    requires LegalJson(v) && Inner(v, i).Some?
  {
    InnerIsLegal(v, i);
    if v.Object? then Under(KeysOf(v.members)[i]) else At(i)
  }

  /** The way to a place. */
  function RouteTo(v: Json, place: Place): seq<Step>
    requires LegalJson(v)
    decreases |place|
  {
    if place == [] || Inner(v, place[0]).None? then []
    else
      InnerIsLegal(v, place[0]);
      [StepTo(v, place[0])] + RouteTo(Inner(v, place[0]).value, place[1..])
  }

  /** At the place a member stands whose key an earlier member of its object has. */
  ghost predicate IsRepeat(v: Json, place: Place)
    requires LegalJson(v)
    decreases |place|
  {
    place != [] && Inner(v, place[0]).Some? &&
    (InnerIsLegal(v, place[0]);
     if |place| > 1 then IsRepeat(Inner(v, place[0]).value, place[1..])
     else v.Object? && exists j :: 0 <= j < place[0] && KeysOf(v.members)[j] == KeysOf(v.members)[place[0]])
  }

  /** Document order: a member before what is inside it, and before the members after it. */
  predicate Before(a: Place, b: Place)
    decreases |a|
  {
    b != [] && (a == [] || a[0] < b[0] || (a[0] == b[0] && Before(a[1..], b[1..])))
  }

  ghost predicate Ordered(places: seq<Place>) {
    forall i, j :: 0 <= i < j < |places| ==> Before(places[i], places[j])
  }

  /** A way as it is shown: keys joined by dots, an index in brackets. */
  function Shown(route: seq<Step>): Text {
    if route == [] then []
    else
      var outer := Shown(route[..|route| - 1]);
      match route[|route| - 1]
      case Under(key) => if outer == [] then key else outer + Units(".") + key
      case At(index) => outer + Units("[") + Decimal(index) + Units("]")
  }

  function Number(digits: Text): int {
    if digits == [] then 0 else 10 * Number(digits[..|digits| - 1]) + (digits[|digits| - 1] as int - '0' as int)
  }

  lemma DecimalStep(n: nat)
    requires n >= 10
    ensures Decimal(n) == Decimal(n / 10) + [0x30 + n % 10]
    ensures Number(Decimal(n)) == 10 * Number(Decimal(n / 10)) + n % 10
  {
    assert Decimal(n)[..|Decimal(n)| - 1] == Decimal(n / 10);
  }

  /** A number is written in digits that read back as it, with no zero in front. */
  lemma {:induction false} DecimalReadsBack(n: nat)
    ensures Number(Decimal(n)) == n && Decimal(n) != []
    ensures forall k :: 0 <= k < |Decimal(n)| ==> '0' as int <= Decimal(n)[k] as int <= '9' as int
    ensures n > 0 ==> Decimal(n)[0] as int != '0' as int
  {
    hide Number;
    if n >= 10 {
      DecimalReadsBack(n / 10);
      DecimalStep(n);
    } else {
      OneDigit(n);
    }
  }

  lemma OneDigit(n: nat)
    requires n < 10
    ensures Decimal(n) == [0x30 + n] && Number(Decimal(n)) == n
  {
    assert [0x30 + n][..0] == [];
  }

  lemma ShownLonger(route: seq<Step>, step: Step)
    ensures Shown(route + [step]) ==
      if step.Under? then KeyPath(Shown(route), step.key) else IndexPath(Shown(route), step.index)
  {
    assert (route + [step])[..|route|] == route;
    UnitsAsWritten();
    assert Units(".") == [DOT] && Units("[") == [OPEN_BRACKET] && Units("]") == [CLOSE_BRACKET];
  }

  // ----- What is reported

  ghost predicate RepeatFrom(v: Json, i: nat, place: Place)
    requires LegalJson(v)
  {
    place != [] && place[0] >= i && IsRepeat(v, place)
  }

  /** The places are the repeats from member or element `i` on. */
  ghost predicate Covers(v: Json, i: nat, places: seq<Place>)
    requires LegalJson(v)
  {
    forall p: Place :: p in places <==> RepeatFrom(v, i, p)
  }

  /** The places are the repeats inside member or element `i`. */
  ghost predicate CoversInside(v: Json, i: nat, places: seq<Place>)
    requires LegalJson(v)
  {
    forall p: Place :: p in places <==> |p| > 1 && p[0] == i && IsRepeat(v, p)
  }

  /** The texts show the places. */
  ghost predicate Show(v: Json, outer: seq<Step>, texts: seq<Text>, places: seq<Place>)
    requires LegalJson(v)
  {
    |texts| == |places| && forall k :: 0 <= k < |places| ==> texts[k] == Shown(outer + RouteTo(v, places[k]))
  }

  /** The texts show, in document order, the repeats of the value from member or element `i` on. */
  ghost predicate TellsFrom(v: Json, i: nat, outer: seq<Step>, texts: seq<Text>, places: seq<Place>)
    requires LegalJson(v)
  {
    Ordered(places) && Covers(v, i, places) && Show(v, outer, texts, places)
  }

  function Inside(i: nat, places: seq<Place>): (inside: seq<Place>)
    ensures |inside| == |places|
    ensures forall k :: 0 <= k < |places| ==> inside[k] == [i] + places[k]
  {
    seq(|places|, k requires 0 <= k < |places| => [i] + places[k])
  }

  lemma OneInside(v: Json, i: nat, p: Place)
    requires LegalJson(v) && Inner(v, i).Some? && LegalJson(Inner(v, i).value)
    ensures RouteTo(v, [i] + p) == [StepTo(v, i)] + RouteTo(Inner(v, i).value, p)
    ensures p != [] ==> (IsRepeat(v, [i] + p) <==> IsRepeat(Inner(v, i).value, p))
  {
    assert ([i] + p)[1..] == p;
  }

  lemma OrderedInside(i: nat, places: seq<Place>)
    requires Ordered(places)
    ensures Ordered(Inside(i, places))
  {
    var inside := Inside(i, places);
    forall a, b | 0 <= a < b < |inside|
      ensures Before(inside[a], inside[b])
    {
      assert inside[a][1..] == places[a] && inside[b][1..] == places[b];
    }
  }

  /** The repeats inside member or element `i`. */
  lemma InsideTold(v: Json, i: nat, outer: seq<Step>, texts: seq<Text>, places: seq<Place>)
    requires LegalJson(v) && Inner(v, i).Some? && LegalJson(Inner(v, i).value)
    requires TellsFrom(Inner(v, i).value, 0, outer + [StepTo(v, i)], texts, places)
    ensures Ordered(Inside(i, places)) && CoversInside(v, i, Inside(i, places)) && Show(v, outer, texts, Inside(i, places))
  {
    hide IsRepeat;
    hide RouteTo;
    hide StepTo;
    hide Shown;
    hide LegalJson;
    hide Before;
    var inner, inside := Inner(v, i).value, Inside(i, places);
    var step := StepTo(v, i);
    OrderedInside(i, places);
    forall k | 0 <= k < |places|
      ensures |inside[k]| > 1 && inside[k][0] == i && IsRepeat(v, inside[k])
      ensures texts[k] == Shown(outer + RouteTo(v, inside[k]))
    {
      assert places[k] in places;
      OneInside(v, i, places[k]);
      assert outer + [step] + RouteTo(inner, places[k]) == outer + ([step] + RouteTo(inner, places[k]));
    }
    forall p: Place | |p| > 1 && p[0] == i && IsRepeat(v, p)
      ensures p in inside
    {
      assert p == [i] + p[1..];
      OneInside(v, i, p[1..]);
      assert p[1..] in places;
      var k :| 0 <= k < |places| && places[k] == p[1..];
      assert inside[k] == p;
    }
  }

  /** Every place begins there, and goes further inside or further on. */
  lemma WhereTheyBegin(v: Json, i: nat, inside: seq<Place>, rest: seq<Place>)
    requires LegalJson(v) && CoversInside(v, i, inside) && Covers(v, i + 1, rest)
    ensures forall k :: 0 <= k < |inside| ==> |inside[k]| > 1 && inside[k][0] == i
    ensures forall k :: 0 <= k < |rest| ==> rest[k] != [] && rest[k][0] > i
  {
    hide IsRepeat;
    hide LegalJson;
    forall k | 0 <= k < |inside| ensures |inside[k]| > 1 && inside[k][0] == i {
      assert inside[k] in inside;
    }
    forall k | 0 <= k < |rest| ensures rest[k] != [] && rest[k][0] > i {
      assert rest[k] in rest && RepeatFrom(v, i + 1, rest[k]);
    }
  }

  lemma OrderedJoin(i: nat, own: seq<Place>, inside: seq<Place>, rest: seq<Place>)
    requires own == [] || own == [[i]]
    requires Ordered(inside) && forall k :: 0 <= k < |inside| ==> |inside[k]| > 1 && inside[k][0] == i
    requires Ordered(rest) && forall k :: 0 <= k < |rest| ==> rest[k] != [] && rest[k][0] > i
    ensures Ordered(own + inside + rest)
  {
    var all, n := own + inside + rest, |own| + |inside|;
    forall a, b | 0 <= a < b < |all|
      ensures Before(all[a], all[b])
    {
      assert |own| <= b < n ==> all[b] == inside[b - |own|];
      assert n <= b ==> all[b] == rest[b - n];
      assert a < |own| ==> all[a] == [i];
      assert |own| <= a < n ==> all[a] == inside[a - |own|];
      assert n <= a ==> all[a] == rest[a - n];
    }
  }

  lemma ShowJoin(v: Json, outer: seq<Step>, texts: seq<Text>, places: seq<Place>, later: seq<Text>, rest: seq<Place>)
    requires LegalJson(v) && Show(v, outer, texts, places) && Show(v, outer, later, rest)
    ensures Show(v, outer, texts + later, places + rest)
  {
    hide Shown;
    hide RouteTo;
  }

  /** One member or element: its own repeat, those inside it, and those after it. */
  lemma OneTold(v: Json, i: nat, outer: seq<Step>, texts: seq<Text>, places: seq<Place>, later: seq<Text>, rest: seq<Place>)
    requires LegalJson(v) && Inner(v, i).Some? && LegalJson(Inner(v, i).value)
    requires TellsFrom(Inner(v, i).value, 0, outer + [StepTo(v, i)], texts, places)
    requires TellsFrom(v, i + 1, outer, later, rest)
    ensures var again := IsRepeat(v, [i]);
      TellsFrom(v, i, outer, (if again then [Shown(outer + [StepTo(v, i)])] else []) + texts + later,
                (if again then [[i]] else []) + Inside(i, places) + rest)
  {
    hide Shown;
    hide IsRepeat;
    hide RouteTo;
    hide Ordered;
    hide Covers;
    hide CoversInside;
    hide Show;
    hide LegalJson;
    var inside := Inside(i, places);
    var own: seq<Place> := if IsRepeat(v, [i]) then [[i]] else [];
    var ownText: seq<Text> := if IsRepeat(v, [i]) then [Shown(outer + [StepTo(v, i)])] else [];
    InsideTold(v, i, outer, texts, places);
    OwnShown(v, i, outer);
    WhereTheyBegin(v, i, inside, rest);
    OrderedJoin(i, own, inside, rest);
    PlacesJoin(v, i, own, inside, rest);
    ShowJoin(v, outer, ownText, own, texts, inside);
    ShowJoin(v, outer, ownText + texts, own + inside, later, rest);
  }

  lemma PlacesJoin(v: Json, i: nat, own: seq<Place>, inside: seq<Place>, rest: seq<Place>)
    requires LegalJson(v) && own == if IsRepeat(v, [i]) then [[i]] else []
    requires CoversInside(v, i, inside) && Covers(v, i + 1, rest)
    ensures Covers(v, i, own + inside + rest)
  {
    hide IsRepeat;
    hide LegalJson;
    forall p: Place
      ensures p in own + inside + rest <==> RepeatFrom(v, i, p)
    {
      assert p in own + inside + rest <==> p in own || p in inside || p in rest;
      assert |p| == 1 && p[0] == i ==> p == [i];
      assert p in own <==> p == [i] && IsRepeat(v, [i]);
    }
  }

  lemma OwnShown(v: Json, i: nat, outer: seq<Step>)
    requires LegalJson(v) && Inner(v, i).Some?
    ensures RouteTo(v, [i]) == [StepTo(v, i)]
    ensures Show(v, outer, if IsRepeat(v, [i]) then [Shown(outer + [StepTo(v, i)])] else [],
                 if IsRepeat(v, [i]) then [[i]] else [])
  {
    hide Shown;
    InnerIsLegal(v, i);
  }

  lemma NoneTold(v: Json, i: nat, outer: seq<Step>)
    requires LegalJson(v) && forall k: nat | k >= i :: Inner(v, k).None?
    ensures TellsFrom(v, i, outer, [], [])
  {
  }

  lemma NoMembersTold(v: Json, i: nat, outer: seq<Step>)
    requires LegalJson(v) && v.Object? && MembersFrom(v.members, i).NoMember?
    ensures TellsFrom(v, i, outer, [], [])
  {
    hide TellsFrom;
    MembersFromSays(v.members, i);
    NoneTold(v, i, outer);
  }

  function KeysBefore(m: Members, i: nat): set<Text>
    requires LegalMembers(m)
  {
    set j | 0 <= j < |KeysOf(m)| && j < i :: KeysOf(m)[j]
  }

  lemma OneMoreKey(v: Json, i: nat)
    requires LegalJson(v) && v.Object? && MembersFrom(v.members, i).Member? && LegalMembers(MembersFrom(v.members, i))
    ensures var name := Meaning(MembersFrom(v.members, i).key);
      && KeysBefore(v.members, i + 1) == KeysBefore(v.members, i) + {name}
      && (name in KeysBefore(v.members, i) <==> IsRepeat(v, [i]))
      && Inner(v, i) == Some(MembersFrom(v.members, i).value) && StepTo(v, i) == Under(name)
  {
    MembersFromSays(v.members, i);
    assert Inner(v, i).Some?;
    var keys := KeysOf(v.members);
    forall key
      ensures key in KeysBefore(v.members, i + 1) <==> key in KeysBefore(v.members, i) || key == keys[i]
    {
      if key == keys[i] {
        assert key in KeysBefore(v.members, i + 1);
      }
    }
  }

  lemma {:induction false} MembersTold(v: Json, m: Members, i: nat, outer: seq<Step>, seen: set<Text>)
    returns (places: seq<Place>)
    requires LegalJson(v) && v.Object? && m == MembersFrom(v.members, i) && LegalMembers(m)
    requires seen == KeysBefore(v.members, i)
    ensures TellsFrom(v, i, outer, RepeatsOfMembers(m, Shown(outer), seen), places)
    decreases m
  {
    hide TellsFrom;
    hide Shown;
    hide IsRepeat;
    hide KeysBefore;
    hide Repeats;
    hide KeyPath;
    hide Inner;
    hide StepTo;
    MembersFromSays(v.members, i);
    if m.NoMember? {
      NoMembersTold(v, i, outer);
      return [];
    }
    var name := Meaning(m.key);
    OneMoreKey(v, i);
    ShownLonger(outer, Under(name));
    var inside := Told(m.value, outer + [Under(name)]);
    var rest := MembersTold(v, m.rest, i + 1, outer, seen + {name});
    OneTold(v, i, outer, Repeats(m.value, KeyPath(Shown(outer), name)), inside,
            RepeatsOfMembers(m.rest, Shown(outer), seen + {name}), rest);
    return (if IsRepeat(v, [i]) then [[i]] else []) + Inside(i, inside) + rest;
  }

  lemma {:induction false} ElementsTold(v: Json, e: Elements, i: nat, outer: seq<Step>) returns (places: seq<Place>)
    requires LegalJson(v) && v.Array? && e == ElementsFrom(v.elements, i) && LegalElements(e)
    ensures TellsFrom(v, i, outer, RepeatsOfElements(e, Shown(outer), i), places)
    decreases e
  {
    hide TellsFrom;
    hide Shown;
    ElementsFromSays(v.elements, i);
    if e.NoElement? {
      NoneTold(v, i, outer);
      return [];
    }
    ShownLonger(outer, At(i));
    var inside := Told(e.value, outer + [At(i)]);
    var rest := ElementsTold(v, e.rest, i + 1, outer);
    var texts := Repeats(e.value, IndexPath(Shown(outer), i));
    OneTold(v, i, outer, texts, inside, RepeatsOfElements(e.rest, Shown(outer), i + 1), rest);
    assert [] + texts == texts;
    return [] + Inside(i, inside) + rest;
  }

  lemma {:induction false} Told(v: Json, outer: seq<Step>) returns (places: seq<Place>)
    requires LegalJson(v)
    ensures TellsFrom(v, 0, outer, Repeats(v, Shown(outer)), places)
    decreases v
  {
    match v
    case Object(_, members) =>
      assert KeysBefore(members, 0) == {};
      places := MembersTold(v, members, 0, outer, {});
    case Array(_, elements) => places := ElementsTold(v, elements, 0, outer);
    case _ =>
      NoneTold(v, 0, outer);
      places := [];
  }

  lemma ShownNothing()
    ensures Shown([]) == []
  {
  }

  lemma RepeatIsSomewhere(v: Json, place: Place)
    requires LegalJson(v)
    ensures IsRepeat(v, place) ==> place != []
  {
  }

  /** Each member whose key an earlier member of its object has, once, in the order they are written,
      shown by its way from the root. */
  ghost predicate Reports(texts: seq<Text>, v: Json)
    requires LegalJson(v)
  {
    exists places: seq<Place> ::
      && |places| == |texts| && Ordered(places)
      && (forall p: Place :: p in places <==> IsRepeat(v, p))
      && forall k :: 0 <= k < |places| ==> texts[k] == Shown(RouteTo(v, places[k]))
  }

  /** The repeats are exactly what there is to report. */
  lemma RepeatsAreShown(v: Json)
    requires LegalJson(v)
    ensures Reports(Repeats(v, []), v)
  {
    hide Shown;
    hide RouteTo;
    hide IsRepeat;
    hide Repeats;
    var places := Told(v, []);
    ShownNothing();
    forall k | 0 <= k < |places|
      ensures Repeats(v, [])[k] == Shown(RouteTo(v, places[k]))
    {
      assert [] + RouteTo(v, places[k]) == RouteTo(v, places[k]);
    }
    forall p: Place
      ensures p in places <==> IsRepeat(v, p)
    {
      RepeatIsSomewhere(v, p);
    }
  }
}
