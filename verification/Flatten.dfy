/** A locale flattened to dotted paths: what it keeps of the tree it is made from. */
module Flatten {
  import opened Options
  import opened SourceText
  import opened JsonText
  import RepeatedKeys

  /** A parsed value, as far as the flattening looks at it: arrays, numbers, booleans and null are
      passed over. */
  datatype Value = Nested(entries: Entries) | Leaf(text: Text) | Passed

  /** The entries of an object, each key once. */
  datatype Entries = Nil | Cons(key: Text, value: Value, rest: Entries)

  // ----- What parsing makes of a key written twice

  function Put(entries: Entries, key: Text, value: Value): Entries {
    match entries
    case Nil => Cons(key, value, Nil)
    case Cons(k, v, rest) => if k == key then Cons(k, value, rest) else Cons(k, v, Put(rest, key, value))
  }

  function Parsed(v: Json): Value
    requires LegalJson(v)
  {
    match v
    case Object(_, members) => Nested(ParsedMembers(members, Nil))
    case String(literal) => Leaf(Meaning(literal))
    case _ => Passed
  }

  function ParsedMembers(m: Members, entries: Entries): Entries
    requires LegalMembers(m)
  {
    match m
    case NoMember => entries
    case Member(_, key, _, _, value, _, rest) =>
      ParsedMembers(rest, Put(entries, Meaning(key), Parsed(value)))
  }

  function Lookup(entries: Entries, key: Text): Option<Value> {
    match entries
    case Nil => None
    case Cons(k, v, rest) => if k == key then Some(v) else Lookup(rest, key)
  }

  lemma {:induction false} PutThenLookup(entries: Entries, key: Text, value: Value, k: Text)
    ensures Lookup(Put(entries, key, value), k) == if k == key then Some(value) else Lookup(entries, k)
    decreases entries
  {
    if entries.Cons? {
      PutThenLookup(entries.rest, key, value, k);
    }
  }

  lemma {:induction false} UnwrittenStays(m: Members, entries: Entries, k: Text)
    requires LegalMembers(m) && k !in KeysOf(m)
    ensures Lookup(ParsedMembers(m, entries), k) == Lookup(entries, k)
    decreases m
  {
    if m.Member? {
      assert KeysOf(m)[0] == Meaning(m.key) && KeysOf(m) == [Meaning(m.key)] + KeysOf(m.rest);
      PutThenLookup(entries, Meaning(m.key), Parsed(m.value), k);
      UnwrittenStays(m.rest, Put(entries, Meaning(m.key), Parsed(m.value)), k);
    }
  }

  /** Of a key written more than once the last writing stands. */
  lemma {:induction false} LastWritingStands(m: Members, entries: Entries, i: nat)
    requires LegalMembers(m) && i < |KeysOf(m)| && KeysOf(m)[i] !in KeysOf(m)[i + 1..]
    ensures var member := RepeatedKeys.MembersFrom(m, i);
      member.Member? && LegalJson(member.value) &&
      Lookup(ParsedMembers(m, entries), KeysOf(m)[i]) == Some(Parsed(member.value))
    decreases m
  {
    var key := Meaning(m.key);
    var next := Put(entries, key, Parsed(m.value));
    assert KeysOf(m) == [key] + KeysOf(m.rest) && KeysOf(m)[1..] == KeysOf(m.rest);
    if i == 0 {
      PutThenLookup(entries, key, Parsed(m.value), key);
      UnwrittenStays(m.rest, next, key);
    } else {
      assert KeysOf(m)[i + 1..] == KeysOf(m.rest)[i..];
      LastWritingStands(m.rest, next, i - 1);
    }
  }

  // ----- Flattening

  type Flat = map<Text, Text>

  function Flattened(entries: Entries, prefix: Text, out: Flat): Flat {
    match entries
    case Nil => out
    case Cons(key, value, rest) =>
      var path := KeyPath(prefix, key);
      var next := match value
        case Nested(inner) => Flattened(inner, path, out)
        case Leaf(text) => out[path := text]
        case Passed => out;
      Flattened(rest, prefix, next)
  }

  class Flattener {
    var out: Flat

    constructor ()
      ensures out == map[]
    {
      out := map[];
    }

    /** The entries of one object, each set on the shared map. */
    method Flatten(obj: Entries, prefix: Text)
      modifies this
      ensures out == Flattened(obj, prefix, old(out))
      decreases obj
    {
      var rest := obj;
      while rest.Cons?
        invariant Flattened(rest, prefix, out) == Flattened(obj, prefix, old(out))
        invariant rest == obj || rest < obj
        decreases rest
      {
        var path := KeyPath(prefix, rest.key);
        match rest.value {
          case Nested(inner) => Flatten(inner, path);
          case Leaf(text) => out := out[path := text];
          case Passed =>
        }
        rest := rest.rest;
      }
    }
  }

  // ----- The string leaves of the text

  /** The keys from the root down to a leaf. */
  type Route = seq<Text>

  datatype Found = Found(route: Route, text: Text)

  /** The string leaves reached through objects, as the text writes them, in its order. */
  function Leaves(v: Json, route: Route): seq<Found>
    requires LegalJson(v)
  {
    match v
    case Object(_, members) => LeavesOfMembers(members, route)
    case String(literal) => [Found(route, Meaning(literal))]
    case _ => []
  }

  function LeavesOfMembers(m: Members, route: Route): seq<Found>
    requires LegalMembers(m)
  {
    match m
    case NoMember => []
    case Member(_, key, _, _, value, _, rest) =>
      Leaves(value, route + [Meaning(key)]) + LeavesOfMembers(rest, route)
  }

  function LeavesOfEntries(entries: Entries, route: Route): seq<Found> {
    match entries
    case Nil => []
    case Cons(key, value, rest) => LeavesOfValue(value, route + [key]) + LeavesOfEntries(rest, route)
  }

  function LeavesOfValue(value: Value, route: Route): seq<Found> {
    match value
    case Nested(inner) => LeavesOfEntries(inner, route)
    case Leaf(text) => [Found(route, text)]
    case Passed => []
  }

  function KeySet(entries: Entries): set<Text> {
    if entries.Nil? then {} else {entries.key} + KeySet(entries.rest)
  }

  lemma {:induction false} PutNewKey(entries: Entries, key: Text, value: Value, route: Route)
    requires key !in KeySet(entries)
    ensures LeavesOfEntries(Put(entries, key, value), route) ==
            LeavesOfEntries(entries, route) + LeavesOfValue(value, route + [key])
    ensures KeySet(Put(entries, key, value)) == KeySet(entries) + {key}
    decreases entries
  {
    if entries.Cons? {
      PutNewKey(entries.rest, key, value, route);
    } else {
      assert LeavesOfValue(value, route + [key]) + [] == [] + LeavesOfValue(value, route + [key]);
    }
  }

  /** Where no object repeats a key, parsing loses no leaf. */
  lemma {:induction false} ParsingKeepsLeaves(v: Json, route: Route)
    requires LegalJson(v) && AllDistinct(v)
    ensures LeavesOfValue(Parsed(v), route) == Leaves(v, route)
    decreases v
  {
    if v.Object? {
      MembersKeepLeaves(v.members, Nil, route);
      assert LeavesOfEntries(Nil, route) + LeavesOfMembers(v.members, route) == LeavesOfMembers(v.members, route);
    }
  }

  lemma {:induction false} MembersKeepLeaves(m: Members, entries: Entries, route: Route)
    requires LegalMembers(m) && MembersAllDistinct(m) && Distinct(KeysOf(m))
    requires forall k :: k in KeysOf(m) ==> k !in KeySet(entries)
    ensures LeavesOfEntries(ParsedMembers(m, entries), route) ==
            LeavesOfEntries(entries, route) + LeavesOfMembers(m, route)
    decreases m
  {
    if m.Member? {
      var name := Meaning(m.key);
      var keys, rest := KeysOf(m), KeysOf(m.rest);
      assert keys == [name] + rest && keys[0] == name;
      assert forall i :: 0 <= i < |rest| ==> rest[i] == keys[i + 1];
      ParsingKeepsLeaves(m.value, route + [name]);
      PutNewKey(entries, name, Parsed(m.value), route);
      MembersKeepLeaves(m.rest, Put(entries, name, Parsed(m.value)), route);
    } else {
      assert LeavesOfEntries(entries, route) + [] == LeavesOfEntries(entries, route);
    }
  }

  // ----- Dotted paths

  /** A key that a dotted path shows whole. */
  predicate Showable(key: Text) {
    key != [] && DOT !in key
  }

  function Dotted(route: Route): Text {
    if route == [] then [] else KeyPath(Dotted(route[..|route| - 1]), route[|route| - 1])
  }

  /** The keys with a dot between each two. */
  function Joined(route: Route): Text
    requires route != []
  {
    if |route| == 1 then route[0] else route[0] + Units(".") + Joined(route[1..])
  }

  lemma {:induction false} DottedAfter(first: Text, rest: Route)
    requires first != []
    ensures Dotted([first] + rest) == if rest == [] then first else first + Units(".") + Joined(rest)
    decreases |rest|
  {
    assert Units(".") == [DOT];
    if rest == [] {
      assert ([first] + rest)[..0] == [];
    } else {
      var n := |rest| - 1;
      assert ([first] + rest)[..|rest|] == [first] + rest[..n];
      DottedAfter(first, rest[..n]);
      if n > 0 {
        JoinedLonger(rest[..n], rest[n]);
        assert rest[..n] + [rest[n]] == rest;
      }
    }
  }

  lemma {:induction false} JoinedLonger(route: Route, key: Text)
    requires route != []
    ensures Joined(route + [key]) == Joined(route) + Units(".") + key
    decreases |route|
  {
    assert (route + [key])[1..] == route[1..] + [key];
    if |route| > 1 {
      JoinedLonger(route[1..], key);
      assert route[0] + Units(".") + (Joined(route[1..]) + Units(".") + key) == Joined(route) + Units(".") + key;
    }
  }

  lemma {:induction false} DottedSkips(rest: Route)
    ensures Dotted([[]] + rest) == Dotted(rest)
    decreases |rest|
  {
    hide KeyPath;
    if rest == [] {
      EmptyKey();
      assert ([[]] + rest)[..0] == [];
    } else {
      var n := |rest| - 1;
      assert ([[]] + rest)[..|rest|] == [[]] + rest[..n];
      DottedSkips(rest[..n]);
    }
  }

  lemma EmptyKey()
    ensures KeyPath([], []) == []
  {
  }

  /** A dotted path is its keys with dots between, those left out that are empty and come first. */
  lemma DottedIsJoined(first: Text, rest: Route)
    ensures Dotted([first] + rest) == if first != [] then Joined([first] + rest) else Dotted(rest)
  {
    hide Dotted;
    if first != [] {
      DottedAfter(first, rest);
      assert ([first] + rest)[1..] == rest;
    } else {
      DottedSkips(rest);
    }
  }

  predicate ShowableRoute(route: Route) {
    forall k :: 0 <= k < |route| ==> Showable(route[k])
  }

  lemma LastKey(a: Text, x: Text, b: Text, y: Text)
    requires DOT !in x && DOT !in y
    requires a + [DOT] + x == b + [DOT] + y
    ensures a == b && x == y
  {
    var s := a + [DOT] + x;
    assert s[|a|] == DOT && s[|b|] == DOT;
    assert forall k :: |a| < k < |s| ==> s[k] == x[k - |a| - 1];
    assert forall k :: |b| < k < |s| ==> s[k] == y[k - |b| - 1];
    assert |a| == |b|;
    assert a == s[..|a|] && b == s[..|b|] && x == s[|a| + 1..] && y == s[|b| + 1..];
  }

  /** Two routes of showable keys with one dotted path are one route. */
  lemma {:induction false} DottedIsInjective(a: Route, b: Route)
    requires ShowableRoute(a) && ShowableRoute(b) && Dotted(a) == Dotted(b)
    ensures a == b
    decreases |a|
  {
    if a != [] && b != [] {
      var a', b' := a[..|a| - 1], b[..|b| - 1];
      var x, y := a[|a| - 1], b[|b| - 1];
      if a' != [] && b' != [] {
        DottedNonEmpty(a');
        DottedNonEmpty(b');
        LastKey(Dotted(a'), x, Dotted(b'), y);
        DottedIsInjective(a', b');
      } else {
        DotInLonger(a);
        DotInLonger(b);
      }
      assert a == a' + [x] && b == b' + [y];
    } else if a != [] {
      DottedNonEmpty(a);
    } else if b != [] {
      DottedNonEmpty(b);
    }
  }

  /** A path of two keys or more holds a dot; a path of one is its key. */
  lemma DotInLonger(a: Route)
    requires ShowableRoute(a) && a != []
    ensures |a| == 1 ==> Dotted(a) == a[0] && DOT !in Dotted(a)
    ensures |a| > 1 ==> DOT in Dotted(a)
  {
    if |a| > 1 {
      var init := a[..|a| - 1];
      DottedNonEmpty(init);
      assert Dotted(a)[|Dotted(init)|] == DOT;
    }
  }

  lemma DottedNonEmpty(a: Route)
    requires ShowableRoute(a) && a != []
    ensures Dotted(a) != []
  {
  }

  // ----- What flattening keeps

  predicate ShowableEntries(entries: Entries) {
    entries.Cons? ==>
      && Showable(entries.key) && entries.key !in KeySet(entries.rest)
      && (entries.value.Nested? ==> ShowableEntries(entries.value.entries))
      && ShowableEntries(entries.rest)
  }

  /** `p` is the dotted path of one of the leaves. */
  ghost predicate IsPath(leaves: seq<Found>, p: Text) {
    exists k :: 0 <= k < |leaves| && p == Dotted(leaves[k].route)
  }

  lemma PathOfOneMore(leaves: seq<Found>, leaf: Found, p: Text)
    ensures IsPath(leaves + [leaf], p) <==> IsPath(leaves, p) || p == Dotted(leaf.route)
  {
    var all := leaves + [leaf];
    assert all[|leaves|] == leaf;
    if IsPath(leaves, p) {
      var k :| 0 <= k < |leaves| && p == Dotted(leaves[k].route);
      assert all[k] == leaves[k];
    }
  }

  /** The leaves set on a map one after the other, each under its dotted path. */
  function SetAll(base: Flat, leaves: seq<Found>): Flat
    decreases |leaves|
  {
    if leaves == [] then base
    else SetAll(base[Dotted(leaves[0].route) := leaves[0].text], leaves[1..])
  }

  lemma {:induction false} SetAllAppend(base: Flat, a: seq<Found>, b: seq<Found>)
    ensures SetAll(base, a + b) == SetAll(SetAll(base, a), b)
    decreases |a|
  {
    if a == [] {
      assert a + b == b;
    } else {
      assert (a + b)[0] == a[0] && (a + b)[1..] == a[1..] + b;
      SetAllAppend(base[Dotted(a[0].route) := a[0].text], a[1..], b);
    }
  }

  /** Flattening is the leaves, in order, set on the map: whatever the keys, a later leaf takes the
      path of an earlier one. */
  lemma {:induction false} FlattenedSetsLeaves(entries: Entries, route: Route, base: Flat)
    ensures Flattened(entries, Dotted(route), base) == SetAll(base, LeavesOfEntries(entries, route))
    decreases entries
  {
    if entries.Cons? {
      var longer := route + [entries.key];
      var first, rest := LeavesOfValue(entries.value, longer), LeavesOfEntries(entries.rest, route);
      DottedLonger(route, entries.key);
      SetAllAppend(base, first, rest);
      match entries.value {
        case Nested(inner) =>
          FlattenedSetsLeaves(inner, longer, base);
          FlattenedSetsLeaves(entries.rest, route, Flattened(inner, Dotted(longer), base));
        case Leaf(text) =>
          assert first[1..] == [];
          FlattenedSetsLeaves(entries.rest, route, base[Dotted(longer) := text]);
        case Passed =>
          FlattenedSetsLeaves(entries.rest, route, base);
      }
    }
  }

  lemma DottedLonger(route: Route, key: Text)
    ensures Dotted(route + [key]) == KeyPath(Dotted(route), key)
  {
    assert (route + [key])[..|route|] == route;
  }

  /** Each leaf is found under its dotted path, and nothing else is. */
  ghost predicate Holds(flat: Flat, leaves: seq<Found>) {
    && |flat| == |leaves|
    && (forall k :: 0 <= k < |leaves| ==> Dotted(leaves[k].route) in flat && flat[Dotted(leaves[k].route)] == leaves[k].text)
    && (forall p :: p in flat ==> IsPath(leaves, p))
  }

  lemma OneMoreHolds(flat: Flat, leaves: seq<Found>, leaf: Found, p: Text)
    requires Holds(flat, leaves) && p == Dotted(leaf.route) && !IsPath(leaves, p)
    ensures Holds(flat[p := leaf.text], leaves + [leaf])
  {
    hide Dotted;
    hide IsPath;
    var more, all := flat[p := leaf.text], leaves + [leaf];
    assert p !in flat;
    assert more.Keys == flat.Keys + {p};
    forall k | 0 <= k < |leaves| ensures Dotted(leaves[k].route) != p {
      assert Dotted(leaves[k].route) in flat;
    }
    forall k | 0 <= k < |all| ensures Dotted(all[k].route) in more && more[Dotted(all[k].route)] == all[k].text {
      if k < |leaves| {
        assert all[k] == leaves[k];
      }
    }
    forall q | q in more ensures IsPath(all, q) {
      PathOfOneMore(leaves, leaf, q);
    }
  }

  /** Leaves of distinct paths set on an empty map are all held. */
  lemma {:induction false} SetAllHolds(leaves: seq<Found>)
    requires forall i, j :: 0 <= i < j < |leaves| ==> Dotted(leaves[i].route) != Dotted(leaves[j].route)
    ensures Holds(SetAll(map[], leaves), leaves)
    decreases |leaves|
  {
    if leaves != [] {
      var n := |leaves| - 1;
      var init, last := leaves[..n], leaves[n];
      assert leaves == init + [last] && [last][1..] == [];
      SetAllAppend(map[], init, [last]);
      SetAllHolds(init);
      var p := Dotted(last.route);
      forall k | 0 <= k < |init| ensures p != Dotted(init[k].route) {
        assert leaves[k] == init[k];
      }
      OneMoreHolds(SetAll(map[], init), init, last, p);
    }
  }

  ghost predicate Below(route: Route, found: Found) {
    |route| < |found.route| && found.route[..|route|] == route && ShowableRoute(found.route)
  }

  ghost predicate DistinctRoutes(leaves: seq<Found>) {
    forall i, j :: 0 <= i < j < |leaves| ==> leaves[i].route != leaves[j].route
  }

  lemma {:induction false} EntryLeavesBelow(entries: Entries, route: Route)
    requires ShowableEntries(entries) && ShowableRoute(route)
    ensures forall found :: found in LeavesOfEntries(entries, route) ==>
      Below(route, found) && found.route[|route|] in KeySet(entries)
    ensures DistinctRoutes(LeavesOfEntries(entries, route))
    decreases entries
  {
    if entries.Cons? {
      var longer := route + [entries.key];
      assert ShowableRoute(longer);
      var first, rest := LeavesOfValue(entries.value, longer), LeavesOfEntries(entries.rest, route);
      EntryLeavesBelow(entries.rest, route);
      if entries.value.Nested? {
        EntryLeavesBelow(entries.value.entries, longer);
      }
      forall found | found in first
        ensures Below(route, found) && found.route[|route|] == entries.key
      {
        assert found.route[..|longer|] == longer;
        assert found.route[..|route|] == found.route[..|longer|][..|route|] == route;
        assert found.route[|route|] == found.route[..|longer|][|route|];
      }
      assert forall i :: 0 <= i < |first| ==> first[i] in first;
      assert forall i :: 0 <= i < |rest| ==> rest[i] in rest;
    }
  }

  lemma DistinctPaths(leaves: seq<Found>)
    requires DistinctRoutes(leaves) && forall found :: found in leaves ==> ShowableRoute(found.route)
    ensures forall i, j :: 0 <= i < j < |leaves| ==> Dotted(leaves[i].route) != Dotted(leaves[j].route)
  {
    forall i, j | 0 <= i < j < |leaves| ensures Dotted(leaves[i].route) != Dotted(leaves[j].route) {
      if Dotted(leaves[i].route) == Dotted(leaves[j].route) {
        DottedIsInjective(leaves[i].route, leaves[j].route);
      }
    }
  }

  // ----- From the text

  /** Every key of the tree's objects shows whole in a dotted path. */
  predicate KeysShowable(v: Json)
    requires LegalJson(v)
  {
    v.Object? ==> MemberKeysShowable(v.members)
  }

  predicate MemberKeysShowable(m: Members)
    requires LegalMembers(m)
  {
    m.Member? ==> Showable(Meaning(m.key)) && KeysShowable(m.value) && MemberKeysShowable(m.rest)
  }

  lemma {:induction false} PutKeepsShowable(entries: Entries, key: Text, value: Value)
    requires ShowableEntries(entries) && Showable(key) && (value.Nested? ==> ShowableEntries(value.entries))
    ensures ShowableEntries(Put(entries, key, value))
    ensures KeySet(Put(entries, key, value)) == KeySet(entries) + {key}
    decreases entries
  {
    if entries.Cons? && entries.key != key {
      PutKeepsShowable(entries.rest, key, value);
    }
  }

  lemma {:induction false} ParsedIsShowable(v: Json)
    requires LegalJson(v) && KeysShowable(v)
    ensures Parsed(v).Nested? ==> ShowableEntries(Parsed(v).entries)
    decreases v
  {
    if v.Object? {
      ParsedMembersShowable(v.members, Nil);
    }
  }

  lemma {:induction false} ParsedMembersShowable(m: Members, entries: Entries)
    requires LegalMembers(m) && MemberKeysShowable(m) && ShowableEntries(entries)
    ensures ShowableEntries(ParsedMembers(m, entries))
    decreases m
  {
    if m.Member? {
      ParsedIsShowable(m.value);
      PutKeepsShowable(entries, Meaning(m.key), Parsed(m.value));
      ParsedMembersShowable(m.rest, Put(entries, Meaning(m.key), Parsed(m.value)));
    }
  }

  /** When no key is reported twice and every key is a word without dots, the flat map is the string
      leaves of the text: one entry for each, found under its dotted path. */
  lemma FlattenLosesNothing(v: Json)
    requires LegalJson(v) && v.Object? && KeysShowable(v)
    requires Repeats(v, []) == []
    ensures var flat, leaves := Flattened(Parsed(v).entries, [], map[]), Leaves(v, []);
      Holds(flat, leaves)
  {
    NothingRepeatsIffDistinct(v, []);
    ParsedIsShowable(v);
    ParsingKeepsLeaves(v, []);
    var entries := Parsed(v).entries;
    var flat, leaves := Flattened(entries, [], map[]), Leaves(v, []);
    assert leaves == LeavesOfEntries(entries, []);
    FlattenedSetsLeaves(entries, [], map[]);
    EntryLeavesBelow(entries, []);
    DistinctPaths(leaves);
    SetAllHolds(leaves);
  }
}
