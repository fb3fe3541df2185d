/** Two lists made one: each entry once, in the order it is first mentioned, cut to a limit. */
module ListMerge {
  import opened Options

  // ----- Two lists as one, each entry once, so many at most

  /** The entries not in `seen`, each once, in order, `limit` at most. */
  function Once(seen: set<string>, s: seq<string>, limit: nat): (kept: seq<string>)
    ensures |kept| <= limit && |kept| <= |s|
    decreases |s|
  {
    if s == [] || limit == 0 then []
    else if s[0] in seen then Once(seen, s[1..], limit)
    else [s[0]] + Once(seen + {s[0]}, s[1..], limit - 1)
  }

  function BothOf(a: seq<string>, b: seq<string>, limit: Option<nat>): seq<string> {
    Once({}, a + b, if limit.Some? then limit.value else |a + b|)
  }

  lemma NoneKept(seen: set<string>, s: seq<string>, limit: nat)
    requires s == [] || limit == 0
    ensures Once(seen, s, limit) == []
  {
  }

  lemma OneMoreKept(seen: set<string>, all: seq<string>, i: nat)
    requires i < |all|
    ensures Once(seen, all[i..], |all|) ==
      if all[i] in seen then Once(seen, all[i + 1..], |all|)
      else [all[i]] + Once(seen + {all[i]}, all[i + 1..], |all|)
  {
    hide Once;
    assert all[i..] == [all[i]] + all[i + 1..];
    OnceOf(seen, all[i], all[i + 1..], |all|);
    EnoughIsEnough(seen + {all[i]}, all[i + 1..], |all|);
    EnoughIsEnough(seen + {all[i]}, all[i + 1..], |all| - 1);
  }

  lemma OnceOf(seen: set<string>, x: string, rest: seq<string>, limit: nat)
    ensures Once(seen, [x] + rest, limit) ==
      if limit == 0 then [] else if x in seen then Once(seen, rest, limit) else [x] + Once(seen + {x}, rest, limit - 1)
  {
    assert ([x] + rest)[1..] == rest;
  }

  lemma RestAfter(both: seq<string>, x: string, rest: seq<string>)
    ensures both + ([x] + rest) == (both + [x]) + rest
  {
  }

  /** The loop of a set filled in order, cut to `limit`. */
  method BothOfLoop(a: seq<string>, b: seq<string>, limit: Option<nat>) returns (both: seq<string>)
    ensures both == BothOf(a, b, limit)
  {
    hide Once;
    var all := a + b;
    var seen: set<string> := {};
    both := [];
    var i := 0;
    ghost var cap := if limit.Some? then limit.value else |all|;
    assert all[0..] == all;
    while i < |all|
      invariant 0 <= i <= |all| && |both| <= i
      invariant forall s :: s in seen <==> s in both
      invariant both + Once(seen, all[i..], |all|) == Once({}, all, |all|)
    {
      OneMoreKept(seen, all, i);
      if all[i] !in seen {
        RestAfter(both, all[i], Once(seen + {all[i]}, all[i + 1..], |all|));
        both := both + [all[i]];
        seen := seen + {all[i]};
      }
      i := i + 1;
    }
    NoneKept(seen, all[i..], |all|);
    CapTakes({}, all, |all|, cap);
    if cap > |all| {
      EnoughIsEnough({}, all, cap);
    }
    if limit.Some? && |both| > limit.value {
      both := both[..limit.value];
    }
  }

  /** A limit the list does not reach changes nothing. */
  lemma {:induction false} EnoughIsEnough(seen: set<string>, s: seq<string>, limit: nat)
    requires |s| <= limit
    ensures Once(seen, s, limit) == Once(seen, s, |s|)
    decreases |s|
  {
    if s != [] {
      if s[0] in seen {
        EnoughIsEnough(seen, s[1..], limit);
        EnoughIsEnough(seen, s[1..], |s|);
      } else {
        EnoughIsEnough(seen + {s[0]}, s[1..], limit - 1);
      }
    }
  }

  /** A lower limit keeps the first entries. */
  lemma {:induction false} CapTakes(seen: set<string>, s: seq<string>, limit: nat, cap: nat)
    ensures Once(seen, s, if cap < limit then cap else limit) ==
            if cap < |Once(seen, s, limit)| then Once(seen, s, limit)[..cap] else Once(seen, s, limit)
    decreases |s|
  {
    if s != [] && limit > 0 {
      if s[0] in seen {
        CapTakes(seen, s[1..], limit, cap);
      } else if cap > 0 {
        CapTakes(seen + {s[0]}, s[1..], limit - 1, cap - 1);
      }
    }
  }

  function SetOf(s: seq<string>): set<string> {
    set x | x in s
  }

  lemma SetOfFirst(seen: set<string>, x: string, rest: seq<string>)
    ensures seen + SetOf([x] + rest) == seen + {x} + SetOf(rest)
  {
    assert ([x] + rest)[0] == x && ([x] + rest)[1..] == rest;
    assert forall y :: y in [x] + rest <==> y == x || y in rest;
  }

  /** One list after another: the second keeps what the first left room for. */
  lemma {:induction false} OnceAppend(seen: set<string>, a: seq<string>, b: seq<string>, limit: nat)
    ensures var kept := Once(seen, a, limit);
      Once(seen, a + b, limit) == kept + Once(seen + SetOf(kept), b, limit - |kept|)
    decreases |a|
  {
    hide Once;
    NoneKept(seen, [], limit);
    NoneKept(seen, a, 0);
    NoneKept(seen + SetOf([]), b, 0);
    NoneKept(seen, a + b, 0);
    if a == [] {
      assert a + b == b && seen + SetOf([]) == seen;
    } else if limit > 0 {
      var rest := a[1..];
      assert a == [a[0]] + rest && a + b == [a[0]] + (rest + b);
      OnceOf(seen, a[0], rest, limit);
      OnceOf(seen, a[0], rest + b, limit);
      if a[0] in seen {
        OnceAppend(seen, a[1..], b, limit);
      } else {
        OnceAppend(seen + {a[0]}, a[1..], b, limit - 1);
        SetOfFirst(seen, a[0], Once(seen + {a[0]}, a[1..], limit - 1));
      }
    }
  }

  /** Kept once, a list is kept as it is. */
  lemma {:induction false} OnceAgain(seen: set<string>, s: seq<string>, limit: nat)
    ensures Once(seen, Once(seen, s, limit), limit) == Once(seen, s, limit)
    decreases |s|
  {
    if s != [] && limit > 0 {
      if s[0] in seen {
        OnceAgain(seen, s[1..], limit);
      } else {
        OnceAgain(seen + {s[0]}, s[1..], limit - 1);
      }
    }
  }

  lemma OneLess(seen: set<string>, cut: set<string>, x: string)
    ensures x in seen && x !in cut ==> |seen - cut| == |seen - (cut + {x})| + 1
    ensures x !in seen ==> |(seen + {x}) - (cut + {x})| == |seen - cut|
  {
    if x in seen && x !in cut {
      assert seen - cut == (seen - (cut + {x})) + {x};
    }
    if x !in seen {
      assert (seen + {x}) - (cut + {x}) == seen - cut;
    }
  }

  lemma OnceStep(seen: set<string>, s: seq<string>, limit: nat)
    requires s != [] && limit > 0
    ensures s[0] in seen ==> Once(seen, s, limit) == Once(seen, s[1..], limit)
    ensures s[0] !in seen ==> Once(seen, s, limit) == [s[0]] + Once(seen + {s[0]}, s[1..], limit - 1)
  {
  }

  /** A list already cut to `limit` gives as many as the list itself, as long as the entries it
      spent on ones already seen leave room. */
  lemma {:induction false} CutIsEnough(seen: set<string>, cut: set<string>, s: seq<string>, limit: nat, room: nat)
    requires cut <= seen && room + |seen - cut| <= limit
    ensures Once(seen, Once(cut, s, limit), room) == Once(seen, s, room)
    decreases |s|
  {
    hide Once;
    if s == [] || room == 0 {
      OnceNone(cut, s, limit);
      OnceNone(seen, s, room);
      OnceNone(seen, Once(cut, s, limit), room);
    } else {
      var x, rest := s[0], s[1..];
      OnceStep(seen, s, room);
      OnceStep(cut, s, limit);
      OneLess(seen, cut, x);
      if x in cut {
        CutIsEnough(seen, cut, rest, limit, room);
      } else {
        OnceOnNew(seen, cut, s, limit, room);
        if x in seen {
          CutIsEnough(seen, cut + {x}, rest, limit - 1, room);
        } else {
          CutIsEnough(seen + {x}, cut + {x}, rest, limit - 1, room - 1);
        }
      }
    }
  }

  lemma OnceNone(seen: set<string>, s: seq<string>, limit: nat)
    ensures s == [] || limit == 0 ==> Once(seen, s, limit) == []
  {
  }

  lemma OnceOnNew(seen: set<string>, cut: set<string>, s: seq<string>, limit: nat, room: nat)
    requires s != [] && room > 0 && limit > 0 && s[0] !in cut
    ensures var kept := Once(cut + {s[0]}, s[1..], limit - 1);
      && (s[0] in seen ==> Once(seen, Once(cut, s, limit), room) == Once(seen, kept, room))
      && (s[0] !in seen ==> Once(seen, Once(cut, s, limit), room) == [s[0]] + Once(seen + {s[0]}, kept, room - 1))
  {
    var kept := Once(cut + {s[0]}, s[1..], limit - 1);
    OnceStep(cut, s, limit);
    OnceStep(seen, [s[0]] + kept, room);
    assert ([s[0]] + kept)[1..] == kept;
  }

  lemma {:induction false} OnceNew(seen: set<string>, s: seq<string>, limit: nat)
    ensures |SetOf(Once(seen, s, limit))| == |Once(seen, s, limit)|
    ensures forall x :: x in Once(seen, s, limit) ==> x !in seen
    decreases |s|
  {
    if s != [] && limit > 0 {
      if s[0] in seen {
        OnceNew(seen, s[1..], limit);
      } else {
        OnceNew(seen + {s[0]}, s[1..], limit - 1);
        var rest := Once(seen + {s[0]}, s[1..], limit - 1);
        assert SetOf(Once(seen, s, limit)) == {s[0]} + SetOf(rest);
      }
    } else {
      assert SetOf([]) == {};
    }
  }

  /** Cutting to `limit` on the way, on either side, changes nothing of what is kept in the end. */
  lemma OnceRegroupsLeft(x: seq<string>, c: seq<string>, limit: nat)
    ensures Once({}, Once({}, x, limit) + c, limit) == Once({}, x + c, limit)
  {
    hide Once;
    OnceAppend({}, Once({}, x, limit), c, limit);
    OnceAgain({}, x, limit);
    OnceAppend({}, x, c, limit);
  }

  lemma OnceRegroupsRight(a: seq<string>, y: seq<string>, limit: nat)
    ensures Once({}, a + Once({}, y, limit), limit) == Once({}, a + y, limit)
  {
    hide Once;
    var kept := Once({}, a, limit);
    var seen := {} + SetOf(kept);
    OnceAppend({}, a, Once({}, y, limit), limit);
    OnceAppend({}, a, y, limit);
    OnceNew({}, a, limit);
    assert seen == SetOf(kept) && seen - {} == seen;
    CutIsEnough(seen, {}, y, limit, limit - |kept|);
  }

  lemma OnceRegroups(a: seq<string>, b: seq<string>, c: seq<string>, limit: nat)
    ensures Once({}, Once({}, a + b, limit) + c, limit) == Once({}, a + Once({}, b + c, limit), limit)
  {
    OnceRegroupsLeft(a + b, c, limit);
    OnceRegroupsRight(a, b + c, limit);
    assert (a + b) + c == a + (b + c);
  }

  lemma BothOfRegroups(a: seq<string>, b: seq<string>, c: seq<string>, limit: Option<nat>)
    ensures BothOf(BothOf(a, b, limit), c, limit) == BothOf(a, BothOf(b, c, limit), limit)
  {
    if limit.Some? {
      OnceRegroups(a, b, c, limit.value);
    } else {
      var n := |a| + |b| + |c|;
      OnceRegroups(a, b, c, n);
      EnoughIsEnough({}, a + b, n);
      EnoughIsEnough({}, b + c, n);
      EnoughIsEnough({}, BothOf(a, b, None) + c, n);
      EnoughIsEnough({}, a + BothOf(b, c, None), n);
    }
  }

  // ----- Names each listed once

  ghost predicate EachOnce(names: seq<string>) {
    names == [] || (names[0] !in names[1..] && EachOnce(names[1..]))
  }

  lemma {:induction false} OnceEach(seen: set<string>, s: seq<string>, limit: nat)
    ensures EachOnce(Once(seen, s, limit))
    decreases |s|
  {
    if s != [] && limit > 0 {
      if s[0] in seen {
        OnceEach(seen, s[1..], limit);
      } else {
        OnceEach(seen + {s[0]}, s[1..], limit - 1);
        OnceNew(seen + {s[0]}, s[1..], limit - 1);
      }
    }
  }

  lemma {:induction false} EachOnceAppend(order: seq<string>, name: string)
    requires EachOnce(order) && name !in order
    ensures EachOnce(order + [name])
    decreases |order|
  {
    if order != [] {
      assert (order + [name])[1..] == order[1..] + [name];
      EachOnceAppend(order[1..], name);
    } else {
      assert [name][1..] == [];
    }
  }

  // ----- First mentions, said without a loop

  /** Each entry once, where it is first mentioned. */
  function Firsts(s: seq<string>): seq<string> {
    if s == [] then []
    else
      var n := |s| - 1;
      Firsts(s[..n]) + if s[n] in s[..n] then [] else [s[n]]
  }

  function UpTo(limit: nat, s: seq<string>): seq<string> {
    if limit < |s| then s[..limit] else s
  }

  lemma {:induction false} FirstsHold(s: seq<string>)
    ensures SetOf(Firsts(s)) == SetOf(s) && |Firsts(s)| <= |s|
    decreases |s|
  {
    if s != [] {
      var n := |s| - 1;
      FirstsHold(s[..n]);
      assert s == s[..n] + [s[n]];
      assert forall x :: x in Firsts(s[..n]) <==> x in SetOf(Firsts(s[..n]));
      assert forall x :: x in s[..n] <==> x in SetOf(s[..n]);
    }
  }

  lemma {:induction false} OnceAllIsFirsts(s: seq<string>, limit: nat)
    requires |s| <= limit
    ensures Once({}, s, limit) == Firsts(s)
    decreases |s|
  {
    hide Once;
    if s == [] {
      NoneKept({}, s, limit);
    } else {
      var n := |s| - 1;
      var init, x := s[..n], s[n];
      assert s == init + [x] && [x] + [] == [x];
      OnceAllIsFirsts(init, limit);
      FirstsHold(init);
      OnceAppend({}, init, [x], limit);
      assert {} + SetOf(Firsts(init)) == SetOf(init) && (x in SetOf(init) <==> x in init);
      OnceOf(SetOf(init), x, [], limit - |Firsts(init)|);
      NoneKept(SetOf(init), [], limit - |Firsts(init)|);
      NoneKept(SetOf(init) + {x}, [], limit - |Firsts(init)| - 1);
    }
  }

  /** What the two-list loop keeps is the first mentions, so many of them. */
  lemma OnceIsFirsts(s: seq<string>, limit: nat)
    ensures Once({}, s, limit) == UpTo(limit, Firsts(s))
  {
    hide Once;
    if |s| <= limit {
      OnceAllIsFirsts(s, limit);
      FirstsHold(s);
    } else {
      OnceAllIsFirsts(s, |s|);
      CapTakes({}, s, |s|, limit);
    }
  }

  /** A list cut on the way gives what the whole gives. */
  lemma FirstsOfFirsts(a: seq<string>, b: seq<string>, limit: nat)
    ensures Firsts(Firsts(a) + b) == Firsts(a + b)
    ensures UpTo(limit, Firsts(UpTo(limit, Firsts(a)) + b)) == UpTo(limit, Firsts(a + b))
  {
    hide Once;
    hide Firsts;
    hide UpTo;
    var n := |a| + |b|;
    FirstsHold(a);
    OnceRegroupsLeft(a, b, n);
    OnceAllIsFirsts(a, n);
    OnceAllIsFirsts(Firsts(a) + b, n);
    OnceAllIsFirsts(a + b, n);
    OnceRegroupsLeft(a, b, limit);
    OnceIsFirsts(a, limit);
    OnceIsFirsts(UpTo(limit, Firsts(a)) + b, limit);
    OnceIsFirsts(a + b, limit);
  }
}
