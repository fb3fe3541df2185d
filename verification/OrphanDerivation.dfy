/** Why a module is alive: a finite derivation from the entry points. */
module OrphanDerivation {
  import opened StarSearch
  import opened OrphanWalk

  datatype Judgement = Reached(p: Path) | Asked(q: Path, n: Name) | AskedAll(q: Path)

  /** A module whose edges are followed. */
  predicate Source(facts: Facts, earlier: set<Judgement>, p: Path) {
    Reached(p) in earlier && p in facts && !IsJson(p)
  }

  /** What is asked of the barrel is passed on to a star target of it. */
  ghost predicate Passes(avail: Cache, earlier: set<Judgement>, p: Path, m: Path) {
    AskedAll(p) in earlier || exists n :: Asked(p, n) in earlier && Offered(avail, m, n)
  }

  /** A judgement follows from earlier ones: an entry; a plain or star edge; a demand, or what a barrel
      passes on. */
  ghost predicate Follows(facts: Facts, entries: set<Path>, avail: Cache, earlier: set<Judgement>, j: Judgement) {
    match j
    case Reached(m) =>
      m in entries ||
      exists p :: Source(facts, earlier, p) &&
        (m in facts[p].plain || (m in facts[p].star && Passes(avail, earlier, p, m)))
    case Asked(q, n) =>
      exists p :: Source(facts, earlier, p) &&
        ((q in facts[p].demands && facts[p].demands[q].Names? && n in facts[p].demands[q].names) ||
         (q in facts[p].star && Asked(p, n) in earlier && Offered(avail, q, n)))
    case AskedAll(q) =>
      exists p :: Source(facts, earlier, p) &&
        ((q in facts[p].demands && facts[p].demands[q].Every?) ||
         (q in facts[p].star && AskedAll(p) in earlier))
  }

  function Earlier(d: seq<Judgement>): set<Judgement> {
    set j | j in d
  }

  /** Every judgement follows from those before it; so the first is that of an entry. */
  ghost predicate Derivation(facts: Facts, entries: set<Path>, avail: Cache, d: seq<Judgement>) {
    forall i | 0 <= i < |d| :: Follows(facts, entries, avail, Earlier(d[..i]), d[i])
  }

  ghost predicate Derivable(facts: Facts, entries: set<Path>, avail: Cache, j: Judgement) {
    exists d :: Derivation(facts, entries, avail, d) && j in d
  }

  // ----- Derivations put together

  lemma FollowsFromMore(facts: Facts, entries: set<Path>, avail: Cache, earlier: set<Judgement>, more: set<Judgement>, j: Judgement)
    requires earlier <= more && Follows(facts, entries, avail, earlier, j)
    ensures Follows(facts, entries, avail, more, j)
  {
    match j
    case Reached(m) =>
      if m !in entries {
        var p :| Source(facts, earlier, p) &&
          (m in facts[p].plain || (m in facts[p].star && Passes(avail, earlier, p, m)));
        assert Source(facts, more, p) && (Passes(avail, earlier, p, m) ==> Passes(avail, more, p, m));
      }
    case Asked(q, n) =>
      var p :| Source(facts, earlier, p) &&
        ((q in facts[p].demands && facts[p].demands[q].Names? && n in facts[p].demands[q].names) ||
         (q in facts[p].star && Asked(p, n) in earlier && Offered(avail, q, n)));
      assert Source(facts, more, p);
    case AskedAll(q) =>
      var p :| Source(facts, earlier, p) &&
        ((q in facts[p].demands && facts[p].demands[q].Every?) ||
         (q in facts[p].star && AskedAll(p) in earlier));
      assert Source(facts, more, p);
  }

  lemma Together(facts: Facts, entries: set<Path>, avail: Cache, d: seq<Judgement>, e: seq<Judgement>)
    requires Derivation(facts, entries, avail, d) && Derivation(facts, entries, avail, e)
    ensures Derivation(facts, entries, avail, d + e)
  {
    hide Follows;
    var both := d + e;
    forall i | 0 <= i < |both| ensures Follows(facts, entries, avail, Earlier(both[..i]), both[i]) {
      if i < |d| {
        assert both[..i] == d[..i];
      } else {
        assert both[..i] == d + e[..i - |d|];
        FollowsFromMore(facts, entries, avail, Earlier(e[..i - |d|]), Earlier(both[..i]), both[i]);
      }
    }
  }

  /** What follows from two derivable judgements is derivable. */
  lemma OneMoreDerived(facts: Facts, entries: set<Path>, avail: Cache, a: Judgement, b: Judgement, j: Judgement)
    requires Derivable(facts, entries, avail, a) && Derivable(facts, entries, avail, b)
    requires Follows(facts, entries, avail, {a, b}, j)
    ensures Derivable(facts, entries, avail, j)
  {
    hide Follows;
    var d :| Derivation(facts, entries, avail, d) && a in d;
    var e :| Derivation(facts, entries, avail, e) && b in e;
    Together(facts, entries, avail, d, e);
    hide Derivation;
    var both := d + e;
    FollowsFromMore(facts, entries, avail, {a, b}, Earlier(both), j);
    Further(facts, entries, avail, both, j);
    assert j in both + [j];
  }

  lemma Further(facts: Facts, entries: set<Path>, avail: Cache, d: seq<Judgement>, j: Judgement)
    requires Derivation(facts, entries, avail, d) && Follows(facts, entries, avail, Earlier(d), j)
    ensures Derivation(facts, entries, avail, d + [j])
  {
    hide Follows;
    var all := d + [j];
    forall i | 0 <= i < |all| ensures Follows(facts, entries, avail, Earlier(all[..i]), all[i]) {
      assert all[..i] == d[..i];
      assert i == |d| ==> d[..i] == d;
    }
  }

  lemma EntryDerived(facts: Facts, entries: set<Path>, avail: Cache, m: Path)
    requires m in entries
    ensures Derivable(facts, entries, avail, Reached(m))
  {
    assert Derivation(facts, entries, avail, [Reached(m)]) && Reached(m) in [Reached(m)];
  }

  // ----- What is derived is exactly what the walk finds

  predicate Holds(t: Walked, j: Judgement) {
    match j
    case Reached(p) => p in t.reach
    case Asked(q, n) => Asks(t, q, n)
    case AskedAll(q) => q in t.every
  }

  /** In every closed state all that is derived holds. */
  lemma FollowsHolds(facts: Facts, entries: set<Path>, avail: Cache, t: Walked, earlier: set<Judgement>, j: Judgement)
    requires ClosedUnder(facts, entries, avail, t) && Follows(facts, entries, avail, earlier, j)
    requires forall i | i in earlier :: Holds(t, i) && (i.Asked? ==> i.n in AllNames(facts))
    ensures Holds(t, j) && (j.Asked? ==> j.n in AllNames(facts))
  {
    match j
    case Reached(m) =>
      if m !in entries {
        var p :| Source(facts, earlier, p) &&
          (m in facts[p].plain || (m in facts[p].star && Passes(avail, earlier, p, m)));
        assert Holds(t, Reached(p));
        assert Pulls(facts[p], t) && Carries(facts[p], avail, p, t);
        if m !in facts[p].plain && AskedAll(p) !in earlier {
          var n :| Asked(p, n) in earlier && Offered(avail, m, n);
          assert Holds(t, Asked(p, n));
        } else if m !in facts[p].plain {
          assert Holds(t, AskedAll(p));
        }
      }
    case Asked(q, n) =>
      var p :| Source(facts, earlier, p) &&
        ((q in facts[p].demands && facts[p].demands[q].Names? && n in facts[p].demands[q].names) ||
         (q in facts[p].star && Asked(p, n) in earlier && Offered(avail, q, n)));
      assert Holds(t, Reached(p));
      assert Pulls(facts[p], t) && Carries(facts[p], avail, p, t);
      if q in facts[p].demands && facts[p].demands[q].Names? && n in facts[p].demands[q].names {
        assert Meets(t, q, facts[p].demands[q]);
      } else {
        assert Holds(t, Asked(p, n));
      }
    case AskedAll(q) =>
      var p :| Source(facts, earlier, p) &&
        ((q in facts[p].demands && facts[p].demands[q].Every?) ||
         (q in facts[p].star && AskedAll(p) in earlier));
      assert Holds(t, Reached(p));
      assert Pulls(facts[p], t) && Carries(facts[p], avail, p, t);
      if q in facts[p].demands && facts[p].demands[q].Every? {
        assert Meets(t, q, facts[p].demands[q]);
      } else {
        assert Holds(t, AskedAll(p));
      }
  }

  lemma {:induction false} DerivedHolds(facts: Facts, entries: set<Path>, avail: Cache, t: Walked, d: seq<Judgement>)
    requires ClosedUnder(facts, entries, avail, t) && Derivation(facts, entries, avail, d)
    ensures forall j | j in d :: Holds(t, j) && (j.Asked? ==> j.n in AllNames(facts))
    decreases |d|
  {
    if d != [] {
      var n := |d| - 1;
      var init := d[..n];
      assert d == init + [d[n]];
      forall i | 0 <= i < n ensures Follows(facts, entries, avail, Earlier(init[..i]), init[i]) {
        assert init[..i] == d[..i] && init[i] == d[i];
      }
      DerivedHolds(facts, entries, avail, t, init);
      FollowsHolds(facts, entries, avail, t, Earlier(init), d[n]);
    }
  }

  lemma DerivableHolds(facts: Facts, entries: set<Path>, avail: Cache, t: Walked, j: Judgement)
    requires ClosedUnder(facts, entries, avail, t) && Derivable(facts, entries, avail, j)
    ensures Holds(t, j) && (j.Asked? ==> j.n in AllNames(facts))
  {
    var d :| Derivation(facts, entries, avail, d) && j in d;
    DerivedHolds(facts, entries, avail, t, d);
  }

  /** What is derivable, as a state of the walk. */
  ghost function Derived(facts: Facts, entries: set<Path>, avail: Cache, s: Walked): Walked {
    Walked((set m | m in s.reach && Derivable(facts, entries, avail, Reached(m))),
           (map q | q in facts :: (set n | n in AllNames(facts) && Derivable(facts, entries, avail, Asked(q, n)))),
           (set q | q in facts && Derivable(facts, entries, avail, AskedAll(q))))
  }

  lemma DerivedPulls(facts: Facts, entries: set<Path>, avail: Cache, s: Walked, p: Path)
    requires Whole(facts) && ClosedUnder(facts, entries, avail, s)
    requires p in Derived(facts, entries, avail, s).reach && p in facts && !IsJson(p)
    ensures Pulls(facts[p], Derived(facts, entries, avail, s))
  {
    var t := Derived(facts, entries, avail, s);
    var from := Reached(p);
    assert Source(facts, {from, from}, p);
    forall q | q in facts[p].plain ensures q in t.reach {
      OneMoreDerived(facts, entries, avail, from, from, Reached(q));
      DerivableHolds(facts, entries, avail, s, Reached(q));
    }
    forall q | q in facts[p].demands ensures Meets(t, q, facts[p].demands[q]) {
      match facts[p].demands[q]
      case Every =>
        OneMoreDerived(facts, entries, avail, from, from, AskedAll(q));
      case Names(names) =>
        forall n | n in names ensures Asks(t, q, n) {
          OneMoreDerived(facts, entries, avail, from, from, Asked(q, n));
          DerivableHolds(facts, entries, avail, s, Asked(q, n));
        }
    }
  }

  lemma DerivedCarries(facts: Facts, entries: set<Path>, avail: Cache, s: Walked, p: Path)
    requires Whole(facts) && ClosedUnder(facts, entries, avail, s)
    requires p in Derived(facts, entries, avail, s).reach && p in facts && !IsJson(p)
    ensures Carries(facts[p], avail, p, Derived(facts, entries, avail, s))
  {
    var t := Derived(facts, entries, avail, s);
    forall q | q in facts[p].star
      ensures p in t.every ==> q in t.reach && q in t.every
      ensures forall n :: n in NamesOf(t, p) && Offered(avail, q, n) ==> q in t.reach && Asks(t, q, n)
    {
      if p in t.every {
        PassedOnDerived(facts, entries, avail, p, q, AskedAll(p));
        DerivableHolds(facts, entries, avail, s, Reached(q));
      }
      forall n | n in NamesOf(t, p) && Offered(avail, q, n) ensures q in t.reach && Asks(t, q, n) {
        PassedOnDerived(facts, entries, avail, p, q, Asked(p, n));
        DerivableHolds(facts, entries, avail, s, Reached(q));
        DerivableHolds(facts, entries, avail, s, Asked(q, n));
      }
    }
  }

  lemma PassedOnDerived(facts: Facts, entries: set<Path>, avail: Cache, p: Path, q: Path, asked: Judgement)
    requires p in facts && !IsJson(p) && q in facts[p].star
    requires asked == AskedAll(p) || (asked.Asked? && asked.q == p && Offered(avail, q, asked.n))
    requires Derivable(facts, entries, avail, Reached(p)) && Derivable(facts, entries, avail, asked)
    ensures Derivable(facts, entries, avail, Reached(q))
    ensures Derivable(facts, entries, avail, if asked.AskedAll? then AskedAll(q) else Asked(q, asked.n))
  {
    var earlier := {Reached(p), asked};
    assert Source(facts, earlier, p) && Passes(avail, earlier, p, q);
    OneMoreDerived(facts, entries, avail, Reached(p), asked, Reached(q));
    OneMoreDerived(facts, entries, avail, Reached(p), asked, if asked.AskedAll? then AskedAll(q) else Asked(q, asked.n));
  }

  /** A module is reached if and only if a finite derivation from the entry points says so; and so for
      what is asked of it. */
  lemma ReachedIffDerivable(facts: Facts, entries: set<Path>, avail: Cache, s: Walked)
    requires Whole(facts) && Least(facts, entries, avail, s)
    ensures forall m :: m in s.reach <==> Derivable(facts, entries, avail, Reached(m))
    ensures forall q :: q in s.every <==> Derivable(facts, entries, avail, AskedAll(q))
    ensures forall q, n :: Asks(s, q, n) <==>
      Derivable(facts, entries, avail, AskedAll(q)) || Derivable(facts, entries, avail, Asked(q, n))
  {
    var t := Derived(facts, entries, avail, s);
    forall m | m in entries ensures m in t.reach {
      EntryDerived(facts, entries, avail, m);
    }
    forall p | p in t.reach && p in facts && !IsJson(p)
      ensures Pulls(facts[p], t) && Carries(facts[p], avail, p, t)
    {
      DerivedPulls(facts, entries, avail, s, p);
      DerivedCarries(facts, entries, avail, s, p);
    }
    assert Below(s, t) by {
      assert ClosedUnder(facts, entries, avail, t);
    }
    forall j | Derivable(facts, entries, avail, j) ensures Holds(s, j) {
      DerivableHolds(facts, entries, avail, s, j);
    }
    AskedAsDerived(facts, entries, avail, s);
  }

  lemma AskedAsDerived(facts: Facts, entries: set<Path>, avail: Cache, s: Walked)
    requires Below(s, Derived(facts, entries, avail, s))
    requires forall j | Derivable(facts, entries, avail, j) :: Holds(s, j)
    ensures forall m :: m in s.reach <==> Derivable(facts, entries, avail, Reached(m))
    ensures forall q :: q in s.every <==> Derivable(facts, entries, avail, AskedAll(q))
    ensures forall q, n :: Asks(s, q, n) <==>
      Derivable(facts, entries, avail, AskedAll(q)) || Derivable(facts, entries, avail, Asked(q, n))
  {
    forall m ensures m in s.reach <==> Derivable(facts, entries, avail, Reached(m)) {
      assert Derivable(facts, entries, avail, Reached(m)) ==> Holds(s, Reached(m));
    }
    forall q ensures q in s.every <==> Derivable(facts, entries, avail, AskedAll(q)) {
      assert Derivable(facts, entries, avail, AskedAll(q)) ==> Holds(s, AskedAll(q));
    }
    forall q, n ensures Asks(s, q, n) <==>
      Derivable(facts, entries, avail, AskedAll(q)) || Derivable(facts, entries, avail, Asked(q, n))
    {
      assert Derivable(facts, entries, avail, Asked(q, n)) ==> Holds(s, Asked(q, n));
      assert Asks(s, q, n) ==> Asks(Derived(facts, entries, avail, s), q, n);
    }
  }
}
