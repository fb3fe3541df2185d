/** What the orphan audit's answer means, for every module graph. */
module OrphanTheorems {
  import opened StarSearch
  import opened OrphanWalk

  /** What each module exports: the transitive closure over `export *`. */
  ghost function Exports(facts: Facts): (exports: Cache)
    requires Whole(facts)
    ensures exports.Keys == facts.Keys && ExactCache(ExportGraph(facts), exports)
  {
    ExportGraphClosed(facts);
    Closure(ExportGraph(facts))
  }

  // ----- Order

  /** Two least states are one: what is reached, and what is asked of each module. */
  lemma LeastIsUnique(facts: Facts, entries: set<Path>, avail: Cache, s: Walked, t: Walked)
    requires Least(facts, entries, avail, s) && Least(facts, entries, avail, t)
    requires Tidy(s) && Tidy(t)
    ensures Same(s, t)
  {
    assert Below(s, t) && Below(t, s);
    forall q ensures NamesOf(s, q) == NamesOf(t, q) {
      assert forall n :: n in NamesOf(s, q) ==> Asks(t, q, n);
      assert forall n :: n in NamesOf(t, q) ==> Asks(s, q, n);
    }
  }

  lemma OffersMonotone(facts: Facts, entries: set<Path>, avail: Cache, more: Cache, t: Walked)
    requires ClosedUnder(facts, entries, more, t)
    requires forall q, n :: Offered(avail, q, n) ==> Offered(more, q, n)
    ensures ClosedUnder(facts, entries, avail, t)
  {
    forall p | p in t.reach && p in facts && !IsJson(p)
      ensures Pulls(facts[p], t) && Carries(facts[p], avail, p, t)
    {
      assert Carries(facts[p], more, p, t);
    }
  }

  /** A walk never reaches more than the exact exports justify, star cycles or not. */
  lemma WalkNeverExceeds(facts: Facts, entries: set<Path>, cache: Cache, s: Walked, exact: Walked)
    requires Whole(facts) && SoundCache(ExportGraph(facts), cache)
    requires Least(facts, entries, cache, s) && Least(facts, entries, Exports(facts), exact)
    ensures Below(s, exact)
  {
    forall q, n | Offered(cache, q, n) ensures Offered(Exports(facts), q, n) {
      assert Exact(ExportGraph(facts), q, Exports(facts)[q]);
      assert Sound(ExportGraph(facts), q, cache[q]);
    }
    OffersMonotone(facts, entries, cache, Exports(facts), exact);
  }

  lemma SameAnswersCarry(f: ModuleFacts, cache: Cache, exact: Cache, p: Path, s: Walked)
    requires Carries(f, cache, p, s) && LookedUp(f, cache, p, s)
    requires forall q :: q in cache ==> q in exact && cache[q] == exact[q]
    ensures Carries(f, exact, p, s)
  {
  }

  /** Where no two modules re-export each other, the walk's state is the least one for the exact
      exports: with `LeastIsUnique`, no order of its passes changes it. */
  lemma WalkIsExact(facts: Facts, entries: set<Path>, cache: Cache, s: Walked)
    requires Whole(facts) && NoCycle(ExportGraph(facts)) && ExactCache(ExportGraph(facts), cache)
    requires Least(facts, entries, cache, s) && AllLookedUp(facts, cache, s)
    ensures Least(facts, entries, Exports(facts), s)
  {
    hide Pulls;
    hide Carries;
    hide LookedUp;
    hide Exact;
    hide NoCycle;
    hide Whole;
    hide ExportGraph;
    var exact := Exports(facts);
    forall q | q in cache ensures q in exact && cache[q] == exact[q] {
      ExactIsUnique(ExportGraph(facts), q, cache[q], exact[q]);
    }
    forall p | p in s.reach && p in facts && !IsJson(p)
      ensures Pulls(facts[p], s) && Carries(facts[p], exact, p, s)
    {
      SameAnswersCarry(facts[p], cache, exact, p, s);
    }
    forall t | ClosedUnder(facts, entries, exact, t) ensures Below(s, t) {
      OffersMonotone(facts, entries, cache, exact, t);
    }
  }

  // ----- Dead modules keep nothing alive

  /** What both states hold. */
  ghost function Meet(s: Walked, t: Walked): Walked {
    Walked(s.reach * t.reach,
           map q | q in s.names.Keys + t.names.Keys ::
             (set n | n in NamesOf(s, q) + NamesOf(t, q) && Asks(s, q, n) && Asks(t, q, n)),
           s.every * t.every)
  }

  lemma MeetAsks(s: Walked, t: Walked, q: Path, n: Name)
    ensures Asks(Meet(s, t), q, n) <==> Asks(s, q, n) && Asks(t, q, n)
  {
  }

  lemma MeetCarries(f: ModuleFacts, avail: Cache, p: Path, s: Walked, t: Walked)
    requires Carries(f, avail, p, s) && Carries(f, avail, p, t)
    ensures Carries(f, avail, p, Meet(s, t))
  {
    var m := Meet(s, t);
    forall q, n | q in f.star && n in NamesOf(m, p) && Offered(avail, q, n)
      ensures q in m.reach && Asks(m, q, n)
    {
      assert Asks(m, p, n);
      MeetAsks(s, t, p, n);
      MeetAsks(s, t, q, n);
    }
  }

  lemma MeetPulls(f: ModuleFacts, s: Walked, t: Walked)
    requires Pulls(f, s) && Pulls(f, t)
    ensures Pulls(f, Meet(s, t))
  {
    forall q | q in f.demands ensures Meets(Meet(s, t), q, f.demands[q]) {
      assert Meets(s, q, f.demands[q]) && Meets(t, q, f.demands[q]);
      forall n { MeetAsks(s, t, q, n); }
    }
  }

  /** The two module graphs agree on every module of `live`. */
  ghost predicate AgreeOn(live: set<Path>, facts: Facts, changed: Facts) {
    forall p :: p in live ==> (p in facts <==> p in changed) && (p in facts ==> facts[p] == changed[p])
  }

  /** Both offer the same of what the modules of `live` re-export. */
  ghost predicate OffersAlike(live: set<Path>, facts: Facts, avail: Cache, other: Cache) {
    forall p, q, n :: p in live && p in facts && q in facts[p].star ==> (Offered(avail, q, n) <==> Offered(other, q, n))
  }

  lemma CarriesAlike(f: ModuleFacts, avail: Cache, other: Cache, p: Path, t: Walked)
    requires forall q, n :: q in f.star ==> (Offered(avail, q, n) <==> Offered(other, q, n))
    requires Carries(f, avail, p, t)
    ensures Carries(f, other, p, t)
  {
  }

  /** Whatever an unreached module imports, demands or is made to import and demand, the answer
      stays: only what reached modules ask, and what is offered of their re-exports, is followed. */
  lemma DeadModulesKeepNothingAlive(facts: Facts, changed: Facts, entries: set<Path>, avail: Cache, other: Cache, s: Walked)
    requires Least(facts, entries, avail, s) && AgreeOn(s.reach, facts, changed)
    requires OffersAlike(s.reach, facts, avail, other)
    ensures Least(changed, entries, other, s)
  {
    forall p | p in s.reach && p in changed && !IsJson(p)
      ensures Pulls(changed[p], s) && Carries(changed[p], other, p, s)
    {
      assert Pulls(facts[p], s) && Carries(facts[p], avail, p, s);
      CarriesAlike(facts[p], avail, other, p, s);
    }
    forall t | ClosedUnder(changed, entries, other, t) ensures Below(s, t) {
      AboveAgain(facts, changed, entries, avail, other, s, t);
    }
  }

  lemma AboveAgain(facts: Facts, changed: Facts, entries: set<Path>, avail: Cache, other: Cache, s: Walked, t: Walked)
    requires Least(facts, entries, avail, s) && AgreeOn(s.reach, facts, changed)
    requires OffersAlike(s.reach, facts, avail, other) && ClosedUnder(changed, entries, other, t)
    ensures Below(s, t)
  {
    var m := Meet(s, t);
    forall p | p in m.reach && p in facts && !IsJson(p)
      ensures Pulls(facts[p], m) && Carries(facts[p], avail, p, m)
    {
      assert Pulls(changed[p], t) && Carries(changed[p], other, p, t);
      CarriesAlike(facts[p], other, avail, p, t);
      MeetPulls(facts[p], s, t);
      MeetCarries(facts[p], avail, p, s, t);
    }
    assert Below(s, m);
    forall q, n | n in NamesOf(s, q) ensures Asks(t, q, n) {
      MeetAsks(s, t, q, n);
    }
  }

  /** What the modules of `live` re-export, and all it leads to, is in both as it stands. */
  ghost predicate SameBeneath(live: set<Path>, facts: Facts, changed: Facts) {
    forall p, q :: p in live && p in facts && q in facts[p].star ==> SameFrom(ExportGraph(facts), ExportGraph(changed), q)
  }

  /** So for the exact exports: whatever a module imports, demands, declares or re-exports that is neither
      reached nor re-exported, however far, by one that is, the result is the same. */
  lemma DeadEdgesChangeNothing(facts: Facts, changed: Facts, entries: set<Path>, s: Walked)
    requires Whole(facts) && Whole(changed) && SameBeneath(s.reach, facts, changed)
    requires Least(facts, entries, Exports(facts), s) && AgreeOn(s.reach, facts, changed)
    ensures Least(changed, entries, Exports(changed), s)
  {
    hide Least;
    hide AgreeOn;
    forall p, q, n | p in s.reach && p in facts && q in facts[p].star
      ensures Offered(Exports(facts), q, n) <==> Offered(Exports(changed), q, n)
    {
      SameOffered(facts, changed, q);
    }
    DeadModulesKeepNothingAlive(facts, changed, entries, Exports(facts), Exports(changed), s);
  }

  lemma SameOffered(facts: Facts, changed: Facts, q: Path)
    requires Whole(facts) && Whole(changed) && q in facts && SameFrom(ExportGraph(facts), ExportGraph(changed), q)
    ensures q in changed && Exports(facts)[q] == Exports(changed)[q]
  {
    hide Exact;
    hide SameFrom;
    var g, h := ExportGraph(facts), ExportGraph(changed);
    ExportGraphClosed(facts);
    SameHere(g, h, q);
    SameExact(g, h, q, Exports(facts)[q]);
    ExactIsUnique(h, q, Exports(facts)[q], Exports(changed)[q]);
  }

  // ----- More edges never remove a module

  ghost predicate AtMost(d: Demand, e: Demand) {
    e.Every? || (d.Names? && d.names <= e.names)
  }

  /** `more` has every module, edge, demand and export of `facts`. */
  ghost predicate Grown(facts: Facts, more: Facts) {
    forall p :: p in facts ==>
      && p in more
      && (forall q :: q in facts[p].plain ==> q in more[p].plain)
      && (forall q :: q in facts[p].star ==> q in more[p].star)
      && (forall q :: q in facts[p].demands ==> q in more[p].demands && AtMost(facts[p].demands[q], more[p].demands[q]))
      && (facts[p].opaqueStar ==> more[p].opaqueStar)
      && facts[p].own <= more[p].own
  }

  lemma ItemsOf(facts: Facts, p: Path, q: Path)
    requires p in facts
    ensures Absorbs(ExportGraph(facts), p) <==> facts[p].opaqueStar
    ensures Edge(ExportGraph(facts), p, q) <==> !facts[p].opaqueStar && q in facts[p].star
    ensures forall n :: Declares(ExportGraph(facts), p, n) <==> !facts[p].opaqueStar && n in facts[p].own
  {
    hide ExportItems;
    var f := facts[p];
    assert ExportGraph(facts)[p] == ExportItems(f);
    ItemIn(f, Absorb);
    ItemIn(f, Star(q));
    ItemIn(f, Own(f.own));
    forall own { ItemIn(f, Own(own)); }
  }

  lemma ItemIn(f: ModuleFacts, item: Item)
    ensures item in ExportItems(f) <==>
      if f.opaqueStar then item == Absorb else item == Own(f.own) || (item.Star? && item.to in f.star)
  {
    var items := ExportItems(f);
    if f.opaqueStar {
      assert items == [Absorb];
    } else {
      var stars := Stars(f.star);
      assert items == [Own(f.own)] + stars;
      if item.Star? && item.to in f.star {
        var i :| 0 <= i < |f.star| && f.star[i] == item.to;
        assert stars[i] == item;
      }
    }
  }

  lemma EdgeGrows(facts: Facts, more: Facts, p: Path, q: Path, end: Path)
    requires Whole(more) && Grown(facts, more) && Edge(ExportGraph(facts), p, q)
    requires Reaches(ExportGraph(more), q, end) || Absorbing(ExportGraph(more), q)
    ensures Reaches(ExportGraph(more), p, end) || Absorbing(ExportGraph(more), p)
  {
    var h := ExportGraph(more);
    ItemsOf(facts, p, q);
    ItemsOf(more, p, q);
    ReachesSelf(h, p);
    if !more[p].opaqueStar {
      if Absorbing(h, q) {
        var r :| Reaches(h, q, r) && Absorbs(h, r);
        ReachesAcross(h, p, q, r);
      } else {
        ReachesAcross(h, p, q, end);
      }
    }
  }

  /** A chain of the smaller graph is one of the larger, unless it meets a star that became opaque. */
  lemma {:induction false} ChainGrows(facts: Facts, more: Facts, path: seq<Path>)
    requires Whole(more) && Grown(facts, more) && Chain(ExportGraph(facts), path)
    ensures Reaches(ExportGraph(more), path[0], path[|path| - 1]) || Absorbing(ExportGraph(more), path[0])
    decreases |path|
  {
    if |path| == 1 {
      ReachesSelf(ExportGraph(more), path[0]);
    } else {
      hide Grown;
      hide Whole;
      RestOfChain(ExportGraph(facts), path);
      ChainGrows(facts, more, path[1..]);
      EdgeGrows(facts, more, path[0], path[1], path[|path| - 1]);
    }
  }

  lemma ExportsGrow(facts: Facts, more: Facts, q: Path, n: Name)
    requires Whole(facts) && Whole(more) && Grown(facts, more)
    requires Offered(Exports(facts), q, n)
    ensures Offered(Exports(more), q, n)
  {
    var g, h := ExportGraph(facts), ExportGraph(more);
    assert Exact(g, q, Exports(facts)[q]) && Exact(h, q, Exports(more)[q]);
    var r :| Reaches(g, q, r) && (Absorbs(g, r) || Declares(g, r, n));
    var path :| Chain(g, path) && path[0] == q && path[|path| - 1] == r;
    ChainGrows(facts, more, path);
    ItemsOf(facts, r, r);
    ItemsOf(more, r, r);
    if !Absorbing(h, q) {
      assert Reaches(h, q, r);
      assert Absorbs(h, r) || Declares(h, r, n);
      assert Offers(h, q, n);
    }
  }

  lemma GrownRules(f: ModuleFacts, g: ModuleFacts, avail: Cache, more: Cache, p: Path, t: Walked)
    requires forall q :: q in f.plain ==> q in g.plain
    requires forall q :: q in f.star ==> q in g.star
    requires forall q :: q in f.demands ==> q in g.demands && AtMost(f.demands[q], g.demands[q])
    requires forall q, n :: Offered(avail, q, n) ==> Offered(more, q, n)
    requires Pulls(g, t) && Carries(g, more, p, t)
    ensures Pulls(f, t) && Carries(f, avail, p, t)
  {
    forall q | q in f.demands ensures Meets(t, q, f.demands[q]) {
      assert Meets(t, q, g.demands[q]);
    }
  }

  /** A state closed for more modules, edges, demands and exports is closed for fewer. */
  lemma GrownClosed(facts: Facts, more: Facts, entries: set<Path>, moreEntries: set<Path>, t: Walked)
    requires Whole(facts) && Whole(more) && Grown(facts, more) && entries <= moreEntries
    requires ClosedUnder(more, moreEntries, Exports(more), t)
    ensures ClosedUnder(facts, entries, Exports(facts), t)
  {
    var before, after := Exports(facts), Exports(more);
    forall q, n | Offered(before, q, n) ensures Offered(after, q, n) {
      ExportsGrow(facts, more, q, n);
    }
    forall p | p in t.reach && p in facts && !IsJson(p)
      ensures Pulls(facts[p], t) && Carries(facts[p], before, p, t)
    {
      GrownRules(facts[p], more[p], before, after, p, t);
    }
  }

  /** Adding entries, modules, edges, demands or exports never removes a reached module, nor
      anything asked of one. */
  lemma MoreNeverRemoves(facts: Facts, more: Facts, entries: set<Path>, moreEntries: set<Path>, s: Walked, t: Walked)
    requires Whole(facts) && Whole(more) && Grown(facts, more) && entries <= moreEntries
    requires Least(facts, entries, Exports(facts), s)
    requires Least(more, moreEntries, Exports(more), t)
    ensures Below(s, t)
  {
    GrownClosed(facts, more, entries, moreEntries, t);
  }

  // ----- Why a module is reached

  /** An entry, or pulled in whole by a reached module. */
  ghost predicate Rooted(facts: Facts, entries: set<Path>, s: Walked, m: Path) {
    m in entries || exists p :: p in s.reach && p in facts && !IsJson(p) && m in facts[p].plain
  }

  ghost predicate AskedFor(facts: Facts, s: Walked, q: Path, n: Name) {
    exists p :: p in s.reach && p in facts && !IsJson(p) && q in facts[p].demands &&
      facts[p].demands[q].Names? && n in facts[p].demands[q].names
  }

  ghost predicate AskedWhole(facts: Facts, s: Walked, q: Path) {
    exists p :: p in s.reach && p in facts && !IsJson(p) && q in facts[p].demands && facts[p].demands[q].Every?
  }

  /** `q` is a star target of the reached barrel `p`. */
  ghost predicate Barrel(facts: Facts, s: Walked, p: Path, q: Path) {
    p in s.reach && p in facts && !IsJson(p) && q in facts[p].star
  }

  /** A reached module asks the first barrel for `n` by name, and each next module, offering `n`,
      is a star target of the one before it. */
  ghost predicate NameTrail(facts: Facts, avail: Cache, s: Walked, trail: seq<Path>, n: Name)
  {
    && trail != []
    && AskedFor(facts, s, trail[0], n)
    && forall i :: 0 < i < |trail| ==> Barrel(facts, s, trail[i - 1], trail[i]) && Offered(avail, trail[i], n)
  }

  /** A reached module asks the first barrel for everything. */
  ghost predicate WholeTrail(facts: Facts, s: Walked, trail: seq<Path>) {
    && trail != []
    && AskedWhole(facts, s, trail[0])
    && forall i :: 0 < i < |trail| ==> Barrel(facts, s, trail[i - 1], trail[i])
  }

  ghost predicate Named(facts: Facts, avail: Cache, s: Walked, q: Path, n: Name)
  {
    exists trail :: NameTrail(facts, avail, s, trail, n) && trail[|trail| - 1] == q
  }

  ghost predicate Demanded(facts: Facts, s: Walked, q: Path) {
    exists trail :: WholeTrail(facts, s, trail) && trail[|trail| - 1] == q
  }

  /** A star target of a reached barrel that passes on a name it offers, or everything. */
  ghost predicate PassedOn(facts: Facts, avail: Cache, s: Walked, m: Path)
  {
    exists p :: Barrel(facts, s, p, m) &&
      (Demanded(facts, s, p) || exists n :: Named(facts, avail, s, p, n) && Offered(avail, m, n))
  }

  lemma TrailStep(facts: Facts, avail: Cache, s: Walked, p: Path, q: Path)
    requires Barrel(facts, s, p, q)
    ensures Demanded(facts, s, p) ==> Demanded(facts, s, q)
    ensures forall n :: Named(facts, avail, s, p, n) && Offered(avail, q, n) ==> Named(facts, avail, s, q, n)
  {
    if Demanded(facts, s, p) {
      var trail :| WholeTrail(facts, s, trail) && trail[|trail| - 1] == p;
      assert WholeTrail(facts, s, trail + [q]);
      assert (trail + [q])[|trail + [q]| - 1] == q;
    }
    forall n | Named(facts, avail, s, p, n) && Offered(avail, q, n) ensures Named(facts, avail, s, q, n) {
      var trail :| NameTrail(facts, avail, s, trail, n) && trail[|trail| - 1] == p;
      assert NameTrail(facts, avail, s, trail + [q], n);
      assert (trail + [q])[|trail + [q]| - 1] == q;
    }
  }

  lemma {:induction false} WholeTrailDemands(facts: Facts, entries: set<Path>, avail: Cache, s: Walked, trail: seq<Path>)
    requires ClosedUnder(facts, entries, avail, s) && WholeTrail(facts, s, trail)
    ensures trail[|trail| - 1] in s.every
    decreases |trail|
  {
    if |trail| == 1 {
      var p :| p in s.reach && p in facts && !IsJson(p) && trail[0] in facts[p].demands && facts[p].demands[trail[0]].Every?;
      assert Meets(s, trail[0], facts[p].demands[trail[0]]);
    } else {
      var init := trail[..|trail| - 1];
      var p := init[|init| - 1];
      assert WholeTrail(facts, s, init);
      WholeTrailDemands(facts, entries, avail, s, init);
      assert Barrel(facts, s, p, trail[|trail| - 1]);
      assert Carries(facts[p], avail, p, s);
    }
  }

  lemma {:induction false} NameTrailAsks(facts: Facts, entries: set<Path>, avail: Cache, s: Walked, trail: seq<Path>, n: Name)
    requires ClosedUnder(facts, entries, avail, s) && NameTrail(facts, avail, s, trail, n)
    ensures Asks(s, trail[|trail| - 1], n) && n in AllNames(facts)
    ensures |trail| > 1 ==> trail[|trail| - 1] in s.reach
    decreases |trail|
  {
    if |trail| == 1 {
      var p :| p in s.reach && p in facts && !IsJson(p) && trail[0] in facts[p].demands &&
        facts[p].demands[trail[0]].Names? && n in facts[p].demands[trail[0]].names;
      assert Meets(s, trail[0], facts[p].demands[trail[0]]);
    } else {
      var init := trail[..|trail| - 1];
      var p := init[|init| - 1];
      assert NameTrail(facts, avail, s, init, n);
      NameTrailAsks(facts, entries, avail, s, init, n);
      assert Barrel(facts, s, p, trail[|trail| - 1]);
      assert Carries(facts[p], avail, p, s);
    }
  }

  /** What the trails justify. */
  ghost function Explained(facts: Facts, entries: set<Path>, avail: Cache, s: Walked): Walked
  {
    Walked((set m | m in s.reach && (Rooted(facts, entries, s, m) || PassedOn(facts, avail, s, m))),
           (map q | q in facts :: (set n | n in AllNames(facts) && Named(facts, avail, s, q, n))),
           (set q | q in facts && Demanded(facts, s, q)))
  }

  lemma ExplainedPulls(facts: Facts, entries: set<Path>, avail: Cache, s: Walked, p: Path)
    requires Whole(facts) && ClosedUnder(facts, entries, avail, s)
    requires p in s.reach && p in facts && !IsJson(p)
    ensures Pulls(facts[p], Explained(facts, entries, avail, s))
  {
    var t := Explained(facts, entries, avail, s);
    assert Pulls(facts[p], s);
    forall q | q in facts[p].demands ensures Meets(t, q, facts[p].demands[q]) {
      assert [q][|[q]| - 1] == q;
      match facts[p].demands[q]
      case Every =>
        assert WholeTrail(facts, s, [q]);
      case Names(names) =>
        forall n | n in names ensures Asks(t, q, n) {
          assert NameTrail(facts, avail, s, [q], n);
        }
    }
  }

  lemma ExplainedCarries(facts: Facts, entries: set<Path>, avail: Cache, s: Walked, p: Path)
    requires Whole(facts) && ClosedUnder(facts, entries, avail, s)
    requires p in s.reach && p in facts && !IsJson(p)
    ensures Carries(facts[p], avail, p, Explained(facts, entries, avail, s))
  {
    var t := Explained(facts, entries, avail, s);
    forall q | q in facts[p].star
      ensures p in t.every ==> q in t.reach && q in t.every
      ensures forall n :: n in NamesOf(t, p) && Offered(avail, q, n) ==> q in t.reach && Asks(t, q, n)
    {
      assert Barrel(facts, s, p, q);
      TrailStep(facts, avail, s, p, q);
      assert Carries(facts[p], avail, p, s);
      if Demanded(facts, s, p) {
        var trail :| WholeTrail(facts, s, trail) && trail[|trail| - 1] == p;
        WholeTrailDemands(facts, entries, avail, s, trail);
        assert PassedOn(facts, avail, s, q);
      }
      forall n | n in NamesOf(t, p) && Offered(avail, q, n)
        ensures q in t.reach && Asks(t, q, n)
      {
        var trail :| NameTrail(facts, avail, s, trail, n) && trail[|trail| - 1] == p;
        NameTrailAsks(facts, entries, avail, s, trail, n);
        assert PassedOn(facts, avail, s, q);
      }
    }
  }

  /** A module is reached exactly when it is an entry, pulled in whole by a reached module, or the
      star target of a reached barrel on a trail of names or under a demand for everything; and a
      module is asked exactly what some trail asks of it. */
  lemma ReachedExactlyWhenExplained(facts: Facts, entries: set<Path>, avail: Cache, s: Walked)
    requires Whole(facts) && Least(facts, entries, avail, s)
    ensures forall m :: m in s.reach <==> Rooted(facts, entries, s, m) || PassedOn(facts, avail, s, m)
    ensures forall q :: q in s.every <==> Demanded(facts, s, q)
    ensures forall q, n :: Asks(s, q, n) <==> Demanded(facts, s, q) || Named(facts, avail, s, q, n)
  {
    var t := Explained(facts, entries, avail, s);
    forall p | p in t.reach && p in facts && !IsJson(p)
      ensures Pulls(facts[p], t) && Carries(facts[p], avail, p, t)
    {
      ExplainedPulls(facts, entries, avail, s, p);
      ExplainedCarries(facts, entries, avail, s, p);
    }
    assert Below(s, t) by {
      assert ClosedUnder(facts, entries, avail, t);
    }
    forall m | Rooted(facts, entries, s, m) || PassedOn(facts, avail, s, m) ensures m in s.reach {
      TrailsReach(facts, entries, avail, s, m);
    }
    forall q | Demanded(facts, s, q) ensures q in s.every {
      var trail :| WholeTrail(facts, s, trail) && trail[|trail| - 1] == q;
      WholeTrailDemands(facts, entries, avail, s, trail);
    }
    forall q, n | Named(facts, avail, s, q, n) ensures Asks(s, q, n) {
      var trail :| NameTrail(facts, avail, s, trail, n) && trail[|trail| - 1] == q;
      NameTrailAsks(facts, entries, avail, s, trail, n);
    }
  }

  lemma TrailsReach(facts: Facts, entries: set<Path>, avail: Cache, s: Walked, m: Path)
    requires ClosedUnder(facts, entries, avail, s)
    requires Rooted(facts, entries, s, m) || PassedOn(facts, avail, s, m)
    ensures m in s.reach
  {
    if Rooted(facts, entries, s, m) {
      if m !in entries {
        var p :| p in s.reach && p in facts && !IsJson(p) && m in facts[p].plain;
        assert Pulls(facts[p], s);
      }
    } else {
      var p :| Barrel(facts, s, p, m) &&
        (Demanded(facts, s, p) || exists n :: Named(facts, avail, s, p, n) && Offered(avail, m, n));
      assert Carries(facts[p], avail, p, s);
      if Demanded(facts, s, p) {
        var trail :| WholeTrail(facts, s, trail) && trail[|trail| - 1] == p;
        WholeTrailDemands(facts, entries, avail, s, trail);
      } else {
        var n :| Named(facts, avail, s, p, n) && Offered(avail, m, n);
        var trail :| NameTrail(facts, avail, s, trail, n) && trail[|trail| - 1] == p;
        NameTrailAsks(facts, entries, avail, s, trail, n);
      }
    }
  }

  // ----- Names resolve through chained barrels

  /** A star link of a barrel read as source: a `.json` file has none. */
  ghost predicate StarLink(facts: Facts, p: Path, q: Path) {
    p in facts && !IsJson(p) && q in facts[p].star
  }

  ghost predicate BarrelChain(facts: Facts, chain: seq<Path>) {
    && chain != []
    && (forall i :: 0 <= i < |chain| ==> chain[i] in facts)
    && forall i :: 0 < i < |chain| ==> StarLink(facts, chain[i - 1], chain[i])
  }

  lemma ChainTail(facts: Facts, chain: seq<Path>)
    requires BarrelChain(facts, chain) && |chain| > 1
    ensures BarrelChain(facts, chain[1..]) && StarLink(facts, chain[0], chain[1])
  {
    var rest := chain[1..];
    forall i | 0 < i < |rest| ensures StarLink(facts, rest[i - 1], rest[i]) {
      assert StarLink(facts, chain[i + 1 - 1], chain[i + 1]);
    }
    assert StarLink(facts, chain[1 - 1], chain[1]);
  }

  lemma OfferedIsOffers(facts: Facts, p: Path, n: Name)
    requires Whole(facts) && p in facts
    ensures Offered(Exports(facts), p, n) <==> Absorbing(ExportGraph(facts), p) || Offers(ExportGraph(facts), p, n)
  {
    assert Exact(ExportGraph(facts), p, Exports(facts)[p]);
  }

  /** A name declared at the end of a chain of barrels is offered by its first module. */
  lemma {:induction false} ChainOffers(facts: Facts, chain: seq<Path>, n: Name)
    requires Whole(facts) && BarrelChain(facts, chain) && n in facts[chain[|chain| - 1]].own
    ensures Absorbing(ExportGraph(facts), chain[0]) || Offers(ExportGraph(facts), chain[0], n)
    decreases |chain|
  {
    var g := ExportGraph(facts);
    var p := chain[0];
    ReachesSelf(g, p);
    ItemsOf(facts, p, p);
    if facts[p].opaqueStar {
      assert Absorbing(g, p);
    } else if |chain| == 1 {
      assert Offers(g, p, n);
    } else {
      var q := chain[1];
      ChainTail(facts, chain);
      ChainOffers(facts, chain[1..], n);
      ItemsOf(facts, p, q);
      var r :| Reaches(g, q, r) && (Absorbs(g, r) || Declares(g, r, n));
      ReachesAcross(g, p, q, r);
    }
  }

  lemma LinkResolves(facts: Facts, entries: set<Path>, s: Walked, p: Path, q: Path, n: Name)
    requires Whole(facts) && ClosedUnder(facts, entries, Exports(facts), s) && StarLink(facts, p, q)
    requires p in s.reach && Asks(s, p, n) && Offered(Exports(facts), q, n)
    ensures q in s.reach && Asks(s, q, n)
  {
    assert Carries(facts[p], Exports(facts), p, s);
  }

  /** A reached module asked for a name that a chain of barrels leads to: the module that declares
      it is reached and asked for it, and so is every module of the chain. */
  lemma {:induction false} BarrelsResolve(facts: Facts, entries: set<Path>, s: Walked, chain: seq<Path>, n: Name)
    requires Whole(facts) && ClosedUnder(facts, entries, Exports(facts), s)
    requires BarrelChain(facts, chain) && n in facts[chain[|chain| - 1]].own
    requires chain[0] in s.reach && Asks(s, chain[0], n)
    ensures forall i :: 0 <= i < |chain| ==> chain[i] in s.reach && Asks(s, chain[i], n)
    decreases |chain|
  {
    hide Whole;
    hide ClosedUnder;
    hide Exports;
    hide StarLink;
    hide Asks;
    hide Absorbing;
    hide Offers;
    hide Offered;
    if |chain| > 1 {
      var rest := chain[1..];
      ChainTail(facts, chain);
      ChainOffers(facts, rest, n);
      OfferedIsOffers(facts, rest[0], n);
      LinkResolves(facts, entries, s, chain[0], chain[1], n);
      BarrelsResolve(facts, entries, s, rest, n);
      forall i | 0 <= i < |chain| ensures chain[i] in s.reach && Asks(s, chain[i], n) {
        if i > 0 {
          assert rest[i - 1] in s.reach && Asks(s, rest[i - 1], n);
        }
      }
    }
  }
}
