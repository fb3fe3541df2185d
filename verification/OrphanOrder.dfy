/** What the walk depends on: the order of imports and what is added to the repository. Nothing but what is
    there, as long as no two modules re-export each other; and as soon as two do, on the order. */
module OrphanOrder {
  import opened StarSearch
  import opened OrphanWalk
  import opened OrphanPasses
  import opened OrphanTheorems

  // ----- Modules the walk does not reach

  lemma {:induction false} PullAllSame(facts: Facts, changed: Facts, v: Visit, list: seq<Path>)
    requires forall p | p in list :: p in facts && p in changed && facts[p] == changed[p]
    ensures PullAll(facts, v, list) == PullAll(changed, v, list)
    decreases |list|
  {
    if list != [] {
      PullAllSame(facts, changed, if IsJson(list[0]) then v else PullOne(facts[list[0]], v), list[1..]);
    }
  }

  /** The module is the same in both, and so are those it re-exports and all that they lead to. */
  ghost predicate SameModule(facts: Facts, changed: Facts, p: Path) {
    && p in facts && p in changed && facts[p] == changed[p]
    && forall q :: q in facts[p].star ==> SameFrom(ExportGraph(facts), ExportGraph(changed), q)
  }

  lemma CarryEdgeSame(facts: Facts, changed: Facts, v: Visit, to: Path, everything: bool, wanted: set<Name>)
    requires Whole(facts) && Whole(changed) && to in facts && SameFrom(ExportGraph(facts), ExportGraph(changed), to)
    ensures to in changed && CarryEdge(facts, v, to, everything, wanted) == CarryEdge(changed, v, to, everything, wanted)
  {
    hide SameFrom;
    hide Whole;
    ExportGraphClosed(facts);
    ExportGraphClosed(changed);
    SearchSame(ExportGraph(facts), ExportGraph(changed), to, {}, v.cache);
  }

  lemma {:induction false} CarryStarsSame(facts: Facts, changed: Facts, v: Visit, stars: seq<Path>, everything: bool, wanted: set<Name>)
    requires Whole(facts) && Whole(changed)
    requires forall q :: q in stars ==> q in facts && q in changed && SameFrom(ExportGraph(facts), ExportGraph(changed), q)
    ensures CarryStars(facts, v, stars, everything, wanted) == CarryStars(changed, v, stars, everything, wanted)
    decreases |stars|
  {
    hide SameFrom;
    hide CarryEdge;
    if stars != [] {
      CarryEdgeSame(facts, changed, v, stars[0], everything, wanted);
      CarryStarsSame(facts, changed, CarryEdge(facts, v, stars[0], everything, wanted), stars[1..], everything, wanted);
    }
  }

  lemma CarryOneSame(facts: Facts, changed: Facts, v: Visit, path: Path)
    requires Whole(facts) && Whole(changed) && SameModule(facts, changed, path)
    ensures CarryOne(facts, v, path) == CarryOne(changed, v, path)
  {
    hide SameFrom;
    hide CarryStars;
    if !IsJson(path) && (path in v.every || path in v.names) {
      var everything := path in v.every;
      CarryStarsSame(facts, changed, v, facts[path].star, everything, if everything then {} else v.names[path]);
    }
  }

  lemma {:induction false} CarryAllSame(facts: Facts, changed: Facts, v: Visit, list: seq<Path>)
    requires Whole(facts) && Whole(changed)
    requires forall p | p in list :: SameModule(facts, changed, p)
    ensures forall p | p in list :: p in facts && p in changed
    ensures CarryAll(facts, v, list) == CarryAll(changed, v, list)
    decreases |list|
  {
    assert forall p | p in list :: SameModule(facts, changed, p) && p in facts && p in changed;
    if list != [] {
      CarryOneSame(facts, changed, v, list[0]);
      CarryAllSame(facts, changed, CarryOne(facts, v, list[0]), list[1..]);
    }
  }

  /** The modules of the visit, and what they re-export, are the same in both. */
  ghost predicate SameFacts(facts: Facts, changed: Facts, order: seq<Path>) {
    forall p | p in order :: SameModule(facts, changed, p)
  }

  lemma SameFactsBefore(facts: Facts, changed: Facts, order: seq<Path>, more: seq<Path>)
    requires order <= more && SameFacts(facts, changed, more)
    ensures SameFacts(facts, changed, order)
  {
    Longer(order, more);
  }

  lemma PassSame(facts: Facts, changed: Facts, v: Visit)
    requires Sane(facts, v) && Sane(changed, v)
    requires SameFacts(facts, changed, Pass(facts, v).order)
    ensures Pass(facts, v) == Pass(changed, v)
  {
    PullAllDoes(facts, {}, v, v.order);
    var pulled := PullAll(facts, v, v.order);
    CarryAllDoes(facts, {}, pulled, pulled.order);
    SameFactsBefore(facts, changed, pulled.order, Pass(facts, v).order);
    SameFactsBefore(facts, changed, v.order, pulled.order);
    PullAllSame(facts, changed, v, v.order);
    CarryAllSame(facts, changed, pulled, pulled.order);
  }

  lemma {:induction false} FinalSame(facts: Facts, changed: Facts, v: Visit)
    requires Sane(facts, v) && Sane(changed, v)
    requires SameFacts(facts, changed, Final(facts, v).order)
    ensures Final(facts, v) == Final(changed, v)
    decreases facts.Keys - StateOf(v).reach, facts.Keys - v.every, Unasked(facts, StateOf(v))
  {
    PassDoes(facts, {}, v);
    PassDoes(changed, {}, v);
    var u := Pass(facts, v);
    if Same(StateOf(v), StateOf(u)) {
      PassSame(facts, changed, v);
    } else {
      GrowthShrinksMeasure(facts, StateOf(v), StateOf(u));
      FinalDoes(facts, {}, u);
      SameFactsBefore(facts, changed, u.order, Final(facts, u).order);
      PassSame(facts, changed, v);
      FinalSame(facts, changed, u);
    }
  }

  /** Star cycles or not, the walk is the same step by step, whatever a module imports, demands, declares or
      re-exports that it does not reach, and that nothing it reaches re-exports, however far. */
  lemma UnreachedChangeNothing(facts: Facts, changed: Facts, entries: seq<Path>)
    requires Whole(facts) && Whole(changed)
    requires forall p :: p in entries ==> p in facts && p in changed
    requires SameFacts(facts, changed, Result(facts, entries).order)
    ensures Result(facts, entries) == Result(changed, entries)
  {
    BeginSane(facts, entries);
    BeginSane(changed, entries);
    FinalSame(facts, changed, Begin(entries));
  }

  // ----- Without star cycles, more only adds

  lemma BelowBoth(s: Walked, t: Walked)
    requires Below(s, t) && Below(t, s) && Tidy(s) && Tidy(t)
    ensures Same(s, t)
  {
    forall q ensures NamesOf(s, q) == NamesOf(t, q) {
      assert forall n :: n in NamesOf(s, q) ==> Asks(t, q, n);
      assert forall n :: n in NamesOf(t, q) ==> Asks(s, q, n);
    }
  }

  /** What a walk reached and asked is reached and asked by the walk of any repository that has all of it
      and more, as long as no two modules of the larger one re-export each other. */
  lemma WalksGrow(facts: Facts, more: Facts, entries: seq<Path>, moreEntries: seq<Path>)
    requires Whole(facts) && Whole(more) && Grown(facts, more) && NoCycle(ExportGraph(more))
    requires (forall p :: p in entries ==> p in facts) && (forall p :: p in moreEntries ==> p in more)
    requires SetOf(entries) <= SetOf(moreEntries)
    ensures Below(StateOf(Result(facts, entries)), StateOf(Result(more, moreEntries)))
  {
    ResultIsLeast(facts, entries);
    ResultIsLeast(more, moreEntries);
    var u, w := Result(facts, entries), Result(more, moreEntries);
    WalkIsExact(more, SetOf(moreEntries), w.cache, StateOf(w));
    GrownClosed(facts, more, SetOf(entries), SetOf(moreEntries), StateOf(w));
    forall q, n | Offered(u.cache, q, n) ensures Offered(Exports(facts), q, n) {
      assert Exact(ExportGraph(facts), q, Exports(facts)[q]);
      assert Sound(ExportGraph(facts), q, u.cache[q]);
    }
    OffersMonotone(facts, SetOf(entries), u.cache, Exports(facts), StateOf(w));
  }

  // ----- With one, an import more or its place among the others decides

  /** Two modules that re-export each other; the first declares `n`, and nothing else it leads to declares
      `n` or has a star out of sight. */
  ghost predicate Cyclic(facts: Facts, a: Path, b: Path, n: Name) {
    && Whole(facts) && a != b && a in facts && n in facts[a].own
    && Reaches(ExportGraph(facts), a, b) && Reaches(ExportGraph(facts), b, a)
    && Alone(ExportGraph(facts), a, {n})
  }

  /** `facts` as it stands, and three modules beside it: `e`, which imports some barrels, asking `v` for `n`
      and `u` for nothing by name; `u`, which re-exports `a`; and `v`, which re-exports `b`. */
  function Beside(facts: Facts, a: Path, b: Path, n: Name, e: Path, u: Path, v: Path, imports: seq<Path>): Facts {
    map p | p in facts.Keys + {e, u, v} ::
      if p == e then ModuleFacts(imports, [], false, map q | q in imports :: Names(if q == v then {n} else {}), {})
      else if p == u then ModuleFacts([], [a], false, map[], {})
      else if p == v then ModuleFacts([], [b], false, map[], {})
      else facts[p]
  }

  /** What the imports of `e` ask of its barrels. */
  function AskedNames(imports: seq<Path>, v: Path, n: Name): map<Path, set<Name>> {
    map q | q in imports :: if q == v then {n} else {}
  }

  ghost predicate Apart(facts: Facts, e: Path, u: Path, v: Path) {
    && e !in facts && u !in facts && v !in facts && e != u && e != v && u != v
    && !IsJson(e) && !IsJson(u) && !IsJson(v)
  }

  /** `more` keeps the star edges of `facts` as they are, and re-exports no other module. */
  ghost predicate Over(facts: Facts, more: Facts) {
    && facts.Keys <= more.Keys
    && (forall p, q :: p in facts ==> (Edge(ExportGraph(facts), p, q) <==> Edge(ExportGraph(more), p, q)))
    && forall p, q :: Edge(ExportGraph(more), p, q) ==> q in facts
  }

  /** What is known of the modules beside `facts`. */
  ghost predicate IsBeside(facts: Facts, x: Facts, a: Path, b: Path, n: Name, e: Path, u: Path, v: Path, imports: seq<Path>) {
    && Whole(facts) && Apart(facts, e, u, v) && a in facts && b in facts
    && (imports == [v] || imports == [u, v] || imports == [v, u])
    && x.Keys == facts.Keys + {e, u, v}
    && x[e] == ModuleFacts(imports, [], false, map q | q in imports :: Names(if q == v then {n} else {}), {})
    && x[u] == ModuleFacts([], [a], false, map[], {}) && x[v] == ModuleFacts([], [b], false, map[], {})
    && forall p | p in facts :: x[p] == facts[p]
  }

  lemma BesideAt(facts: Facts, a: Path, b: Path, n: Name, e: Path, u: Path, v: Path, imports: seq<Path>)
    requires Whole(facts) && Apart(facts, e, u, v) && a in facts && b in facts
    requires imports == [v] || imports == [u, v] || imports == [v, u]
    ensures IsBeside(facts, Beside(facts, a, b, n, e, u, v, imports), a, b, n, e, u, v, imports)
  {
    hide Whole;
  }

  lemma BarrelsBeside(facts: Facts, x: Facts, a: Path, b: Path, n: Name, e: Path, u: Path, v: Path, imports: seq<Path>)
    requires IsBeside(facts, x, a, b, n, e, u, v, imports)
    ensures e in x && u in x && v in x && !IsJson(e) && !IsJson(u) && !IsJson(v) && e != u && e != v && u != v
    ensures x[e].star == [] && forall p | p in {e, u, v} :: x[p].own == {} && !x[p].opaqueStar
    ensures x[e].plain == imports && x[e].demands == map q | q in imports :: Names(if q == v then {n} else {})
    ensures x[u].plain == [] && x[u].demands == map[] && x[u].star == [a]
    ensures x[v].plain == [] && x[v].demands == map[] && x[v].star == [b]
  {
  }

  lemma OldBeside(facts: Facts, x: Facts, a: Path, b: Path, n: Name, e: Path, u: Path, v: Path, imports: seq<Path>)
    requires IsBeside(facts, x, a, b, n, e, u, v, imports)
    ensures Whole(facts) && x.Keys == facts.Keys + {e, u, v} && a in facts && b in facts && forall q :: q in imports ==> q in {u, v}
    ensures forall p | p in facts :: x[p] == facts[p]
  {
  }

  lemma BesideIsWhole(facts: Facts, x: Facts, a: Path, b: Path, n: Name, e: Path, u: Path, v: Path, imports: seq<Path>)
    requires IsBeside(facts, x, a, b, n, e, u, v, imports)
    ensures Whole(x) && Closed(ExportGraph(x)) && {e, u, v, a, b} <= x.Keys
  {
    hide IsBeside;
    OldBeside(facts, x, a, b, n, e, u, v, imports);
    BarrelsBeside(facts, x, a, b, n, e, u, v, imports);
    forall p | p in x
      ensures (forall q :: q in x[p].plain ==> q in x) && (forall q :: q in x[p].star ==> q in x)
      ensures x[p].demands.Keys <= x.Keys
    {
      if p !in facts {
        assert p == e || p == u || p == v;
        assert forall q :: q in x[p].star ==> q == a || q == b;
      }
    }
    ExportGraphClosed(x);
  }

  lemma BesideIsOver(facts: Facts, x: Facts, a: Path, b: Path, n: Name, e: Path, u: Path, v: Path, imports: seq<Path>)
    requires IsBeside(facts, x, a, b, n, e, u, v, imports)
    ensures Over(facts, x)
  {
    hide IsBeside;
    hide Whole;
    hide ExportGraph;
    hide Edge;
    OldBeside(facts, x, a, b, n, e, u, v, imports);
    BarrelsBeside(facts, x, a, b, n, e, u, v, imports);
    var g, h := ExportGraph(facts), ExportGraph(x);
    forall p, q ensures p in facts ==> (Edge(g, p, q) <==> Edge(h, p, q)) {
      EdgesKept(facts, x, p, q);
    }
    forall p, q | Edge(h, p, q) ensures q in facts {
      EdgesKept(facts, x, p, q);
    }
  }

  lemma EdgesKept(facts: Facts, x: Facts, p: Path, q: Path)
    requires Whole(facts) && forall p | p in facts :: p in x && x[p] == facts[p]
    requires forall p, q | p in x && p !in facts && q in x[p].star :: q in facts
    ensures p in facts ==> (Edge(ExportGraph(facts), p, q) <==> Edge(ExportGraph(x), p, q))
    ensures Edge(ExportGraph(x), p, q) ==> q in facts
  {
    hide ExportItems;
    if p in facts {
      ItemsOf(facts, p, q);
    }
    if p in x {
      ItemsOf(x, p, q);
    }
  }

  lemma AloneAt(g: Graph, a: Path, hidden: set<Name>, p: Path, item: Item)
    requires Alone(g, a, hidden) && p in g && item in g[p] && Reaches(g, a, p)
    ensures !item.Absorb?
  {
  }

  lemma AbsorbsNothing(g: Graph, a: Path, hidden: set<Name>)
    requires a in g && Alone(g, a, hidden)
    ensures !Absorbs(g, a)
  {
    ReachesSelf(g, a);
    if Absorb in g[a] {
      AloneAt(g, a, hidden, a, Absorb);
    }
  }

  /** What `a` leads to is the same with the modules beside it. */
  lemma AloneBeside(facts: Facts, x: Facts, a: Path, n: Name)
    requires Over(facts, x) && a in facts && forall p | p in facts :: p in x && x[p] == facts[p]
    requires Alone(ExportGraph(facts), a, {n}) && n in facts[a].own
    ensures Alone(ExportGraph(x), a, {n}) && Declares(ExportGraph(x), a, n)
  {
    hide Over;
    hide ExportItems;
    var g, h := ExportGraph(facts), ExportGraph(x);
    forall p, item: Item | p in h && item in h[p] && Reaches(h, a, p)
      ensures !item.Absorb? && (item.Own? && p != a ==> item.names !! {n})
    {
      ReachesWithin(facts, x, a, p);
      ReachesWithinGraph(g, a, p);
      assert h[p] == g[p];
    }
    AbsorbsNothing(g, a, {n});
    ItemsOf(facts, a, a);
    ItemsOf(x, a, a);
  }

  /** The first pass of `e` over its imports: they are reached in order, and asked. */
  lemma FirstPull(facts: Facts, x: Facts, a: Path, b: Path, n: Name, e: Path, u: Path, v: Path, imports: seq<Path>)
    requires IsBeside(facts, x, a, b, n, e, u, v, imports)
    ensures e in x && Begin([e]) == Visit([e], map[], {}, map[])
    ensures PullAll(x, Begin([e]), [e]) ==
      Visit([e] + imports, AskedNames(imports, v, n), {}, map[])
  {
    assert [e][1..] == [] && AddedAll([], [e]) == [e];
    AddsImports(e, u, v, imports);
    var begin := Begin([e]);
    var pulled := PullOne(x[e], begin);
    PulledNames(x[e], begin, n, v, imports);
    assert PullAll(x, begin, [e]) == PullAll(x, pulled, []);
  }

  lemma AddsImports(e: Path, u: Path, v: Path, imports: seq<Path>)
    requires e != u && e != v && u != v && (imports == [v] || imports == [u, v] || imports == [v, u])
    ensures AddedAll([e], imports) == [e] + imports
  {
    var first := [e] + [imports[0]];
    assert Added([e], imports[0]) == first;
    if |imports| == 2 {
      assert imports[1..] == [imports[1]] && imports[1..][1..] == [];
      assert Added(first, imports[1]) == [e] + imports;
      assert AddedAll(first, imports[1..]) == AddedAll(Added(first, imports[1]), []);
    } else {
      assert imports[1..] == [];
      assert first == [e] + imports;
    }
  }

  lemma PulledNames(f: ModuleFacts, begin: Visit, n: Name, v: Path, imports: seq<Path>)
    requires f.demands == map q | q in imports :: Names(if q == v then {n} else {})
    requires begin.names == map[] && begin.every == {}
    ensures PullOne(f, begin).names == AskedNames(imports, v, n) && PullOne(f, begin).every == {}
    ensures PullOne(f, begin).cache == begin.cache && PullOne(f, begin).order == AddedAll(begin.order, f.plain)
  {
    var s := WithDemands(StateOf(begin), f.demands);
    assert s.every == {};
    forall q | q in imports ensures AskedOf(StateOf(begin), f.demands, q) == if q == v then {n} else {} {
      var asked: set<Name> := if q == v then {n} else {};
      assert {} + asked == asked;
    }
  }

  /** A barrel asked only for names its target does not offer carries nothing. */
  lemma CarriesNothing(x: Facts, w: Visit, barrel: Path, target: Path, wanted: set<Name>)
    requires Whole(x) && barrel in x && target in x && !IsJson(barrel) && x[barrel].star == [target]
    requires barrel !in w.every && barrel in w.names && w.names[barrel] == wanted
    requires Closed(ExportGraph(x))
    requires Matched(false, wanted, Search(ExportGraph(x), target, {}, w.cache).answer) == Names({})
    ensures CarryOne(x, w, barrel) == w.(cache := Search(ExportGraph(x), target, {}, w.cache).cache)
  {
    assert [target][1..] == [];
    assert CarryStars(x, w, [target], false, wanted) == CarryEdge(x, w, target, false, wanted);
  }

  /** Looked up first through `u`, `a` leaves an answer for `b` that misses what `a` declares, and `b` is never
      reached. */
  lemma LookedUpBehind(facts: Facts, x: Facts, a: Path, b: Path, n: Name, e: Path, u: Path, v: Path)
    requires IsBeside(facts, x, a, b, n, e, u, v, [u, v]) && Cyclic(facts, a, b, n)
    ensures Whole(x) && e in x && Result(x, [e]).order == [e, u, v]
  {
    hide IsBeside;
    hide Cyclic;
    hide Search;
    hide AskedNames;
    hide Reaches;
    hide Alone;
    hide ExportGraph;
    hide PullAll;
    hide CarryAll;
    hide Sane;
    BesideIsWhole(facts, x, a, b, n, e, u, v, [u, v]);
    FirstPull(facts, x, a, b, n, e, u, v, [u, v]);
    CycleBeside(facts, x, a, b, n, e, u, v, [u, v]);
    var h := ExportGraph(x);
    SecondCallMisses(h, a, b, n);
    AnswerIsCached(h, a, map[]);
    var cache := Search(h, a, {}, map[]).cache;
    var w := Visit([e, u, v], AskedNames([u, v], v, n), {}, map[]);
    assert [e] + [u, v] == [e, u, v];
    var end := w.(cache := cache);
    SettledAt(facts, x, e, u, v, a, b, n, w, cache);
    SettledAt(facts, x, e, u, v, a, b, n, end, cache);
    BeginSane(x, [e]);
    PullsNothingMore(facts, x, e, u, v, a, b, n, end);
    FinalAfterTwo(x, Begin([e]), w, end);
  }

  lemma CycleBeside(facts: Facts, x: Facts, a: Path, b: Path, n: Name, e: Path, u: Path, v: Path, imports: seq<Path>)
    requires IsBeside(facts, x, a, b, n, e, u, v, imports) && Cyclic(facts, a, b, n)
    ensures a != b && Reaches(ExportGraph(x), a, b) && Reaches(ExportGraph(x), b, a)
    ensures Alone(ExportGraph(x), a, {n}) && Declares(ExportGraph(x), a, n)
  {
    hide IsBeside;
    hide Whole;
    hide ExportGraph;
    hide Reaches;
    hide Alone;
    OldBeside(facts, x, a, b, n, e, u, v, imports);
    BesideIsOver(facts, x, a, b, n, e, u, v, imports);
    AloneBeside(facts, x, a, n);
    OverReach(facts, x, a, b);
    OverReach(facts, x, b, a);
  }

  /** The second pass changes nothing: the walk ends with what the first left. */
  lemma FinalAfterTwo(x: Facts, v: Visit, pulled: Visit, end: Visit)
    requires Sane(x, v) && (forall p :: p in v.order + pulled.order + end.order ==> p in x)
    requires PullAll(x, v, v.order) == pulled && CarryAll(x, pulled, pulled.order) == end
    requires PullAll(x, end, end.order) == end && CarryAll(x, end, end.order) == end
    ensures Final(x, v) == end
  {
    PassDoes(x, {}, v);
    assert Pass(x, v) == end;
    if !Same(StateOf(v), StateOf(end)) {
      GrowthShrinksMeasure(x, StateOf(v), StateOf(end));
      assert Pass(x, end) == end && Same(StateOf(end), StateOf(end));
    }
  }

  lemma BothInFacts(facts: Facts, a: Path, b: Path)
    requires Reaches(ExportGraph(facts), a, b)
    ensures a in facts && b in facts
  {
    var path :| Chain(ExportGraph(facts), path) && path[0] == a && path[|path| - 1] == b;
  }

  lemma OverReach(facts: Facts, more: Facts, p: Path, q: Path)
    requires Over(facts, more) && Reaches(ExportGraph(facts), p, q)
    ensures Reaches(ExportGraph(more), p, q)
  {
    var g, h := ExportGraph(facts), ExportGraph(more);
    assert g.Keys == facts.Keys && h.Keys == more.Keys;
    MoreEdgesReach(g, h, p, q);
  }

  /** Once the modules are in this order, the second pass only fills the cache. */
  lemma SettledAt(facts: Facts, x: Facts, e: Path, u: Path, v: Path, a: Path, b: Path, n: Name, w: Visit, cache: Cache)
    requires IsBeside(facts, x, a, b, n, e, u, v, [u, v])
    requires Whole(x) && Closed(ExportGraph(x)) && {e, u, v, a, b} <= x.Keys
    requires w.order == [e, u, v] && w.every == {} && w.names == AskedNames([u, v], v, n)
    requires cache == Search(ExportGraph(x), a, {}, map[]).cache && (w.cache == map[] || w.cache == cache)
    requires a in cache && b in cache && cache[b].Names? && n !in cache[b].names
    ensures CarryAll(x, w, [e, u, v]) == w.(cache := cache)
  {
    hide IsBeside;
    hide IsJson;
    hide ExportGraph;
    hide Whole;
    hide CarryOne;
    hide Alone;
    BarrelsBeside(facts, x, a, b, n, e, u, v, [u, v]);
    ExportGraphClosed(x);
    AskedAt(e, u, v, n);
    var h := ExportGraph(x);
    var end := w.(cache := cache);
    NotAsked(x, w, e);
    NothingMatched(Search(h, a, {}, w.cache).answer);
    SearchCached(h, a, w.cache, cache);
    CarriesNothing(x, w, u, a, {});
    NoneMatched(n, cache[b]);
    SearchCached(h, b, cache, cache);
    CarriesNothing(x, end, v, b, {n});
    AllThree(x, w, end, e, u, v);
  }

  lemma AskedAt(e: Path, u: Path, v: Path, n: Name)
    requires e != u && e != v && u != v
    ensures var names := AskedNames([u, v], v, n); names.Keys == {u, v} && names[u] == {} && names[v] == {n}
  {
  }

  lemma NotAsked(x: Facts, w: Visit, p: Path)
    requires Whole(x) && p in x && p !in w.every && p !in w.names
    ensures CarryOne(x, w, p) == w
  {
  }

  /** A second lookup answers from the cache of the first. */
  lemma SearchCached(h: Graph, p: Path, before: Cache, cache: Cache)
    requires Closed(h) && p in h && p in cache
    requires before == cache || (before == map[] && cache == Search(h, p, {}, map[]).cache)
    ensures Search(h, p, {}, before).cache == cache && (before == cache ==> Search(h, p, {}, before).answer == cache[p])
  {
  }

  lemma AllThree(x: Facts, w: Visit, end: Visit, e: Path, u: Path, v: Path)
    requires Whole(x) && e in x && u in x && v in x
    requires CarryOne(x, w, e) == w && CarryOne(x, w, u) == end && CarryOne(x, end, v) == end
    ensures CarryAll(x, w, [e, u, v]) == end
  {
    hide CarryOne;
    hide Whole;
    assert [e, u, v][1..] == [u, v] && [u, v][1..] == [v] && [v][1..] == [];
    assert CarryAll(x, w, [e, u, v]) == CarryAll(x, w, [u, v]);
    assert CarryAll(x, w, [u, v]) == CarryAll(x, end, [v]);
    assert CarryAll(x, end, [v]) == CarryAll(x, end, []);
  }

  lemma NoneMatched(n: Name, answer: Demand)
    requires answer.Names? && n !in answer.names
    ensures Matched(false, {n}, answer) == Names({})
  {
  }

  lemma NothingMatched(answer: Demand)
    ensures Matched(false, {}, answer) == Names({})
  {
    var names: set<Name> := {};
    assert Matched(false, names, answer).names == {};
  }

  lemma PullsNothingMore(facts: Facts, x: Facts, e: Path, u: Path, v: Path, a: Path, b: Path, n: Name, w: Visit)
    requires IsBeside(facts, x, a, b, n, e, u, v, [u, v])
    requires w.order == [e, u, v] && w.every == {} && w.names == AskedNames([u, v], v, n)
    ensures e in x && u in x && v in x && PullAll(x, w, w.order) == w
  {
    hide IsBeside;
    hide PullOne;
    hide AskedNames;
    BarrelsBeside(facts, x, a, b, n, e, u, v, [u, v]);
    EntryPullsNothingMore(x[e], u, v, n, w);
    BarrelPullsNothing(x[u], w);
    BarrelPullsNothing(x[v], w);
    assert [e, u, v][1..] == [u, v] && [u, v][1..] == [v] && [v][1..] == [];
    assert PullAll(x, w, [e, u, v]) == PullAll(x, w, [u, v]);
    assert PullAll(x, w, [u, v]) == PullAll(x, w, [v]);
    assert PullAll(x, w, [v]) == PullAll(x, w, []);
  }

  lemma EntryPullsNothingMore(f: ModuleFacts, u: Path, v: Path, n: Name, w: Visit)
    requires f.plain == [u, v] && f.demands == map q | q in [u, v] :: Names(if q == v then {n} else {})
    requires u in w.order && v in w.order && w.every == {} && w.names == AskedNames([u, v], v, n)
    ensures PullOne(f, w) == w
  {
    assert [u, v][1..] == [v] && [v][1..] == [];
    assert Added(w.order, u) == w.order && Added(w.order, v) == w.order;
    assert AddedAll(w.order, [u, v]) == AddedAll(w.order, [v]) == AddedAll(w.order, []);
    var s := WithDemands(StateOf(w), f.demands);
    assert s.every == {};
    forall q | q in w.names ensures AskedOf(StateOf(w), f.demands, q) == w.names[q] {
      assert w.names[q] + w.names[q] == w.names[q];
    }
    assert s.names == w.names;
  }

  lemma BarrelPullsNothing(f: ModuleFacts, w: Visit)
    requires f.plain == [] && f.demands == map[] && w.every == {}
    ensures PullOne(f, w) == w
  {
    NoDemands(StateOf(w));
  }

  /** Looked up first, through `v`, `b` is found to offer what `a` declares, and it is reached. */
  lemma LookedUpFirst(facts: Facts, x: Facts, a: Path, b: Path, n: Name, e: Path, u: Path, v: Path, imports: seq<Path>)
    requires IsBeside(facts, x, a, b, n, e, u, v, imports) && Cyclic(facts, a, b, n) && (imports == [v] || imports == [v, u])
    ensures Whole(x) && e in x && b in Result(x, [e]).order
  {
    hide IsBeside;
    hide Cyclic;
    hide IsJson;
    hide Search;
    hide Reaches;
    hide Alone;
    hide Exact;
    hide Sane;
    BesideIsWhole(facts, x, a, b, n, e, u, v, imports);
    FirstPull(facts, x, a, b, n, e, u, v, imports);
    CycleBeside(facts, x, a, b, n, e, u, v, imports);
    BarrelsBeside(facts, x, a, b, n, e, u, v, imports);
    var h := ExportGraph(x);
    SecondCallMisses(h, a, b, n);
    FirstCallExact(h, b);
    AllMatched(h, b, n, Search(h, b, {}, map[]).answer);
    var begin, rest := Begin([e]), imports[1..];
    var w := PullAll(x, begin, [e]);
    BeginSane(x, [e]);
    PullAllDoes(x, {}, begin, [e]);
    assert [e] + imports == [e, v] + rest;
    assert CarryOne(x, w, e) == w;
    var next := CarryOne(x, w, v);
    CarriesName(x, w, v, b, n);
    FirstPassReaches(x, begin, w, next, e, v, rest, b);
  }

  lemma AllMatched(h: Graph, b: Path, n: Name, answer: Demand)
    requires Exact(h, b, answer) && Offers(h, b, n)
    ensures Matched(false, {n}, answer) == Names({n})
  {
  }

  /** A barrel asked for a name its target offers reaches the target. */
  lemma CarriesName(x: Facts, w: Visit, barrel: Path, target: Path, n: Name)
    requires Whole(x) && barrel in x && target in x && !IsJson(barrel) && x[barrel].star == [target]
    requires barrel !in w.every && barrel in w.names && w.names[barrel] == {n}
    requires Closed(ExportGraph(x))
    requires Matched(false, {n}, Search(ExportGraph(x), target, {}, w.cache).answer) == Names({n})
    ensures target in CarryOne(x, w, barrel).order
  {
    assert [target][1..] == [];
    assert CarryStars(x, w, [target], false, {n}) == CarryEdge(x, w, target, false, {n});
  }

  lemma FirstPassReaches(x: Facts, begin: Visit, w: Visit, next: Visit, e: Path, v: Path, rest: seq<Path>, b: Path)
    requires Sane(x, begin) && Whole(x) && begin.order == [e] && e in x && v in x && w == PullAll(x, begin, [e])
    requires w.order == [e, v] + rest && CarryOne(x, w, e) == w && CarryOne(x, w, v) == next && b in next.order
    ensures b in Final(x, begin).order
  {
    hide Sane;
    hide Whole;
    hide CarryOne;
    hide PullOne;
    hide Onward;
    hide Forced;
    hide Extends;
    hide Same;
    PullAllDoes(x, {}, begin, [e]);
    OrderInFacts(x, w);
    var list := w.order;
    assert list[1..] == [v] + rest && list[1..][1..] == rest;
    CarryOneDoes(x, {}, w, v);
    Longer(w.order, next.order);
    assert forall p :: p in rest ==> p in list;
    CarryAllDoes(x, {}, next, rest);
    assert CarryAll(x, w, list) == CarryAll(x, next, rest);
    Longer(next.order, CarryAll(x, next, rest).order);
    FinalFrom(x, begin);
    Longer(Pass(x, begin).order, Final(x, begin).order);
  }

  lemma FinalFrom(x: Facts, v: Visit)
    requires Sane(x, v)
    ensures Pass(x, v).order <= Final(x, v).order
  {
    PassDoes(x, {}, v);
    var u := Pass(x, v);
    if !Same(StateOf(v), StateOf(u)) {
      GrowthShrinksMeasure(x, StateOf(v), StateOf(u));
      FinalDoes(x, {}, u);
    }
  }

  // ----- Order and additions matter exactly where two modules re-export each other

  /** No cycle comes of modules that nobody re-exports. */
  lemma OverNoCycle(facts: Facts, more: Facts)
    requires Whole(facts) && Over(facts, more) && NoCycle(ExportGraph(facts))
    ensures NoCycle(ExportGraph(more))
  {
    var g, h := ExportGraph(facts), ExportGraph(more);
    forall p, q | Reaches(h, p, q) && Reaches(h, q, p) ensures p == q {
      if p != q {
        EndsInFacts(facts, more, p, q);
        EndsInFacts(facts, more, q, p);
        ReachesWithin(facts, more, p, q);
        ReachesWithin(facts, more, q, p);
      }
    }
  }

  lemma EndsInFacts(facts: Facts, more: Facts, p: Path, q: Path)
    requires Over(facts, more) && Reaches(ExportGraph(more), p, q) && p != q
    ensures q in facts
  {
    var h := ExportGraph(more);
    var path :| Chain(h, path) && path[0] == p && path[|path| - 1] == q;
    assert Edge(h, path[|path| - 2], path[|path| - 1]);
  }

  lemma ReachesWithin(facts: Facts, more: Facts, p: Path, q: Path)
    requires Over(facts, more) && Reaches(ExportGraph(more), p, q) && p in facts
    ensures Reaches(ExportGraph(facts), p, q)
  {
    var g, h := ExportGraph(facts), ExportGraph(more);
    var path :| Chain(h, path) && path[0] == p && path[|path| - 1] == q;
    forall i | 0 <= i < |path| ensures path[i] in g && (i > 0 ==> Edge(g, path[i - 1], path[i])) {
      if i > 0 {
        assert Edge(h, path[i - 1], path[i]);
        if i > 1 {
          assert Edge(h, path[i - 2], path[i - 1]);
        }
      }
    }
    assert Chain(g, path);
  }

  /** The same modules with the same imports, in whatever order they are written. */
  ghost predicate Reordered(facts: Facts, other: Facts) {
    && facts.Keys == other.Keys
    && forall p | p in facts ::
         && multiset(facts[p].plain) == multiset(other[p].plain) && multiset(facts[p].star) == multiset(other[p].star)
         && facts[p].opaqueStar == other[p].opaqueStar && facts[p].demands == other[p].demands && facts[p].own == other[p].own
  }

  lemma ReorderedGrown(facts: Facts, other: Facts)
    requires Reordered(facts, other)
    ensures Grown(facts, other) && Grown(other, facts)
  {
    forall p, q | p in facts
      ensures (q in facts[p].plain <==> q in other[p].plain) && (q in facts[p].star <==> q in other[p].star)
    {
      assert q in facts[p].plain <==> q in multiset(facts[p].plain);
      assert q in other[p].plain <==> q in multiset(other[p].plain);
      assert q in facts[p].star <==> q in multiset(facts[p].star);
      assert q in other[p].star <==> q in multiset(other[p].star);
    }
  }

  ghost predicate Enters(facts: Facts, entries: seq<Path>) {
    Whole(facts) && forall p :: p in entries ==> p in facts
  }

  /** Whatever modules have these star edges, and others beside them, the order of imports and entries
      changes nothing of the walk's result. */
  ghost predicate OrderIsNothing(facts: Facts) {
    forall x, y, some, others | Over(facts, x) && Over(facts, y) && Reordered(x, y)
                                && Enters(x, some) && Enters(y, others) && SetOf(some) == SetOf(others) ::
      Same(StateOf(Result(x, some)), StateOf(Result(y, others)))
  }

  /** Whatever modules have these star edges, and others beside them, more entries, imports, demands and
      names only add to the walk's result. */
  ghost predicate MoreOnlyAdds(facts: Facts) {
    forall x, y, some, others | Over(facts, x) && Over(facts, y) && Grown(x, y)
                                && Enters(x, some) && Enters(y, others) && SetOf(some) <= SetOf(others) ::
      Below(StateOf(Result(x, some)), StateOf(Result(y, others)))
  }

  lemma NoCycleMoreOnlyAdds(facts: Facts)
    requires Whole(facts) && NoCycle(ExportGraph(facts))
    ensures MoreOnlyAdds(facts)
  {
    forall x, y, some, others | Over(facts, x) && Over(facts, y) && Grown(x, y)
                                && Enters(x, some) && Enters(y, others) && SetOf(some) <= SetOf(others)
      ensures Below(StateOf(Result(x, some)), StateOf(Result(y, others)))
    {
      OverNoCycle(facts, y);
      WalksGrow(x, y, some, others);
    }
  }

  lemma NoCycleOrderIsNothing(facts: Facts)
    requires Whole(facts) && NoCycle(ExportGraph(facts))
    ensures OrderIsNothing(facts)
  {
    forall x, y, some, others | Over(facts, x) && Over(facts, y) && Reordered(x, y)
                                && Enters(x, some) && Enters(y, others) && SetOf(some) == SetOf(others)
      ensures Same(StateOf(Result(x, some)), StateOf(Result(y, others)))
    {
      OverNoCycle(facts, x);
      OverNoCycle(facts, y);
      ReorderedGrown(x, y);
      WalksGrow(x, y, some, others);
      WalksGrow(y, x, others, some);
      ResultIsLeast(x, some);
      ResultIsLeast(y, others);
      BelowBoth(StateOf(Result(x, some)), StateOf(Result(y, others)));
    }
  }

  lemma {:induction false} LongerThanAll(keys: set<Path>) returns (n: nat)
    ensures forall p | p in keys :: |p| < n
    decreases |keys|
  {
    if keys == {} {
      n := 0;
    } else {
      var p :| p in keys;
      var m := LongerThanAll(keys - {p});
      n := if |p| < m then m else |p| + 1;
      forall q | q in keys ensures |q| < n {
        assert q != p ==> q in keys - {p};
      }
    }
  }

  lemma NewPath(keys: set<Path>) returns (p: Path)
    ensures p !in keys && !IsJson(p)
  {
    var n := LongerThanAll(keys);
    p := seq(n + 1, _ => 'm');
    assert |p| == n + 1;
    if |p| >= 5 {
      assert p[|p| - 5..][0] == 'm' && ".json"[0] == '.';
    }
  }

  lemma PathsApart(facts: Facts) returns (e: Path, u: Path, v: Path)
    ensures Apart(facts, e, u, v)
  {
    e := NewPath(facts.Keys);
    u := NewPath(facts.Keys + {e});
    v := NewPath(facts.Keys + {e, u});
  }

  /** Two modules as they stand that re-export each other, `n` declared by the first alone of all it leads
      to; and an added entry that imports a barrel over each, asking the second's for `n`. Which import comes
      first decides whether the second module is alive; and without the one over the first, it is alive,
      which adding that import undoes. */
  lemma ImportsDecide(facts: Facts, a: Path, b: Path, n: Name, e: Path, u: Path, v: Path)
    requires Cyclic(facts, a, b, n) && Apart(facts, e, u, v)
    ensures var x, y, z := Beside(facts, a, b, n, e, u, v, [u, v]), Beside(facts, a, b, n, e, u, v, [v, u]),
                           Beside(facts, a, b, n, e, u, v, [v]);
      && (forall p | p in facts :: p in x && p in y && p in z && x[p] == y[p] == z[p] == facts[p])
      && Over(facts, x) && Over(facts, y) && Over(facts, z) && Reordered(x, y) && Grown(z, x)
      && Enters(x, [e]) && Enters(y, [e]) && Enters(z, [e])
      && b !in StateOf(Result(x, [e])).reach && b in StateOf(Result(y, [e])).reach && b in StateOf(Result(z, [e])).reach
  {
    hide Beside;
    hide IsBeside;
    hide Reordered;
    hide Grown;
    hide Over;
    hide Reaches;
    hide Apart;
    hide Alone;
    BothInFacts(facts, a, b);
    var x := Beside(facts, a, b, n, e, u, v, [u, v]);
    var y := Beside(facts, a, b, n, e, u, v, [v, u]);
    var z := Beside(facts, a, b, n, e, u, v, [v]);
    BesideAt(facts, a, b, n, e, u, v, [u, v]);
    BesideAt(facts, a, b, n, e, u, v, [v, u]);
    BesideAt(facts, a, b, n, e, u, v, [v]);
    OldBeside(facts, x, a, b, n, e, u, v, [u, v]);
    OldBeside(facts, y, a, b, n, e, u, v, [v, u]);
    OldBeside(facts, z, a, b, n, e, u, v, [v]);
    ImportsSwapped(facts, x, y, a, b, n, e, u, v);
    ImportAdded(facts, z, x, a, b, n, e, u, v);
    BesideIsOver(facts, x, a, b, n, e, u, v, [u, v]);
    BesideIsOver(facts, y, a, b, n, e, u, v, [v, u]);
    BesideIsOver(facts, z, a, b, n, e, u, v, [v]);
    LookedUpBehind(facts, x, a, b, n, e, u, v);
    LookedUpFirst(facts, y, a, b, n, e, u, v, [v, u]);
    LookedUpFirst(facts, z, a, b, n, e, u, v, [v]);
    NotAmong(facts, a, b, e, u, v);
  }

  lemma NotAmong(facts: Facts, a: Path, b: Path, e: Path, u: Path, v: Path)
    requires Apart(facts, e, u, v) && b in facts
    ensures b !in [e, u, v]
  {
  }

  lemma SameButEntry(facts: Facts, x: Facts, y: Facts, a: Path, b: Path, n: Name, e: Path, u: Path, v: Path,
                     some: seq<Path>, others: seq<Path>)
    requires IsBeside(facts, x, a, b, n, e, u, v, some) && IsBeside(facts, y, a, b, n, e, u, v, others)
    ensures x.Keys == y.Keys && e in x && forall p | p in x && p != e :: x[p] == y[p]
    ensures x[e] == ModuleFacts(some, [], false, map q | q in some :: Names(if q == v then {n} else {}), {})
    ensures y[e] == ModuleFacts(others, [], false, map q | q in others :: Names(if q == v then {n} else {}), {})
  {
  }

  lemma ImportsSwapped(facts: Facts, x: Facts, y: Facts, a: Path, b: Path, n: Name, e: Path, u: Path, v: Path)
    requires IsBeside(facts, x, a, b, n, e, u, v, [u, v]) && IsBeside(facts, y, a, b, n, e, u, v, [v, u])
    ensures Reordered(x, y)
  {
    hide IsBeside;
    SameButEntry(facts, x, y, a, b, n, e, u, v, [u, v], [v, u]);
    assert x[e].demands == y[e].demands;
    assert multiset([u, v]) == multiset([v, u]);
  }

  lemma ImportAdded(facts: Facts, z: Facts, x: Facts, a: Path, b: Path, n: Name, e: Path, u: Path, v: Path)
    requires IsBeside(facts, z, a, b, n, e, u, v, [v]) && IsBeside(facts, x, a, b, n, e, u, v, [u, v])
    ensures Grown(z, x)
  {
    hide IsBeside;
    SameButEntry(facts, z, x, a, b, n, e, u, v, [v], [u, v]);
    forall p | p in z && p != e ensures x[p] == z[p] {
    }
  }

  // ----- Star edges alone

  /** The star edges of `facts`, one module alone declaring anything, and that one name. */
  function Bare(facts: Facts, a: Path, n: Name): Facts {
    map p | p in facts ::
      ModuleFacts([], if facts[p].opaqueStar then [] else facts[p].star, false, map[], if p == a then {n} else {})
  }

  lemma BareEdge(facts: Facts, a: Path, n: Name, p: Path, q: Path)
    requires Whole(facts)
    ensures Edge(ExportGraph(facts), p, q) <==> Edge(ExportGraph(Bare(facts, a, n)), p, q)
    ensures Edge(ExportGraph(facts), p, q) ==> q in facts
  {
    hide ExportItems;
    if p in facts {
      ItemsOf(facts, p, q);
      ItemsOf(Bare(facts, a, n), p, q);
    }
  }

  lemma BareIsOver(facts: Facts, a: Path, n: Name)
    requires Whole(facts)
    ensures Over(facts, Bare(facts, a, n)) && Bare(facts, a, n).Keys == facts.Keys && Whole(Bare(facts, a, n))
  {
    var bare := Bare(facts, a, n);
    forall p, q
      ensures Edge(ExportGraph(facts), p, q) <==> Edge(ExportGraph(bare), p, q)
      ensures Edge(ExportGraph(bare), p, q) ==> q in facts
    {
      BareEdge(facts, a, n, p, q);
    }
  }

  /** Two modules that re-export each other, with their star edges alone. */
  lemma BareIsCyclic(facts: Facts, a: Path, b: Path, n: Name)
    requires Whole(facts) && a != b && Reaches(ExportGraph(facts), a, b) && Reaches(ExportGraph(facts), b, a)
    ensures Cyclic(Bare(facts, a, n), a, b, n)
  {
    hide ExportItems;
    hide Over;
    var bare := Bare(facts, a, n);
    BareIsOver(facts, a, n);
    BothInFacts(facts, a, b);
    OverReach(facts, bare, a, b);
    OverReach(facts, bare, b, a);
    forall p, item: Item | p in ExportGraph(bare) && item in ExportGraph(bare)[p]
      ensures !item.Absorb? && (item.Own? && p != a ==> item.names !! {n})
    {
      ItemIn(bare[p], item);
    }
  }

  lemma OverBare(facts: Facts, a: Path, n: Name, x: Facts)
    requires Whole(facts) && Over(Bare(facts, a, n), x)
    ensures Over(facts, x)
  {
    BareIsOver(facts, a, n);
  }

  /** Over the star edges of two modules that re-export each other, imports that decide. */
  lemma StarsDecide(facts: Facts) returns (x: Facts, y: Facts, z: Facts, e: Path, b: Path)
    requires Whole(facts) && !NoCycle(ExportGraph(facts))
    ensures Over(facts, x) && Over(facts, y) && Over(facts, z) && Reordered(x, y) && Grown(z, x)
    ensures Enters(x, [e]) && Enters(y, [e]) && Enters(z, [e])
    ensures b !in StateOf(Result(x, [e])).reach && b in StateOf(Result(y, [e])).reach && b in StateOf(Result(z, [e])).reach
  {
    var n: Name := "n";
    var a, second :| Reaches(ExportGraph(facts), a, second) && Reaches(ExportGraph(facts), second, a) && a != second;
    b := second;
    var bare := Bare(facts, a, n);
    BareIsCyclic(facts, a, b, n);
    var u, v;
    e, u, v := PathsApart(bare);
    hide Beside;
    hide Bare;
    hide Over;
    hide Cyclic;
    ImportsDecide(bare, a, b, n, e, u, v);
    x, y := Beside(bare, a, b, n, e, u, v, [u, v]), Beside(bare, a, b, n, e, u, v, [v, u]);
    z := Beside(bare, a, b, n, e, u, v, [v]);
    OverBare(facts, a, n, x);
    OverBare(facts, a, n, y);
    OverBare(facts, a, n, z);
  }

  /** Of star edges: no two modules re-export each other if and only if, whatever else modules with these
      star edges and others beside them declare, import and demand, the order of imports is nothing. */
  lemma OrderIsNothingIffNoCycle(facts: Facts)
    requires Whole(facts)
    ensures NoCycle(ExportGraph(facts)) <==> OrderIsNothing(facts)
  {
    if NoCycle(ExportGraph(facts)) {
      NoCycleOrderIsNothing(facts);
    } else {
      var x, y, _, e, _ := StarsDecide(facts);
      assert !Same(StateOf(Result(x, [e])), StateOf(Result(y, [e])));
    }
  }

  /** Of star edges: no two modules re-export each other if and only if, whatever else modules with these
      star edges and others beside them declare, import and demand, more of it only adds. */
  lemma MoreOnlyAddsIffNoCycle(facts: Facts)
    requires Whole(facts)
    ensures NoCycle(ExportGraph(facts)) <==> MoreOnlyAdds(facts)
  {
    if NoCycle(ExportGraph(facts)) {
      NoCycleMoreOnlyAdds(facts);
    } else {
      var x, _, z, e, _ := StarsDecide(facts);
      assert !Below(StateOf(Result(z, [e])), StateOf(Result(x, [e])));
    }
  }
}
