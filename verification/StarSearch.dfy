/** The memoised depth-first search over `export *` edges that the orphan audit runs twice:
    for the names a module exports and for whether it emits code.

    Both searches walk a module's items in order, collect what it offers itself, descend into
    its star targets, stop at the first absorbing answer, answer "nothing" for a module that is
    still being searched, and keep every finished answer in a cache. */
module StarSearch {

  type Path = string
  type Name = string

  /** What is asked of a module, or offered by it: some names, or every exported symbol. */
  datatype Demand = Names(names: set<Name>) | Every

  /** One item of a module, in the order the search meets it. */
  datatype Item = Own(names: set<Name>) | Absorb | Star(to: Path)

  type Graph = map<Path, seq<Item>>
  type Cache = map<Path, Demand>

  datatype Found = Found(answer: Demand, cache: Cache)

  /** Every star target is a module of the graph. */
  ghost predicate Closed(g: Graph) {
    forall p, q :: p in g && Star(q) in g[p] ==> q in g
  }

  /** The answer for `p` while the modules of `stack` are being searched, and the cache after it. */
  function Search(g: Graph, p: Path, stack: set<Path>, cache: Cache): Found
    requires Closed(g) && p in g
    decreases g.Keys - stack, 0
  {
    if p in cache then Found(cache[p], cache)
    else if p in stack then Found(Names({}), cache)
    else
      assert g.Keys - (stack + {p}) < g.Keys - stack by {
        assert p in g.Keys - stack;
      }
      SearchItems(g, p, g[p], {}, stack + {p}, cache)
  }

  /** The rest of `p`'s items, `names` being what the items before them gave. */
  function SearchItems(g: Graph, p: Path, items: seq<Item>, names: set<Name>, stack: set<Path>, cache: Cache): Found
    requires Closed(g) && p in g
    requires forall item :: item in items ==> item in g[p]
    decreases g.Keys - stack, 1 + |items|
  {
    if items == [] then Found(Names(names), cache[p := Names(names)])
    else
      match items[0]
      case Own(own) => SearchItems(g, p, items[1..], names + own, stack, cache)
      case Absorb => Found(Every, cache[p := Every])
      case Star(to) =>
        assert Star(to) in g[p];
        var inherited := Search(g, to, stack, cache);
        if inherited.answer.Every? then Found(Every, inherited.cache[p := Every])
        else SearchItems(g, p, items[1..], names + inherited.answer.names, stack, inherited.cache)
  }

  // ----- The search one item at a time

  lemma SearchBegins(g: Graph, p: Path, stack: set<Path>, cache: Cache)
    requires Closed(g) && p in g
    ensures g[p][0..] == g[p]
    ensures Search(g, p, stack, cache) ==
      if p in cache then Found(cache[p], cache)
      else if p in stack then Found(Names({}), cache)
      else SearchItems(g, p, g[p][0..], {}, stack + {p}, cache)
  {
    assert g[p][0..] == g[p];
  }

  lemma NextItem(g: Graph, p: Path, i: nat, names: set<Name>, stack: set<Path>, cache: Cache)
    requires Closed(g) && p in g && i < |g[p]|
    ensures forall item :: item in g[p][i..] ==> item in g[p]
    ensures forall item :: item in g[p][i + 1..] ==> item in g[p]
    ensures g[p][i].Star? ==> g[p][i].to in g
    ensures SearchItems(g, p, g[p][i..], names, stack, cache) ==
      match g[p][i]
      case Own(own) => SearchItems(g, p, g[p][i + 1..], names + own, stack, cache)
      case Absorb => Found(Every, cache[p := Every])
      case Star(to) =>
        var inherited := Search(g, to, stack, cache);
        if inherited.answer.Every? then Found(Every, inherited.cache[p := Every])
        else SearchItems(g, p, g[p][i + 1..], names + inherited.answer.names, stack, inherited.cache)
  {
    hide Search;
    var items := g[p][i..];
    assert g[p][i] in g[p];
    assert items[0] == g[p][i] && items[1..] == g[p][i + 1..];
  }

  lemma SearchEnds(g: Graph, p: Path, names: set<Name>, stack: set<Path>, cache: Cache)
    requires Closed(g) && p in g
    ensures g[p][|g[p]|..] == []
    ensures SearchItems(g, p, g[p][|g[p]|..], names, stack, cache) == Found(Names(names), cache[p := Names(names)])
  {
  }

  // ----- What the search is meant to answer

  ghost predicate Edge(g: Graph, p: Path, q: Path) {
    p in g && Star(q) in g[p]
  }

  /** `path` follows star edges from module to module. */
  ghost predicate Chain(g: Graph, path: seq<Path>) {
    && path != []
    && (forall i :: 0 <= i < |path| ==> path[i] in g)
    && (forall i :: 0 < i < |path| ==> Edge(g, path[i - 1], path[i]))
  }

  ghost predicate Reaches(g: Graph, p: Path, q: Path) {
    exists path :: Chain(g, path) && path[0] == p && path[|path| - 1] == q
  }

  ghost predicate Declares(g: Graph, p: Path, n: Name) {
    p in g && exists own :: Own(own) in g[p] && n in own
  }

  ghost predicate Absorbs(g: Graph, p: Path) {
    p in g && Absorb in g[p]
  }

  /** A module declaring `n` is star-reachable from `p`. */
  ghost predicate Offers(g: Graph, p: Path, n: Name) {
    exists q :: Reaches(g, p, q) && Declares(g, q, n)
  }

  /** An absorbing module is star-reachable from `p`. */
  ghost predicate Absorbing(g: Graph, p: Path) {
    exists q :: Reaches(g, p, q) && Absorbs(g, q)
  }

  /** The answer claims no more than the transitive closure. */
  ghost predicate Sound(g: Graph, p: Path, answer: Demand) {
    match answer
    case Every => Absorbing(g, p)
    case Names(names) => forall n :: n in names ==> Offers(g, p, n)
  }

  /** The answer is the transitive closure. */
  ghost predicate Exact(g: Graph, p: Path, answer: Demand) {
    && Sound(g, p, answer)
    && (answer.Names? ==> !Absorbing(g, p) && forall n :: Offers(g, p, n) ==> n in answer.names)
  }

  ghost predicate SoundCache(g: Graph, cache: Cache) {
    forall p :: p in cache ==> p in g && Sound(g, p, cache[p])
  }

  ghost predicate ExactCache(g: Graph, cache: Cache) {
    forall p :: p in cache ==> p in g && Exact(g, p, cache[p])
  }

  ghost predicate Extends(before: Cache, after: Cache) {
    forall p :: p in before ==> p in after && after[p] == before[p]
  }

  // ----- Paths

  lemma ReachesSelf(g: Graph, p: Path)
    requires p in g
    ensures Reaches(g, p, p)
  {
    assert Chain(g, [p]);
  }

  lemma ReachesWithinGraph(g: Graph, p: Path, q: Path)
    requires Reaches(g, p, q)
    ensures p in g && q in g
  {
  }

  lemma ReachesAcross(g: Graph, p: Path, q: Path, r: Path)
    requires Edge(g, p, q) && Reaches(g, q, r)
    ensures Reaches(g, p, r)
  {
    var path :| Chain(g, path) && path[0] == q && path[|path| - 1] == r;
    var longer := [p] + path;
    assert Chain(g, longer);
  }

  lemma ReachesEdge(g: Graph, p: Path, q: Path)
    requires Edge(g, p, q) && q in g
    ensures Reaches(g, p, q)
  {
    ReachesSelf(g, q);
    ReachesAcross(g, p, q, q);
  }

  lemma ReachesTrans(g: Graph, p: Path, q: Path, r: Path)
    requires Reaches(g, p, q) && Reaches(g, q, r)
    ensures Reaches(g, p, r)
  {
    var a :| Chain(g, a) && a[0] == p && a[|a| - 1] == q;
    var b :| Chain(g, b) && b[0] == q && b[|b| - 1] == r;
    var c := a + b[1..];
    forall i | 0 < i < |c| ensures Edge(g, c[i - 1], c[i]) {
      if i < |a| {
      } else {
        assert c[i] == b[i - |a| + 1];
        assert c[i - 1] == b[i - |a|];
      }
    }
    assert Chain(g, c);
  }

  lemma RestOfChain(g: Graph, path: seq<Path>)
    requires Chain(g, path) && |path| > 1
    ensures Edge(g, path[0], path[1]) && Chain(g, path[1..])
  {
    var rest := path[1..];
    forall i | 0 < i < |rest| ensures Edge(g, rest[i - 1], rest[i]) {
      assert Edge(g, path[i], path[i + 1]);
    }
  }

  /** A set closed under star edges holds everything reachable from its members. */
  lemma {:induction false} ClosedSetHoldsReach(g: Graph, s: set<Path>, path: seq<Path>)
    requires Chain(g, path) && path[0] in s
    requires forall p, q :: p in s && Edge(g, p, q) ==> q in s
    ensures path[|path| - 1] in s
    decreases |path|
  {
    if |path| > 1 {
      RestOfChain(g, path);
      ClosedSetHoldsReach(g, s, path[1..]);
    }
  }

  // ----- The cache only grows, and never over a module being searched

  lemma {:induction false} SearchExtends(g: Graph, p: Path, stack: set<Path>, cache: Cache)
    requires Closed(g) && p in g && cache.Keys !! stack
    ensures Extends(cache, Search(g, p, stack, cache).cache)
    ensures Search(g, p, stack, cache).cache.Keys !! stack
    ensures p in stack || p in Search(g, p, stack, cache).cache
    decreases g.Keys - stack, 0
  {
    if p !in cache && p !in stack {
      assert p in g.Keys - stack;
      SearchItemsExtends(g, p, g[p], {}, stack + {p}, cache);
    }
  }

  lemma {:induction false} SearchItemsExtends(g: Graph, p: Path, items: seq<Item>, names: set<Name>, stack: set<Path>, cache: Cache)
    requires Closed(g) && p in g && p in stack && cache.Keys !! stack
    requires forall item :: item in items ==> item in g[p]
    ensures var after := SearchItems(g, p, items, names, stack, cache).cache;
      Extends(cache, after) && p in after && after.Keys !! (stack - {p})
    decreases g.Keys - stack, 1 + |items|
  {
    if items != [] {
      match items[0]
      case Own(own) => SearchItemsExtends(g, p, items[1..], names + own, stack, cache);
      case Absorb =>
      case Star(to) =>
        assert Star(to) in g[p];
        SearchExtends(g, to, stack, cache);
        var inherited := Search(g, to, stack, cache);
        if inherited.answer.Names? {
          SearchItemsExtends(g, p, items[1..], names + inherited.answer.names, stack, inherited.cache);
        }
    }
  }

  /** A call with nothing being searched leaves its own answer in the cache. */
  lemma {:induction false} AnswerIsCached(g: Graph, p: Path, cache: Cache)
    requires Closed(g) && p in g
    ensures var found := Search(g, p, {}, cache);
      Extends(cache, found.cache) && p in found.cache && found.cache[p] == found.answer
  {
    SearchExtends(g, p, {}, cache);
    if p !in cache {
      ItemsAnswerIsCached(g, p, g[p], {}, {p}, cache);
      assert {} + {p} == {p};
    }
  }

  lemma {:induction false} ItemsAnswerIsCached(g: Graph, p: Path, items: seq<Item>, names: set<Name>, stack: set<Path>, cache: Cache)
    requires Closed(g) && p in g
    requires forall item :: item in items ==> item in g[p]
    ensures var found := SearchItems(g, p, items, names, stack, cache);
      p in found.cache && found.cache[p] == found.answer
    decreases |items|
  {
    if items != [] {
      match items[0]
      case Own(own) => ItemsAnswerIsCached(g, p, items[1..], names + own, stack, cache);
      case Absorb =>
      case Star(to) =>
        assert Star(to) in g[p];
        var inherited := Search(g, to, stack, cache);
        if inherited.answer.Names? {
          ItemsAnswerIsCached(g, p, items[1..], names + inherited.answer.names, stack, inherited.cache);
        }
    }
  }

  // ----- Never more than the closure

  lemma OffersAcross(g: Graph, p: Path, q: Path, answer: Demand)
    requires Edge(g, p, q) && Sound(g, q, answer)
    ensures Sound(g, p, answer)
  {
    match answer
    case Every =>
      var r :| Reaches(g, q, r) && Absorbs(g, r);
      ReachesAcross(g, p, q, r);
    case Names(names) =>
      forall n | n in names ensures Offers(g, p, n) {
        var r :| Reaches(g, q, r) && Declares(g, r, n);
        ReachesAcross(g, p, q, r);
      }
  }

  /** A search over a sound cache answers soundly and leaves it sound, whatever is being searched. */
  lemma {:induction false} SearchSound(g: Graph, p: Path, stack: set<Path>, cache: Cache)
    requires Closed(g) && p in g && SoundCache(g, cache)
    ensures Sound(g, p, Search(g, p, stack, cache).answer)
    ensures SoundCache(g, Search(g, p, stack, cache).cache)
    decreases g.Keys - stack, 0
  {
    if p !in cache && p !in stack {
      assert p in g.Keys - stack;
      SearchItemsSound(g, p, g[p], {}, stack + {p}, cache);
    }
  }

  lemma {:induction false} SearchItemsSound(g: Graph, p: Path, items: seq<Item>, names: set<Name>, stack: set<Path>, cache: Cache)
    requires Closed(g) && p in g && SoundCache(g, cache)
    requires forall item :: item in items ==> item in g[p]
    requires Sound(g, p, Names(names))
    ensures Sound(g, p, SearchItems(g, p, items, names, stack, cache).answer)
    ensures SoundCache(g, SearchItems(g, p, items, names, stack, cache).cache)
    decreases g.Keys - stack, 1 + |items|
  {
    if items != [] {
      match items[0]
      case Own(own) =>
        ReachesSelf(g, p);
        assert forall n :: n in own ==> Declares(g, p, n);
        SearchItemsSound(g, p, items[1..], names + own, stack, cache);
      case Absorb =>
        ReachesSelf(g, p);
        assert Absorbs(g, p);
      case Star(to) =>
        assert Star(to) in g[p];
        SearchSound(g, to, stack, cache);
        var inherited := Search(g, to, stack, cache);
        OffersAcross(g, p, to, inherited.answer);
        if inherited.answer.Names? {
          SearchItemsSound(g, p, items[1..], names + inherited.answer.names, stack, inherited.cache);
        }
    }
  }

  // ----- A first call is exact, cycles or not

  /** What a finished module contributed: its names are in `names`, it absorbs nothing, and its
      star targets are finished or still being searched. */
  ghost predicate Gathered(g: Graph, w: Path, names: set<Name>, done: set<Path>) {
    && w in g
    && !Absorbs(g, w)
    && (forall n :: Declares(g, w, n) ==> n in names)
    && (forall q :: Edge(g, w, q) ==> q in done)
  }

  ghost predicate GatheredItems(items: seq<Item>, names: set<Name>, done: set<Path>) {
    && Absorb !in items
    && (forall own :: Own(own) in items ==> own <= names)
    && (forall q :: Star(q) in items ==> q in done)
  }

  /** Each module a search finishes has its names in the search's own answer. */
  lemma {:induction false} SearchGathers(g: Graph, p: Path, stack: set<Path>, cache: Cache)
    requires Closed(g) && p in g && cache.Keys !! stack
    ensures var found := Search(g, p, stack, cache);
      found.answer.Names? ==>
        forall w :: w in found.cache && w !in cache ==>
          Gathered(g, w, found.answer.names, found.cache.Keys + stack)
    decreases g.Keys - stack, 0
  {
    if p !in cache && p !in stack {
      assert p in g.Keys - stack;
      SearchItemsGather(g, p, [], g[p], {}, stack + {p}, cache, cache);
      SearchItemsExtends(g, p, g[p], {}, stack + {p}, cache);
      var found := Search(g, p, stack, cache);
      assert found.cache.Keys + (stack + {p}) == found.cache.Keys + stack;
    }
  }

  lemma {:induction false} SearchItemsGather(g: Graph, p: Path, before: seq<Item>, items: seq<Item>, names: set<Name>,
                                             stack: set<Path>, start: Cache, cache: Cache)
    requires Closed(g) && p in g && p in stack && cache.Keys !! stack && Extends(start, cache)
    requires before + items == g[p]
    requires GatheredItems(before, names, cache.Keys + stack)
    requires forall w :: w in cache && w !in start ==> Gathered(g, w, names, cache.Keys + stack)
    ensures forall item :: item in items ==> item in g[p]
    ensures var found := SearchItems(g, p, items, names, stack, cache);
      found.answer.Names? ==>
        forall w :: w in found.cache && w !in start ==>
          Gathered(g, w, found.answer.names, found.cache.Keys + stack)
    decreases g.Keys - stack, 1 + |items|
  {
    assert forall item :: item in items ==> item in before + items;
    if items == [] {
      assert before == g[p];
    } else {
      var next := before + [items[0]];
      assert next + items[1..] == g[p];
      match items[0]
      case Own(own) =>
        SearchItemsGather(g, p, next, items[1..], names + own, stack, start, cache);
      case Absorb =>
      case Star(to) =>
        assert Star(to) in g[p];
        SearchExtends(g, to, stack, cache);
        SearchGathers(g, to, stack, cache);
        var inherited := Search(g, to, stack, cache);
        if inherited.answer.Names? {
          SearchItemsGather(g, p, next, items[1..], names + inherited.answer.names, stack, start, inherited.cache);
        }
    }
  }

  /** A first call on an empty cache that meets nothing absorbing finishes every reachable module. */
  lemma FirstCallGathers(g: Graph, p: Path, q: Path)
    requires Closed(g) && p in g && Search(g, p, {}, map[]).answer.Names? && Reaches(g, p, q)
    ensures var found := Search(g, p, {}, map[]);
      q in found.cache && Gathered(g, q, found.answer.names, found.cache.Keys)
  {
    var found := Search(g, p, {}, map[]);
    var done := found.cache.Keys;
    SearchExtends(g, p, {}, map[]);
    SearchGathers(g, p, {}, map[]);
    assert done + {} == done;
    var path :| Chain(g, path) && path[0] == p && path[|path| - 1] == q;
    forall a, b | a in done && Edge(g, a, b) ensures b in done {
      assert Gathered(g, a, found.answer.names, done);
    }
    ClosedSetHoldsReach(g, done, path);
  }

  /** On an empty cache the first answer is the transitive closure, even over star cycles. */
  lemma FirstCallExact(g: Graph, p: Path)
    requires Closed(g) && p in g
    ensures Exact(g, p, Search(g, p, {}, map[]).answer)
  {
    var found := Search(g, p, {}, map[]);
    SearchSound(g, p, {}, map[]);
    if found.answer.Names? {
      forall q | Reaches(g, p, q) ensures Gathered(g, q, found.answer.names, found.cache.Keys) {
        FirstCallGathers(g, p, q);
      }
    }
  }

  // ----- Later calls: exact in every order if and only if no two modules reach each other

  /** No two modules re-export each other; a module may name itself. */
  ghost predicate NoCycle(g: Graph) {
    forall p, q :: Reaches(g, p, q) && Reaches(g, q, p) ==> p == q
  }

  /** A path from `p` either stays there or leaves it for good by some star edge. */
  lemma {:induction false} LeavesForGood(g: Graph, p: Path, path: seq<Path>) returns (q: Path)
    requires Chain(g, path) && path[0] == p && path[|path| - 1] != p
    ensures q != p && Edge(g, p, q) && Reaches(g, q, path[|path| - 1])
    decreases |path|
  {
    var rest := path[1..];
    RestOfChain(g, path);
    if path[1] == p {
      q := LeavesForGood(g, p, rest);
    } else {
      q := path[1];
    }
  }

  /** What `p`'s finished items gave, apart from itself, is all in `names`. */
  ghost predicate Inherited(g: Graph, p: Path, items: seq<Item>, names: set<Name>) {
    && Absorb !in items
    && (forall own :: Own(own) in items ==> own <= names)
    && (forall q :: Star(q) in items && q != p ==> Exact(g, q, Names(set n | n in names && Offers(g, q, n))))
  }

  lemma {:induction false} SearchExact(g: Graph, p: Path, stack: set<Path>, cache: Cache)
    requires Closed(g) && NoCycle(g) && p in g && ExactCache(g, cache)
    requires forall s :: s in stack ==> Reaches(g, s, p)
    ensures ExactCache(g, Search(g, p, stack, cache).cache)
    ensures p !in stack ==> Exact(g, p, Search(g, p, stack, cache).answer)
    decreases g.Keys - stack, 0
  {
    if p !in cache && p !in stack {
      assert p in g.Keys - stack;
      ReachesSelf(g, p);
      SearchItemsExact(g, p, [], g[p], {}, stack + {p}, cache);
    }
  }

  lemma {:induction false} SearchItemsExact(g: Graph, p: Path, before: seq<Item>, items: seq<Item>, names: set<Name>,
                                            stack: set<Path>, cache: Cache)
    requires Closed(g) && NoCycle(g) && p in g && ExactCache(g, cache)
    requires forall s :: s in stack ==> Reaches(g, s, p)
    requires before + items == g[p]
    requires Sound(g, p, Names(names)) && Inherited(g, p, before, names)
    ensures forall item :: item in items ==> item in g[p]
    ensures ExactCache(g, SearchItems(g, p, items, names, stack, cache).cache)
    ensures Exact(g, p, SearchItems(g, p, items, names, stack, cache).answer)
    decreases g.Keys - stack, 1 + |items|
  {
    hide Reaches;
    hide Sound;
    hide Exact;
    hide Inherited;
    hide NoCycle;
    assert forall item :: item in items ==> item in before + items;
    if items == [] {
      assert before == g[p];
      AllInheritedIsExact(g, p, names);
    } else {
      var next := before + [items[0]];
      assert next + items[1..] == g[p];
      match items[0]
      case Own(own) =>
        OwnInherited(g, p, before, own, names);
        SearchItemsExact(g, p, next, items[1..], names + own, stack, cache);
      case Absorb =>
        EveryIsExact(g, p, p);
      case Star(to) =>
        assert Star(to) in g[p];
        StackReaches(g, stack, p, to);
        SearchExact(g, to, stack, cache);
        SearchSound(g, to, stack, cache) by {
          ExactIsSound(g, cache);
        }
        var inherited := Search(g, to, stack, cache);
        if inherited.answer.Names? {
          StarInherited(g, p, before, to, names, inherited.answer);
          SearchItemsExact(g, p, next, items[1..], names + inherited.answer.names, stack, inherited.cache);
        } else {
          EveryIsExact(g, p, to);
        }
    }
  }

  lemma ExactIsSound(g: Graph, cache: Cache)
    requires ExactCache(g, cache)
    ensures SoundCache(g, cache)
  {
    forall p | p in cache ensures p in g && Sound(g, p, cache[p]) {
      assert Exact(g, p, cache[p]);
    }
  }

  /** What is being searched leads to every star target of it, and without cycles none but the module
      itself is being searched. */
  lemma StackReaches(g: Graph, stack: set<Path>, p: Path, to: Path)
    requires Closed(g) && Edge(g, p, to) && forall s :: s in stack ==> Reaches(g, s, p)
    ensures to in g && forall s :: s in stack ==> Reaches(g, s, to)
    ensures NoCycle(g) && to in stack ==> to == p
  {
    ReachesEdge(g, p, to);
    forall s | s in stack ensures Reaches(g, s, to) {
      ReachesTrans(g, s, p, to);
    }
  }

  /** Everything is exact for a module that absorbs, or that re-exports one of which it is sound. */
  lemma EveryIsExact(g: Graph, p: Path, to: Path)
    requires p in g && ((to == p && Absorb in g[p]) || (Edge(g, p, to) && Sound(g, to, Every)))
    ensures Exact(g, p, Every)
  {
    if Edge(g, p, to) && Sound(g, to, Every) {
      OffersAcross(g, p, to, Every);
    } else {
      ReachesSelf(g, p);
      assert Absorbs(g, p);
    }
  }

  lemma OwnInherited(g: Graph, p: Path, before: seq<Item>, own: set<Name>, names: set<Name>)
    requires p in g && Own(own) in g[p] && Sound(g, p, Names(names)) && Inherited(g, p, before, names)
    ensures Sound(g, p, Names(names + own)) && Inherited(g, p, before + [Own(own)], names + own)
  {
    hide Reaches;
    hide Exact;
    ReachesSelf(g, p);
    assert forall n :: n in own ==> Declares(g, p, n);
    InheritedGrows(g, p, before, names, names + own);
  }

  lemma StarInherited(g: Graph, p: Path, before: seq<Item>, to: Path, names: set<Name>, answer: Demand)
    requires Edge(g, p, to) && answer.Names? && Sound(g, to, answer) && (to != p ==> Exact(g, to, answer))
    requires Sound(g, p, Names(names)) && Inherited(g, p, before, names)
    ensures Sound(g, p, Names(names + answer.names)) && Inherited(g, p, before + [Star(to)], names + answer.names)
  {
    hide Reaches;
    OffersAcross(g, p, to, answer);
    InheritedGrows(g, p, before, names, names + answer.names);
  }

  lemma InheritedGrows(g: Graph, p: Path, items: seq<Item>, names: set<Name>, more: set<Name>)
    requires Inherited(g, p, items, names) && names <= more
    ensures Inherited(g, p, items, more)
  {
    forall q | Star(q) in items && q != p
      ensures Exact(g, q, Names(set n | n in more && Offers(g, q, n)))
    {
      assert Exact(g, q, Names(set n | n in names && Offers(g, q, n)));
    }
  }

  lemma AllInheritedIsExact(g: Graph, p: Path, names: set<Name>)
    requires p in g && Sound(g, p, Names(names)) && Inherited(g, p, g[p], names)
    ensures Exact(g, p, Names(names))
  {
    forall r | Reaches(g, p, r)
      ensures !Absorbs(g, r) && forall n :: Declares(g, r, n) ==> n in names
    {
      if r != p {
        var path :| Chain(g, path) && path[0] == p && path[|path| - 1] == r;
        var q := LeavesForGood(g, p, path);
        assert Star(q) in g[p];
        var answer := Names(set n | n in names && Offers(g, q, n));
        assert Exact(g, q, answer);
        forall n | Declares(g, r, n) ensures n in names {
          assert Offers(g, q, n);
        }
      }
    }
  }

  /** The transitive closure of every module, each as a first call answers it. */
  ghost function Closure(g: Graph): (closure: Cache)
    requires Closed(g)
    ensures closure.Keys == g.Keys && ExactCache(g, closure)
  {
    assert forall p :: p in g ==> Exact(g, p, Search(g, p, {}, map[]).answer) by {
      forall p | p in g ensures Exact(g, p, Search(g, p, {}, map[]).answer) {
        FirstCallExact(g, p);
      }
    }
    map p | p in g :: Search(g, p, {}, map[]).answer
  }

  lemma ExactIsUnique(g: Graph, p: Path, x: Demand, y: Demand)
    requires Exact(g, p, x) && Exact(g, p, y)
    ensures x == y
  {
    if x.Names? && y.Names? {
      assert x.names == y.names;
    }
  }

  /** The answers of calls made one after the other, each on the cache the last one left. */
  ghost predicate AllExact(g: Graph, order: seq<Path>, cache: Cache)
    requires Closed(g) && forall p :: p in order ==> p in g
  {
    order == [] ||
    var found := Search(g, order[0], {}, cache);
    Exact(g, order[0], found.answer) && AllExact(g, order[1..], found.cache)
  }

  lemma {:induction false} NoCycleAllExact(g: Graph, order: seq<Path>, cache: Cache)
    requires Closed(g) && NoCycle(g) && ExactCache(g, cache)
    requires forall p :: p in order ==> p in g
    ensures AllExact(g, order, cache)
    decreases |order|
  {
    if order != [] {
      SearchExact(g, order[0], {}, cache);
      NoCycleAllExact(g, order[1..], Search(g, order[0], {}, cache).cache);
    }
  }

  /** The two graphs have the same modules and star edges; what they declare may differ. */
  ghost predicate SameStars(g: Graph, h: Graph) {
    && g.Keys == h.Keys
    && forall p, q :: Edge(g, p, q) <==> Edge(h, p, q)
  }

  lemma SameStarsReach(g: Graph, h: Graph, p: Path, q: Path)
    requires SameStars(g, h) && Reaches(g, p, q)
    ensures Reaches(h, p, q)
  {
    MoreEdgesReach(g, h, p, q);
  }

  function StarsOf(items: seq<Item>): seq<Item> {
    if items == [] then []
    else if items[0].Star? then [items[0]] + StarsOf(items[1..])
    else StarsOf(items[1..])
  }

  lemma {:induction false} StarsOfKeepsStars(items: seq<Item>, item: Item)
    ensures item in StarsOf(items) <==> item.Star? && item in items
    decreases |items|
  {
    if items != [] {
      StarsOfKeepsStars(items[1..], item);
      assert items == [items[0]] + items[1..];
    }
  }

  /** `g`'s star edges, with one module alone declaring anything, and that one name. */
  function OnlyDeclares(g: Graph, a: Path, n: Name): (h: Graph) {
    map p | p in g :: [Own(if p == a then {n} else {})] + StarsOf(g[p])
  }

  lemma OnlyDeclaresItem(g: Graph, a: Path, n: Name, p: Path, item: Item)
    requires p in g
    ensures item in OnlyDeclares(g, a, n)[p] <==>
            item == Own(if p == a then {n} else {}) || (item.Star? && item in g[p])
  {
    StarsOfKeepsStars(g[p], item);
    var own := Own(if p == a then {n} else {});
    var items := OnlyDeclares(g, a, n)[p];
    assert items == [own] + StarsOf(g[p]);
    assert items[0] == own;
  }

  lemma OnlyDeclaresFacts(g: Graph, a: Path, n: Name)
    requires Closed(g) && a in g
    ensures var h := OnlyDeclares(g, a, n);
      SameStars(g, h) && Closed(h) && Declares(h, a, n) && Alone(h, a, {n})
  {
    var h := OnlyDeclares(g, a, n);
    OnlyDeclaresItem(g, a, n, a, Own({n}));
    forall p, q ensures Edge(g, p, q) <==> Edge(h, p, q) {
      if p in g {
        OnlyDeclaresItem(g, a, n, p, Star(q));
      }
    }
    forall p, q | p in h && Star(q) in h[p] ensures q in h {
      assert Edge(g, p, q);
    }
    forall p, item: Item | p in h && item in h[p]
      ensures !item.Absorb? && (item.Own? && p != a ==> item.names == {})
    {
      OnlyDeclaresItem(g, a, n, p, item);
    }
  }

  /** Nothing finished but `a` itself knows of the hidden names. */
  ghost predicate Hidden(cache: Cache, a: Path, hidden: set<Name>) {
    forall w :: w in cache && w != a ==> cache[w].Names? && cache[w].names !! hidden
  }

  /** Of the modules `a` leads to none absorbs, and none but itself declares a hidden name. */
  ghost predicate Alone(h: Graph, a: Path, hidden: set<Name>) {
    forall p, item :: p in h && item in h[p] && Reaches(h, a, p) ==>
      !item.Absorb? && (item.Own? && p != a ==> item.names !! hidden)
  }

  lemma LeadsOn(h: Graph, a: Path, p: Path, to: Path)
    requires Closed(h) && Reaches(h, a, p) && Edge(h, p, to)
    ensures to in h && Reaches(h, a, to)
  {
    ReachesEdge(h, p, to);
    ReachesTrans(h, a, p, to);
  }

  /** While `a` is being searched, nothing searched beneath it finds a name only `a` declares. */
  lemma {:induction false} SearchHides(h: Graph, a: Path, hidden: set<Name>, p: Path, stack: set<Path>, cache: Cache)
    requires Closed(h) && p in h && Alone(h, a, hidden) && Reaches(h, a, p)
    requires a in stack && a !in cache && Hidden(cache, a, hidden)
    ensures var found := Search(h, p, stack, cache);
      && found.answer.Names? && found.answer.names !! hidden
      && Hidden(found.cache, a, hidden) && a !in found.cache
    decreases h.Keys - stack, 0
  {
    hide Reaches;
    if p !in cache && p !in stack {
      assert p in h.Keys - stack;
      SearchItemsHide(h, a, hidden, p, h[p], {}, stack + {p}, cache);
    }
  }

  lemma {:induction false} SearchItemsHide(h: Graph, a: Path, hidden: set<Name>, p: Path, items: seq<Item>, names: set<Name>,
                                           stack: set<Path>, cache: Cache)
    requires Closed(h) && p in h && Alone(h, a, hidden) && Reaches(h, a, p)
    requires forall item :: item in items ==> item in h[p]
    requires a in stack && a !in cache && Hidden(cache, a, hidden) && (p != a ==> names !! hidden)
    ensures var found := SearchItems(h, p, items, names, stack, cache);
      && found.answer.Names? && Hidden(found.cache, a, hidden)
      && (p != a ==> found.answer.names !! hidden && a !in found.cache)
    decreases h.Keys - stack, 1 + |items|
  {
    hide Reaches;
    if items != [] {
      assert items[0] in h[p];
      match items[0]
      case Own(own) => SearchItemsHide(h, a, hidden, p, items[1..], names + own, stack, cache);
      case Absorb =>
      case Star(to) =>
        LeadsOn(h, a, p, to);
        SearchHides(h, a, hidden, to, stack, cache);
        var inherited := Search(h, to, stack, cache);
        SearchItemsHide(h, a, hidden, p, items[1..], names + inherited.answer.names, stack, inherited.cache);
    }
  }

  /** Two modules that re-export each other, the first of which declares a name that nothing else it leads
      to declares: once the first was searched, the cache holds an answer for the second that misses the
      name, though it offers it. */
  lemma SecondCallMisses(h: Graph, a: Path, b: Path, n: Name)
    requires Closed(h) && Alone(h, a, {n}) && Declares(h, a, n)
    requires a != b && Reaches(h, a, b) && Reaches(h, b, a)
    ensures a in h && b in h && Offers(h, b, n)
    ensures var first := Search(h, a, {}, map[]);
      b in first.cache && first.cache[b].Names? && n !in first.cache[b].names
    ensures !AllExact(h, [a, b], map[])
  {
    ReachesSelf(h, a);
    SearchItemsHide(h, a, {n}, a, h[a], {}, {a}, map[]);
    assert {} + {a} == {a};
    FirstCallGathers(h, a, b);
    assert n in {n};
    InexactThen(h, a, b);
  }

  lemma CycleBreaksSecondCall(g: Graph, a: Path, b: Path, n: Name)
    requires Closed(g) && a != b && Reaches(g, a, b) && Reaches(g, b, a)
    ensures a in g && b in g
    ensures var h := OnlyDeclares(g, a, n);
      SameStars(g, h) && Closed(h) && !AllExact(h, [a, b], map[])
  {
    var h := OnlyDeclares(g, a, n);
    OnlyDeclaresFacts(g, a, n);
    SameStarsReach(g, h, a, b);
    SameStarsReach(g, h, b, a);
    SecondCallMisses(h, a, b, n);
  }

  /** The second of two calls is answered from the cache the first left. */
  lemma InexactThen(h: Graph, a: Path, b: Path)
    requires Closed(h) && a in h && b in h
    requires var cache := Search(h, a, {}, map[]).cache; b in cache && !Exact(h, b, cache[b])
    ensures !AllExact(h, [a, b], map[])
  {
    var first := Search(h, a, {}, map[]);
    assert [a, b][1..] == [b];
    assert !AllExact(h, [b], first.cache) by {
      assert Search(h, b, {}, first.cache).answer == first.cache[b];
    }
  }

  lemma SameStarsAllExact(g: Graph, h: Graph, order: seq<Path>)
    requires Closed(h) && NoCycle(g) && SameStars(g, h) && forall p :: p in order ==> p in h
    ensures AllExact(h, order, map[])
  {
    forall p, q | Reaches(h, p, q) && Reaches(h, q, p) ensures p == q {
      SameStarsReach(h, g, p, q);
      SameStarsReach(h, g, q, p);
    }
    NoCycleAllExact(h, order, map[]);
  }

  /** Calls are exact in every order, whatever the modules declare, if and only if no two modules
      re-export each other. */
  lemma ExactIffNoCycle(g: Graph)
    requires Closed(g)
    ensures NoCycle(g) <==>
      forall h, order | Closed(h) && SameStars(g, h) && (forall p :: p in order ==> p in h) ::
        AllExact(h, order, map[])
  {
    if NoCycle(g) {
      forall h, order | Closed(h) && SameStars(g, h) && (forall p :: p in order ==> p in h)
        ensures AllExact(h, order, map[])
      {
        SameStarsAllExact(g, h, order);
      }
    } else {
      var a, b :| Reaches(g, a, b) && Reaches(g, b, a) && a != b;
      CycleBreaksSecondCall(g, a, b, "n");
    }
  }

  // ----- Where only one module absorbs, past its star edges

  /** While `a` is being searched, what it holds itself is not looked at again. */
  lemma {:induction false} SearchOff(g: Graph, h: Graph, a: Path, p: Path, stack: set<Path>, cache: Cache)
    requires Closed(g) && Closed(h) && g.Keys == h.Keys && p in g && a in stack && a !in cache
    requires forall q | q in g && q != a :: g[q] == h[q]
    ensures Search(g, p, stack, cache) == Search(h, p, stack, cache)
    ensures a !in Search(g, p, stack, cache).cache
    decreases g.Keys - stack, 0
  {
    if p !in cache && p !in stack {
      assert p in g.Keys - stack;
      SearchItemsOff(g, h, a, p, g[p], {}, stack + {p}, cache);
    }
  }

  lemma {:induction false} SearchItemsOff(g: Graph, h: Graph, a: Path, p: Path, items: seq<Item>, names: set<Name>,
                                          stack: set<Path>, cache: Cache)
    requires Closed(g) && Closed(h) && g.Keys == h.Keys && p in g && p != a && a in stack && a !in cache
    requires forall q | q in g && q != a :: g[q] == h[q]
    requires forall item :: item in items ==> item in g[p]
    ensures SearchItems(g, p, items, names, stack, cache) == SearchItems(h, p, items, names, stack, cache)
    ensures a !in SearchItems(g, p, items, names, stack, cache).cache
    decreases g.Keys - stack, 1 + |items|
  {
    if items != [] {
      assert items[0] in g[p];
      match items[0]
      case Own(own) => SearchItemsOff(g, h, a, p, items[1..], names + own, stack, cache);
      case Absorb =>
      case Star(to) =>
        assert Star(to) in g[p];
        SearchOff(g, h, a, to, stack, cache);
        var inherited := Search(g, to, stack, cache);
        if inherited.answer.Names? {
          SearchItemsOff(g, h, a, p, items[1..], names + inherited.answer.names, stack, inherited.cache);
        }
    }
  }

  /** The search of `a` with and without an item that absorbs and what comes after it: the same answers
      are cached beneath it. */
  lemma {:induction false} AbsorbsThen(g: Graph, h: Graph, a: Path, items: seq<Item>, rest: seq<Item>, names: set<Name>, cache: Cache)
    requires Closed(g) && Closed(h) && g.Keys == h.Keys && a in g && a !in cache
    requires (forall q | q in g && q != a :: g[q] == h[q])
    requires Alone(g, a, {}) && Reaches(g, a, a) && Hidden(cache, a, {})
    requires forall item :: item in items ==> item in g[a]
    requires forall item :: item in items + [Absorb] + rest ==> item in h[a]
    ensures var off, on := SearchItems(g, a, items, names, {a}, cache), SearchItems(h, a, items + [Absorb] + rest, names, {a}, cache);
      on.answer == Every && on.cache == off.cache[a := Every]
    decreases |items|
  {
    hide Reaches;
    var all := items + [Absorb] + rest;
    if items == [] {
      assert all[0] == Absorb;
    } else {
      assert items[0] in g[a] && all[0] == items[0] && all[1..] == items[1..] + [Absorb] + rest;
      match items[0]
      case Own(own) => AbsorbsThen(g, h, a, items[1..], rest, names + own, cache);
      case Star(to) =>
        LeadsOn(g, a, a, to);
        SearchOff(g, h, a, to, {a}, cache);
        SearchHides(g, a, {}, to, {a}, cache);
        var inherited := Search(g, to, {a}, cache);
        AbsorbsThen(g, h, a, items[1..], rest, names + inherited.answer.names, inherited.cache);
    }
  }

  /** The graph with the items of `a` cut short. */
  function CutShort(h: Graph, a: Path, k: nat): Graph
    requires a in h && k <= |h[a]|
  {
    h[a := h[a][..k]]
  }

  /** `a` absorbs at `k` first, past its star edges, and nothing else it leads to does. */
  ghost predicate AbsorbsAlone(h: Graph, a: Path, k: nat) {
    && a in h && k < |h[a]| && h[a][k] == Absorb && Absorb !in h[a][..k]
    && (forall item :: item in h[a][k..] ==> !item.Star?)
    && forall p :: Reaches(h, a, p) && p != a ==> !Absorbs(h, p)
  }

  lemma CutShortFacts(h: Graph, a: Path, k: nat)
    requires Closed(h) && AbsorbsAlone(h, a, k)
    ensures var g := CutShort(h, a, k);
      SameStars(g, h) && Closed(g) && Alone(g, a, {}) && h[a] == g[a] + [Absorb] + h[a][k + 1..]
  {
    var g := CutShort(h, a, k);
    assert h[a] == h[a][..k] + h[a][k..] && h[a][k..] == [Absorb] + h[a][k + 1..];
    forall p, q ensures Edge(g, p, q) <==> Edge(h, p, q) {
      if p == a {
        assert Star(q) in h[a] <==> Star(q) in h[a][..k] || Star(q) in h[a][k..];
      }
    }
    forall p, q | p in g && Star(q) in g[p] ensures q in g {
      assert Edge(g, p, q) && Edge(h, p, q);
    }
    forall p, item: Item | p in g && item in g[p] && Reaches(g, a, p)
      ensures !item.Absorb? && (item.Own? && p != a ==> item.names !! {})
    {
      SameStarsReach(g, h, a, p);
      assert p != a ==> !Absorbs(h, p);
    }
  }

  /** Two modules that re-export each other, the first of which absorbs, past its star edges, and alone of
      those it leads to: once it was searched, the cache holds an answer for the second that does not. */
  lemma SecondCallMissesAbsorb(h: Graph, a: Path, b: Path, k: nat)
    requires Closed(h) && AbsorbsAlone(h, a, k)
    requires a != b && Reaches(h, a, b) && Reaches(h, b, a)
    ensures b in h && Absorbing(h, b)
    ensures var first := Search(h, a, {}, map[]);
      first.answer == Every && b in first.cache && first.cache[b].Names?
    ensures !AllExact(h, [a, b], map[])
  {
    var g := CutShort(h, a, k);
    CutShortFacts(h, a, k);
    ReachesSelf(g, a);
    SameStarsReach(h, g, a, b);
    assert forall item :: item in g[a] + [Absorb] + h[a][k + 1..] ==> item in h[a];
    AbsorbsThen(g, h, a, g[a], h[a][k + 1..], {}, map[]);
    SearchItemsHide(g, a, {}, a, g[a], {}, {a}, map[]);
    assert {} + {a} == {a};
    FirstCallGathers(g, a, b);
    assert Absorbs(h, a);
    InexactThen(h, a, b);
  }

  // ----- What a search never comes to

  /** `h` has all that `p` leads to in `g`, as it is there. */
  ghost predicate SameFrom(g: Graph, h: Graph, p: Path) {
    forall q :: Reaches(g, p, q) ==> q in h && g[q] == h[q]
  }

  lemma SameFurther(g: Graph, h: Graph, p: Path, q: Path)
    requires SameFrom(g, h, p) && Reaches(g, p, q)
    ensures SameFrom(g, h, q)
  {
    forall r | Reaches(g, q, r) ensures r in h && g[r] == h[r] {
      ReachesTrans(g, p, q, r);
    }
  }

  lemma SameHere(g: Graph, h: Graph, p: Path)
    requires SameFrom(g, h, p) && p in g
    ensures p in h && g[p] == h[p]
    ensures forall q :: Edge(g, p, q) && q in g ==> SameFrom(g, h, q)
  {
    ReachesSelf(g, p);
    forall q | Edge(g, p, q) && q in g ensures SameFrom(g, h, q) {
      ReachesEdge(g, p, q);
      SameFurther(g, h, p, q);
    }
  }

  /** A search depends on nothing but what its module leads to. */
  lemma {:induction false} SearchSame(g: Graph, h: Graph, p: Path, stack: set<Path>, cache: Cache)
    requires Closed(g) && Closed(h) && p in g && SameFrom(g, h, p)
    ensures p in h && Search(g, p, stack, cache) == Search(h, p, stack, cache)
    decreases g.Keys - stack, 0
  {
    hide SameFrom;
    hide Reaches;
    SameHere(g, h, p);
    if p !in cache && p !in stack {
      assert p in g.Keys - stack;
      SearchItemsSame(g, h, p, g[p], {}, stack + {p}, cache);
    }
  }

  lemma {:induction false} SearchItemsSame(g: Graph, h: Graph, p: Path, items: seq<Item>, names: set<Name>,
                                           stack: set<Path>, cache: Cache)
    requires Closed(g) && Closed(h) && p in g && p in h && g[p] == h[p]
    requires forall q :: Edge(g, p, q) && q in g ==> SameFrom(g, h, q)
    requires forall item :: item in items ==> item in g[p]
    ensures SearchItems(g, p, items, names, stack, cache) == SearchItems(h, p, items, names, stack, cache)
    decreases g.Keys - stack, 1 + |items|
  {
    hide SameFrom;
    if items != [] {
      assert items[0] in g[p];
      match items[0]
      case Own(own) => SearchItemsSame(g, h, p, items[1..], names + own, stack, cache);
      case Absorb =>
      case Star(to) =>
        assert Edge(g, p, to);
        SearchSame(g, h, to, stack, cache);
        var inherited := Search(g, to, stack, cache);
        if inherited.answer.Names? {
          SearchItemsSame(g, h, p, items[1..], names + inherited.answer.names, stack, inherited.cache);
        }
    }
  }

  /** What `p` leads to is the same in both, seen from either. */
  lemma SameReach(g: Graph, h: Graph, p: Path, q: Path)
    requires Closed(g) && p in g && SameFrom(g, h, p)
    ensures Reaches(g, p, q) <==> Reaches(h, p, q)
  {
    if Reaches(g, p, q) {
      var path :| Chain(g, path) && path[0] == p && path[|path| - 1] == q;
      ChainStays(g, h, path);
    }
    if Reaches(h, p, q) {
      var path :| Chain(h, path) && path[0] == p && path[|path| - 1] == q;
      ChainBack(g, h, path);
    }
  }

  lemma {:induction false} ChainStays(g: Graph, h: Graph, path: seq<Path>)
    requires Chain(g, path) && SameFrom(g, h, path[0])
    ensures Reaches(h, path[0], path[|path| - 1])
    decreases |path|
  {
    hide SameFrom;
    SameHere(g, h, path[0]);
    ReachesSelf(h, path[0]);
    if |path| > 1 {
      RestOfChain(g, path);
      ChainStays(g, h, path[1..]);
      ReachesAcross(h, path[0], path[1], path[|path| - 1]);
    }
  }

  lemma {:induction false} ChainBack(g: Graph, h: Graph, path: seq<Path>)
    requires Closed(g) && Chain(h, path) && path[0] in g && SameFrom(g, h, path[0])
    ensures Reaches(g, path[0], path[|path| - 1])
    decreases |path|
  {
    hide SameFrom;
    SameHere(g, h, path[0]);
    ReachesSelf(g, path[0]);
    if |path| > 1 {
      RestOfChain(h, path);
      assert Edge(g, path[0], path[1]);
      ChainBack(g, h, path[1..]);
      ReachesAcross(g, path[0], path[1], path[|path| - 1]);
    }
  }

  /** An exact answer is exact in both. */
  lemma SameExact(g: Graph, h: Graph, p: Path, answer: Demand)
    requires Closed(g) && p in g && SameFrom(g, h, p) && Exact(g, p, answer)
    ensures Exact(h, p, answer)
  {
    hide Chain;
    forall q ensures Reaches(g, p, q) <==> Reaches(h, p, q) {
      SameReach(g, h, p, q);
    }
    hide Reaches;
    forall q | Reaches(g, p, q) ensures q in h && q in g && g[q] == h[q] {
      ReachesWithinGraph(g, p, q);
    }
    assert Absorbing(g, p) <==> Absorbing(h, p);
    forall n ensures Offers(g, p, n) <==> Offers(h, p, n) {
    }
  }

  lemma MoreEdgesReach(g: Graph, h: Graph, p: Path, q: Path)
    requires g.Keys <= h.Keys && (forall x, y :: Edge(g, x, y) ==> Edge(h, x, y)) && Reaches(g, p, q)
    ensures Reaches(h, p, q)
  {
    var path :| Chain(g, path) && path[0] == p && path[|path| - 1] == q;
    forall i | 0 < i < |path| ensures Edge(h, path[i - 1], path[i]) {
      assert Edge(g, path[i - 1], path[i]);
    }
    assert Chain(h, path);
  }
}
