/** Which modules the audit reports: those that emit code and that the walk does not reach. */
module OrphanGate {
  import opened StarSearch
  import opened OrphanWalk
  import opened OrphanPasses
  import opened OrphanTheorems
  import opened OrphanAudit
  import opened OrphanDerivation

  datatype ExportClause = NoClause | NamespaceClause | NamedExports(allTypeOnly: bool)

  /** Where an export's specifier leads: nowhere, out of the audited sources or to a `.json` file,
      or to a module. */
  datatype Target = NoSpecifier | Elsewhere | Module(path: Path)

  /** A top-level statement, as far as the emptiness check tells statements apart. */
  datatype Statement =
    | Ambient
    | InterfaceDeclaration
    | TypeAliasDeclaration
    | ClassDeclaration
    | EnumDeclaration
    | VariableStatement
    | ExpressionStatement
    | ModuleDeclaration
    | FunctionDeclaration(hasBody: bool)
    | ImportDeclaration(hasClause: bool)
    | ExportDeclaration(typeOnly: bool, clause: ExportClause, target: Target)
    | ExportAssignment
    | OtherStatement

  type Sources = map<Path, seq<Statement>>

  /** What one statement adds to the search for code: nothing, code, or another module's code. */
  function ItemOf(statement: Statement): Item {
    match statement
    case Ambient | InterfaceDeclaration | TypeAliasDeclaration => Own({})
    case FunctionDeclaration(hasBody) => if hasBody then Absorb else Own({})
    case ImportDeclaration(hasClause) => if hasClause then Own({}) else Absorb
    case ExportDeclaration(typeOnly, clause, target) =>
      if typeOnly then Own({})
      else if clause.NamedExports? then (if clause.allTypeOnly then Own({}) else Absorb)
      else if target.Module? then Star(target.path)
      else Absorb
    case _ => Absorb
  }

  function ItemsOfStatements(statements: seq<Statement>): (items: seq<Item>)
    ensures |items| == |statements| && forall i :: 0 <= i < |items| ==> items[i] == ItemOf(statements[i])
  {
    seq(|statements|, i requires 0 <= i < |statements| => ItemOf(statements[i]))
  }

  function CodeGraph(sources: Sources): Graph {
    map p | p in sources :: ItemsOfStatements(sources[p])
  }

  // ----- What emits, said of the statements

  /** `export * from` another audited module, under a name of its own or not. */
  ghost predicate IsReExport(statement: Statement) {
    statement.ExportDeclaration? && !statement.typeOnly && !statement.clause.NamedExports? && statement.target.Module?
  }

  ghost predicate ReExports(statement: Statement, q: Path) {
    IsReExport(statement) && statement.target.path == q
  }

  /** Nothing of the statement is left once its types are gone: it is ambient or a type's, a function with no
      body, an import of some names, or an export of types alone. */
  ghost predicate Erased(statement: Statement) {
    || statement.Ambient? || statement.InterfaceDeclaration? || statement.TypeAliasDeclaration?
    || (statement.FunctionDeclaration? && !statement.hasBody)
    || (statement.ImportDeclaration? && statement.hasClause)
    || (statement.ExportDeclaration? && statement.typeOnly)
    || (statement.ExportDeclaration? && statement.clause.NamedExports? && statement.clause.allTypeOnly)
  }

  ghost predicate EmitsItself(sources: Sources, p: Path) {
    p in sources && exists i :: 0 <= i < |sources[p]| && !Erased(sources[p][i]) && !IsReExport(sources[p][i])
  }

  ghost predicate ReExportsTo(sources: Sources, p: Path, q: Path) {
    p in sources && exists i :: 0 <= i < |sources[p]| && ReExports(sources[p][i], q)
  }

  /** Each module of the chain re-exports the next. */
  ghost predicate ReExportChain(sources: Sources, chain: seq<Path>) {
    && chain != [] && (forall i :: 0 <= i < |chain| ==> chain[i] in sources)
    && forall i :: 0 < i < |chain| ==> ReExportsTo(sources, chain[i - 1], chain[i])
  }

  /** The module, or one that a chain of `export *` leads to, holds a statement that is emitted. */
  ghost predicate EmitsCode(sources: Sources, p: Path) {
    exists chain :: ReExportChain(sources, chain) && chain[0] == p && EmitsItself(sources, chain[|chain| - 1])
  }

  lemma ItemSays(statement: Statement, q: Path)
    ensures ItemOf(statement) == Absorb <==> !Erased(statement) && !IsReExport(statement)
    ensures ItemOf(statement) == Star(q) <==> ReExports(statement, q)
  {
  }

  lemma GraphSays(sources: Sources, p: Path, q: Path)
    requires p in sources
    ensures Absorbs(CodeGraph(sources), p) <==> EmitsItself(sources, p)
    ensures Edge(CodeGraph(sources), p, q) <==> ReExportsTo(sources, p, q)
  {
    hide ItemOf;
    hide IsReExport;
    hide Erased;
    var statements, items := sources[p], ItemsOfStatements(sources[p]);
    forall i | 0 <= i < |items|
      ensures items[i] == Absorb <==> !Erased(statements[i]) && !IsReExport(statements[i])
      ensures items[i] == Star(q) <==> ReExports(statements[i], q)
    {
      ItemSays(statements[i], q);
    }
  }

  lemma ChainSays(sources: Sources, chain: seq<Path>)
    ensures ReExportChain(sources, chain) <==> Chain(CodeGraph(sources), chain)
  {
    forall i | 0 < i < |chain| && chain[i - 1] in sources
      ensures Edge(CodeGraph(sources), chain[i - 1], chain[i]) <==> ReExportsTo(sources, chain[i - 1], chain[i])
    {
      GraphSays(sources, chain[i - 1], chain[i]);
    }
    hide ReExportsTo;
    hide Edge;
  }

  /** What the check searches its graph for is what the statements say. */
  lemma EmitsIffAbsorbing(sources: Sources, p: Path)
    ensures EmitsCode(sources, p) <==> Absorbing(CodeGraph(sources), p)
  {
    var g := CodeGraph(sources);
    if EmitsCode(sources, p) {
      var chain :| ReExportChain(sources, chain) && chain[0] == p && EmitsItself(sources, chain[|chain| - 1]);
      ChainSays(sources, chain);
      var end := chain[|chain| - 1];
      GraphSays(sources, end, end);
      assert Reaches(g, p, end) && Absorbs(g, end);
    }
    if Absorbing(g, p) {
      var end :| Reaches(g, p, end) && Absorbs(g, end);
      var chain :| Chain(g, chain) && chain[0] == p && chain[|chain| - 1] == end;
      ChainSays(sources, chain);
      GraphSays(sources, end, end);
    }
  }

  function Answer(emits: bool): Demand {
    if emits then Every else Names({})
  }

  function Answers(cache: map<Path, bool>): Cache {
    map p | p in cache :: Answer(cache[p])
  }

  /** Emptiness is all that is asked: no statement gives a name, and none is ever gathered. */
  lemma NothingGathered(statement: Statement)
    ensures ItemOf(statement).Own? ==> ItemOf(statement).names == {}
    ensures forall names: set<Name> :: {} + names == names
  {
  }

  lemma AnswersNow(cache: map<Path, bool>, path: Path, emits: bool)
    ensures Answers(cache[path := emits]) == Answers(cache)[path := Answer(emits)]
  {
  }

  class RuntimeCheck {
    const sources: Sources
    var runtimeCache: map<Path, bool>
    var stack: set<Path>

    ghost predicate Valid()
      reads this
    {
      && Closed(CodeGraph(sources)) && stack == {}
      && SoundCache(CodeGraph(sources), Answers(runtimeCache))
      && (NoCycle(CodeGraph(sources)) ==> ExactCache(CodeGraph(sources), Answers(runtimeCache)))
    }

    constructor (sources: Sources)
      requires Closed(CodeGraph(sources))
      ensures Valid() && this.sources == sources && runtimeCache == map[]
    {
      this.sources := sources;
      runtimeCache := map[];
      stack := {};
    }

    /** The recursive search, `stack` holding the modules under way. */
    method Emits(path: Path) returns (emits: bool)
      requires Closed(CodeGraph(sources)) && path in sources && stack <= sources.Keys
      modifies this
      ensures stack == old(stack)
      ensures Found(Answer(emits), Answers(runtimeCache)) ==
        Search(CodeGraph(sources), path, old(stack), old(Answers(runtimeCache)))
      decreases sources.Keys - stack
    {
      hide Search;
      hide SearchItems;
      hide ItemOf;
      ghost var g := CodeGraph(sources);
      SearchBegins(g, path, stack, Answers(runtimeCache));
      if path in runtimeCache {
        return runtimeCache[path];
      }
      if path in stack {
        return false;
      }
      assert path in sources.Keys - stack;
      var statements := sources[path];
      stack := stack + {path};
      emits := false;
      var i := 0;
      while i < |statements| && !emits
        invariant 0 <= i <= |statements| == |g[path]| && stack == old(stack) + {path}
        invariant forall item :: item in g[path][i..] ==> item in g[path]
        invariant Search(g, path, old(stack), old(Answers(runtimeCache))) ==
          if emits then Found(Every, Answers(runtimeCache)[path := Every])
          else SearchItems(g, path, g[path][i..], {}, stack, Answers(runtimeCache))
      {
        NothingGathered(statements[i]);
        NextItem(g, path, i, {}, stack, Answers(runtimeCache));
        match ItemOf(statements[i]) {
          case Own(_) =>
          case Absorb =>
            emits := true;
          case Star(to) =>
            emits := Emits(to);
        }
        i := i + 1;
      }
      SearchEnds(g, path, {}, stack, Answers(runtimeCache));
      stack := stack - {path};
      AnswersNow(runtimeCache, path, emits);
      runtimeCache := runtimeCache[path := emits];
    }

    /** True only when the module emits code; exactly when, on a first call and wherever no two
        modules re-export each other. */
    method HasRuntimeCode(path: Path) returns (emits: bool)
      requires Valid() && path in sources
      modifies this
      ensures Valid()
      ensures Found(Answer(emits), Answers(runtimeCache)) ==
        Search(CodeGraph(sources), path, {}, old(Answers(runtimeCache)))
      ensures emits ==> EmitsCode(sources, path)
      ensures EmitsCode(sources, path) && (old(runtimeCache) == map[] || NoCycle(CodeGraph(sources))) ==> emits
    {
      ghost var g := CodeGraph(sources);
      SearchSound(g, path, {}, Answers(runtimeCache));
      if NoCycle(g) {
        SearchExact(g, path, {}, Answers(runtimeCache));
      }
      FirstCallExact(g, path);
      EmitsIffAbsorbing(sources, path);
      hide EmitsCode;
      ghost var empty := Answers(map[]);
      assert empty == map[];
      emits := Emits(path);
    }
  }

  // ----- When the check is exact

  function StarStatements(items: seq<Item>): seq<Statement> {
    if items == [] then []
    else (if items[0].Star? then [ExportDeclaration(false, NoClause, Module(items[0].to))] else []) + StarStatements(items[1..])
  }

  /** The star edges of the sources, and one module alone with a class, written below them. */
  function OnlyEmits(sources: Sources, a: Path): Sources {
    map p | p in sources ::
      StarStatements(CodeGraph(sources)[p]) + if p == a then [ClassDeclaration] else []
  }

  lemma {:induction false} StarStatementsItems(items: seq<Item>)
    ensures ItemsOfStatements(StarStatements(items)) == StarsOf(items)
    decreases |items|
  {
    if items != [] {
      StarStatementsItems(items[1..]);
      var first := if items[0].Star? then [ExportDeclaration(false, NoClause, Module(items[0].to))] else [];
      ItemsAppend(first, StarStatements(items[1..]));
      assert items[0].Star? ==> ItemsOfStatements(first) == [items[0]];
    }
  }

  lemma ItemsAppend(a: seq<Statement>, b: seq<Statement>)
    ensures ItemsOfStatements(a + b) == ItemsOfStatements(a) + ItemsOfStatements(b)
  {
  }

  lemma OnlyEmitsItems(sources: Sources, a: Path)
    ensures var g, h := CodeGraph(sources), CodeGraph(OnlyEmits(sources, a));
      && g.Keys == h.Keys && forall p | p in g :: h[p] == StarsOf(g[p]) + if p == a then [Absorb] else []
  {
    var g, h := CodeGraph(sources), CodeGraph(OnlyEmits(sources, a));
    forall p | p in g ensures h[p] == StarsOf(g[p]) + if p == a then [Absorb] else [] {
      StarStatementsItems(g[p]);
      ItemsAppend(StarStatements(g[p]), if p == a then [ClassDeclaration] else []);
      assert ItemsOfStatements([ClassDeclaration]) == [Absorb];
    }
  }

  /** The class is the one statement that emits, and it comes below the star edges of its module. */
  lemma OnlyEmitsAlone(g: Graph, h: Graph, a: Path)
    requires Closed(g) && g.Keys == h.Keys && a in g
    requires forall p | p in g :: h[p] == StarsOf(g[p]) + if p == a then [Absorb] else []
    ensures SameStars(g, h) && Closed(h) && AbsorbsAlone(h, a, |StarsOf(g[a])|)
  {
    var k := |StarsOf(g[a])|;
    assert h[a][..k] == StarsOf(g[a]) && h[a][k..] == [Absorb];
    StarsOfKeepsStars(g[a], Absorb);
    forall p, q ensures Edge(g, p, q) <==> Edge(h, p, q) {
      if p in g {
        StarsOfKeepsStars(g[p], Star(q));
      }
    }
    forall p, q | p in h && Star(q) in h[p] ensures q in h {
      assert Edge(h, p, q);
      assert Edge(g, p, q);
    }
    forall p | p != a ensures !Absorbs(h, p) {
      if p in g {
        StarsOfKeepsStars(g[p], Absorb);
      }
    }
  }

  /** Calls of the check are exact in every order, whatever the modules emit besides their `export *`, if
      and only if no two modules re-export each other. */
  lemma CheckExactIffNoCycle(sources: Sources)
    requires Closed(CodeGraph(sources))
    ensures NoCycle(CodeGraph(sources)) <==>
      forall others: Sources, order | Closed(CodeGraph(others)) && SameStars(CodeGraph(sources), CodeGraph(others))
                                      && (forall p :: p in order ==> p in CodeGraph(others)) ::
        AllExact(CodeGraph(others), order, map[])
  {
    hide CodeGraph;
    hide OnlyEmits;
    hide Reaches;
    hide EmitsCode;
    hide AbsorbsAlone;
    var g := CodeGraph(sources);
    if NoCycle(g) {
      forall others: Sources, order | Closed(CodeGraph(others)) && SameStars(g, CodeGraph(others))
                                      && (forall p :: p in order ==> p in CodeGraph(others))
        ensures AllExact(CodeGraph(others), order, map[])
      {
        SameStarsAllExact(g, CodeGraph(others), order);
      }
    } else {
      var a, b :| Reaches(g, a, b) && Reaches(g, b, a) && a != b;
      OnlyEmitsGraph(sources, a, b);
      EmittingBreaksSecondCall(OnlyEmits(sources, a), a, b, |StarsOf(g[a])|);
    }
  }

  lemma OnlyEmitsGraph(sources: Sources, a: Path, b: Path)
    requires Closed(CodeGraph(sources)) && a != b
    requires Reaches(CodeGraph(sources), a, b) && Reaches(CodeGraph(sources), b, a)
    ensures var g, h := CodeGraph(sources), CodeGraph(OnlyEmits(sources, a));
      && a in g && SameStars(g, h) && Closed(h) && AbsorbsAlone(h, a, |StarsOf(g[a])|)
      && Reaches(h, a, b) && Reaches(h, b, a) && forall p :: p in [a, b] ==> p in h
  {
    hide CodeGraph;
    hide OnlyEmits;
    hide Reaches;
    hide StarsOf;
    var g, h := CodeGraph(sources), CodeGraph(OnlyEmits(sources, a));
    ReachesWithinGraph(g, a, b);
    OnlyEmitsItems(sources, a);
    OnlyEmitsAlone(g, h, a);
    SameStarsReach(g, h, a, b);
    SameStarsReach(g, h, b, a);
  }

  /** Two modules as they stand that re-export each other, of which one emits code: by its statement `k`
      first, past its re-exports, and alone of the modules it leads to. The second of two calls misses it. */
  lemma EmittingBreaksSecondCall(sources: Sources, a: Path, b: Path, k: nat)
    requires Closed(CodeGraph(sources)) && a != b
    requires Reaches(CodeGraph(sources), a, b) && Reaches(CodeGraph(sources), b, a)
    requires AbsorbsAlone(CodeGraph(sources), a, k)
    ensures a in sources && b in sources
    ensures EmitsCode(sources, b) && !AllExact(CodeGraph(sources), [a, b], map[])
    ensures var first := Search(CodeGraph(sources), a, {}, map[]);
      first.answer == Every && Search(CodeGraph(sources), b, {}, first.cache).answer != Every
  {
    hide AllExact;
    hide Reaches;
    SecondCallMissesAbsorb(CodeGraph(sources), a, b, k);
    EmitsIffAbsorbing(sources, b);
  }

  // ----- The report

  /** The production modules, in order, that emit code and are not reached. */
  ghost function Dead(sources: Sources, production: seq<Path>, reached: set<Path>): seq<Path> {
    if production == [] then []
    else
      (if !IsJson(production[0]) && EmitsCode(sources, production[0]) && production[0] !in reached then [production[0]] else [])
      + Dead(sources, production[1..], reached)
  }

  /** What the gate reports of the modules the walk did not reach: never one that emits nothing; and
      exactly those that emit code, in their order, where no two modules re-export each other. */
  method Unreachable(production: seq<Path>, check: RuntimeCheck, reached: set<Path>) returns (orphans: seq<Path>)
    requires check.Valid() && forall p :: p in production ==> p in check.sources
    modifies check
    ensures check.Valid()
    ensures forall p :: p in orphans ==> p in production && !IsJson(p) && p !in reached && EmitsCode(check.sources, p)
    ensures NoCycle(CodeGraph(check.sources)) ==> orphans == Dead(check.sources, production, reached)
  {
    hide Search;
    hide EmitsCode;
    hide NoCycle;
    orphans := [];
    assert production[0..] == production;
    for i := 0 to |production|
      invariant check.Valid()
      invariant forall p :: p in orphans ==> p in production && !IsJson(p) && p !in reached && EmitsCode(check.sources, p)
      invariant NoCycle(CodeGraph(check.sources)) ==>
        orphans + Dead(check.sources, production[i..], reached) == Dead(check.sources, production, reached)
    {
      var path := production[i];
      assert production[i..][0] == path && production[i..][1..] == production[i + 1..];
      if !IsJson(path) {
        var emits := check.HasRuntimeCode(path);
        if emits && path !in reached {
          orphans := orphans + [path];
        }
      }
    }
  }

  /** Shipping code leads to the module: a derivation from the entry points reaches it, each name passed
      on by a barrel being one that the target exports. */
  ghost predicate Alive(facts: Facts, entries: seq<Path>, m: Path)
    requires Whole(facts)
  {
    Derivable(facts, SetOf(entries), Exports(facts), Reached(m))
  }

  /** The production modules, in order, that emit code and that nothing leads to. */
  ghost function Orphans(facts: Facts, sources: Sources, entries: seq<Path>, production: seq<Path>): seq<Path>
    requires Whole(facts)
  {
    if production == [] then []
    else
      (if !IsJson(production[0]) && EmitsCode(sources, production[0]) && !Alive(facts, entries, production[0])
       then [production[0]] else [])
      + Orphans(facts, sources, entries, production[1..])
  }

  lemma {:induction false} DeadAreOrphans(facts: Facts, sources: Sources, entries: seq<Path>, production: seq<Path>, reached: set<Path>)
    requires Whole(facts) && forall m :: m in reached <==> Alive(facts, entries, m)
    ensures Dead(sources, production, reached) == Orphans(facts, sources, entries, production)
    decreases |production|
  {
    if production != [] {
      DeadAreOrphans(facts, sources, entries, production[1..], reached);
    }
  }

  /** The whole gate, where no two modules re-export each other: it reports, in order, exactly the
      production modules that emit code and that no shipping code leads to. */
  method Audit(facts: Facts, sources: Sources, entries: seq<Path>, production: seq<Path>) returns (orphans: seq<Path>)
    requires Whole(facts) && (forall p :: p in entries ==> p in facts) && NoCycle(ExportGraph(facts))
    requires Closed(CodeGraph(sources)) && NoCycle(CodeGraph(sources))
    requires forall p :: p in production ==> p in sources
    ensures orphans == Orphans(facts, sources, entries, production)
  {
    var walk := WalkFrom(facts, entries);
    ResultIsLeast(facts, entries);
    WalkIsExact(facts, SetOf(entries), walk.exportsCache, walk.State());
    ReachedIffDerivable(facts, SetOf(entries), Exports(facts), walk.State());
    var check := new RuntimeCheck(sources);
    ghost var reached := SetOf(walk.runtimeReachable);
    orphans := Unreachable(production, check, set p | p in walk.runtimeReachable);
    DeadAreOrphans(facts, sources, entries, production, reached);
  }
}
