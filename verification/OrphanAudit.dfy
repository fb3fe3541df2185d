/** The orphan-module audit as the script runs it: three collections updated in place until a pass
    over the reached modules changes nothing. */
module OrphanAudit {
  import opened StarSearch
  import opened OrphanWalk
  import opened OrphanPasses

  lemma AllToMake(demands: map<Path, Demand>)
    ensures demands - demands.Keys == map[] && demands - {} == demands
  {
  }

  lemma SaneIsTidy(facts: Facts, v: Visit)
    requires Sane(facts, v)
    ensures Tidy(StateOf(v)) && Bounded(facts, StateOf(v))
  {
  }

  /** What is asked does not depend on what is reached. */
  lemma DemandsAside(s: Walked, t: Walked, demands: map<Path, Demand>)
    requires s.names == t.names && s.every == t.every
    ensures WithDemands(s, demands).names == WithDemands(t, demands).names
    ensures WithDemands(s, demands).every == WithDemands(t, demands).every
    ensures WithDemands(t, demands).reach == t.reach
  {
    assert forall q :: AskedOf(s, demands, q) == AskedOf(t, demands, q);
  }

  lemma OneMoreMade(demands: map<Path, Demand>, rest: set<Path>, to: Path)
    requires to in rest && rest <= demands.Keys
    ensures to !in demands - rest
    ensures demands - (rest - {to}) == (demands - rest)[to := demands[to]]
  {
    assert (demands - (rest - {to})).Keys == (demands - rest)[to := demands[to]].Keys;
  }

  class ModuleWalk {
    const facts: Facts

    /** The modules reached, in the order in which they were. */
    var runtimeReachable: seq<Path>
    var demandedNames: map<Path, set<Name>>
    var demandedEverything: set<Path>
    var exportsCache: Cache
    /** The modules whose exports are being searched. */
    var stack: set<Path>

    ghost function Now(): Visit
      reads this`runtimeReachable, this`demandedNames, this`demandedEverything, this`exportsCache
    {
      Visit(runtimeReachable, demandedNames, demandedEverything, exportsCache)
    }

    ghost function State(): Walked
      reads this`runtimeReachable, this`demandedNames, this`demandedEverything, this`exportsCache
    {
      StateOf(Now())
    }

    constructor (facts: Facts, entries: seq<Path>)
      requires Whole(facts) && forall p :: p in entries ==> p in facts
      ensures this.facts == facts && Now() == Begin(entries) && Sane(facts, Now())
    {
      this.facts := facts;
      runtimeReachable, demandedNames, demandedEverything := AddedAll([], entries), map[], {};
      exportsCache, stack := map[], {};
      new;
      BeginSane(facts, entries);
    }

    /** The recursive search for a module's exports. One that meets everything stops where it is, its
        modules left on a stack that no caller looks at again. */
    method ExportedNames(path: Path) returns (answer: Demand)
      requires Whole(facts) && path in facts && stack <= facts.Keys
      modifies this`exportsCache, this`stack
      ensures Closed(ExportGraph(facts))
      ensures Found(answer, exportsCache) == Search(ExportGraph(facts), path, old(stack), old(exportsCache))
      ensures answer.Names? ==> stack == old(stack)
      decreases facts.Keys - stack
    {
      hide Search;
      hide SearchItems;
      hide Whole;
      ghost var g := ExportGraph(facts);
      ExportGraphClosed(facts);
      SearchBegins(g, path, stack, exportsCache);
      if path in exportsCache {
        return exportsCache[path];
      }
      if path in stack {
        return Names({});
      }
      assert path in facts.Keys - stack;
      stack := stack + {path};
      var current := facts[path];
      NextItem(g, path, 0, {}, stack, exportsCache);
      if current.opaqueStar {
        exportsCache := exportsCache[path := Every];
        return Every;
      }
      var names := current.own;
      var i := 0;
      assert {} + current.own == current.own;
      while i < |current.star|
        invariant 0 <= i <= |current.star| == |g[path]| - 1 && stack == old(stack) + {path}
        invariant forall item :: item in g[path][i + 1..] ==> item in g[path]
        invariant SearchItems(g, path, g[path][i + 1..], names, stack, exportsCache) ==
          Search(g, path, old(stack), old(exportsCache))
      {
        NextItem(g, path, i + 1, names, stack, exportsCache);
        var star := current.star[i];
        var inherited := ExportedNames(star);
        if inherited.Every? {
          exportsCache := exportsCache[path := Every];
          return Every;
        }
        names := names + inherited.names;
        i := i + 1;
      }
      SearchEnds(g, path, names, stack, exportsCache);
      stack := stack - {path};
      exportsCache := exportsCache[path := Names(names)];
      return Names(names);
    }

    method Reach(to: Path) returns (grew: bool)
      modifies this`runtimeReachable
      ensures runtimeReachable == Added(old(runtimeReachable), to)
      ensures State() == WithReach(old(State()), to)
      ensures grew <==> to !in old(runtimeReachable)
    {
      grew := to !in runtimeReachable;
      if grew {
        runtimeReachable := runtimeReachable + [to];
      }
      assert SetOf(runtimeReachable) == SetOf(old(runtimeReachable)) + {to};
    }

    method WantEverything(to: Path) returns (grew: bool)
      modifies this`demandedEverything, this`demandedNames
      ensures State() == WithEvery(old(State()), to)
      ensures grew <==> to !in old(demandedEverything)
    {
      grew := to !in demandedEverything;
      if grew {
        demandedEverything := demandedEverything + {to};
        demandedNames := demandedNames - {to};
      }
    }

    method WantNames(to: Path, names: set<Name>) returns (grew: bool)
      modifies this`demandedNames
      ensures State() == WithNames(old(State()), to, names)
      ensures grew <==> to !in old(demandedEverything) && !(names <= NamesOf(old(State()), to))
    {
      if to in demandedEverything {
        return false;
      }
      grew := false;
      var wanted := if to in demandedNames then demandedNames[to] else {};
      var rest := names;
      while rest != {}
        invariant rest <= names
        invariant wanted == NamesOf(old(State()), to) + (names - rest)
        invariant grew <==> !(names - rest <= NamesOf(old(State()), to))
        decreases rest
      {
        var name :| name in rest;
        if name !in wanted {
          wanted := wanted + {name};
          grew := true;
        }
        rest := rest - {name};
      }
      assert names - rest == names;
      demandedNames := demandedNames[to := wanted];
    }

    /** One demand of a reached module. */
    method WantDemand(to: Path, demand: Demand) returns (grew: bool)
      modifies this`demandedNames, this`demandedEverything
      ensures State() == WithDemand(old(State()), to, demand)
      ensures Advances(old(State()), State(), grew)
    {
      match demand
      case Every =>
        EveryAdvances(State(), to);
        grew := WantEverything(to);
      case Names(names) =>
        NamesAdvance(State(), to, names);
        grew := WantNames(to, names);
    }

    method PullPlain(current: ModuleFacts) returns (grew: bool)
      modifies this`runtimeReachable
      ensures runtimeReachable == AddedAll(old(runtimeReachable), current.plain)
      ensures Advances(old(State()), State(), grew)
    {
      grew := false;
      var i := 0;
      assert current.plain[0..] == current.plain;
      while i < |current.plain|
        invariant 0 <= i <= |current.plain|
        invariant AddedAll(runtimeReachable, current.plain[i..]) == AddedAll(old(runtimeReachable), current.plain)
        invariant Advances(old(State()), State(), grew)
      {
        ghost var before := State();
        var to := current.plain[i];
        assert current.plain[i..][0] == to && current.plain[i..][1..] == current.plain[i + 1..];
        var more := Reach(to);
        ReachAdvances(before, to);
        AdvancesTrans(old(State()), before, State(), grew, more);
        grew := grew || more;
        i := i + 1;
      }
    }

    method PullDemands(current: ModuleFacts) returns (grew: bool)
      requires Tidy(State())
      modifies this`demandedNames, this`demandedEverything
      ensures State() == WithDemands(old(State()), current.demands)
      ensures Advances(old(State()), State(), grew)
    {
      grew := false;
      var rest := current.demands.Keys;
      AllToMake(current.demands);
      NoDemands(State());
      StandsStill(State());
      hide WithDemands;
      hide WithDemand;
      hide Advances;
      while rest != {}
        invariant rest <= current.demands.Keys
        invariant State() == WithDemands(old(State()), current.demands - rest)
        invariant Advances(old(State()), State(), grew)
        decreases rest
      {
        ghost var before := State();
        var to :| to in rest;
        OneMoreMade(current.demands, rest, to);
        OneMoreDemand(old(State()), current.demands - rest, to, current.demands[to]);
        var more := WantDemand(to, current.demands[to]);
        AdvancesTrans(old(State()), before, State(), grew, more);
        grew := grew || more;
        rest := rest - {to};
      }
    }

    /** One reached module of the first pass: its plain edges and its demands. */
    method PullFrom(path: Path) returns (grew: bool)
      requires Sane(facts, Now()) && path in facts
      modifies this`runtimeReachable, this`demandedNames, this`demandedEverything
      ensures Now() == PullOne(facts[path], old(Now()))
      ensures Advances(old(State()), State(), grew)
    {
      hide Sane;
      hide WithDemands;
      hide AddedAll;
      hide Advances;
      SaneIsTidy(facts, Now());
      var current := facts[path];
      grew := PullPlain(current);
      ghost var pulled := State();
      DemandsAside(old(State()), pulled, current.demands);
      var more := PullDemands(current);
      AdvancesTrans(old(State()), pulled, State(), grew, more);
      grew := grew || more;
    }

    /** A first call for a star target: its answer stays in the cache. */
    method LookUp(to: Path) returns (available: Demand)
      requires Whole(facts) && to in facts
      modifies this`exportsCache, this`stack
      ensures Closed(ExportGraph(facts)) && to in ExportGraph(facts)
      ensures Found(available, exportsCache) == Search(ExportGraph(facts), to, {}, old(exportsCache))
    {
      ExportGraphClosed(facts);
      stack := {};
      available := ExportedNames(to);
    }

    /** One star edge of a reached module, for what is asked of that module. */
    method CarryTo(to: Path, everything: bool, wanted: set<Name>) returns (grew: bool)
      requires Whole(facts) && to in facts && Tidy(State())
      modifies this
      ensures Now() == CarryEdge(facts, old(Now()), to, everything, wanted)
      ensures Advances(old(State()), State(), grew)
    {
      CarryEdgeState(facts, Now(), to, everything, wanted);
      ghost var before := State();
      var available := LookUp(to);
      assert State() == before;
      var matched := Matched(everything, wanted, available);
      if matched == Names({}) {
        return false;
      }
      ReachAdvances(before, to);
      DemandAdvances(WithReach(before, to), to, matched);
      grew := Reach(to);
      var more := WantDemand(to, matched);
      AdvancesTrans(before, WithReach(before, to), State(), grew, more);
      grew := grew || more;
    }

    /** One reached module of the second pass: its star edges. */
    method CarryFrom(path: Path) returns (grew: bool)
      requires Sane(facts, Now()) && path in runtimeReachable && path in facts
      modifies this
      ensures Now() == CarryOne(facts, old(Now()), path)
      ensures Sane(facts, Now()) && Advances(old(State()), State(), grew)
    {
      CarryOneDoes(facts, {}, Now(), path);
      grew := false;
      if IsJson(path) {
        return;
      }
      var current := facts[path];
      var everything := path in demandedEverything;
      if |current.star| == 0 || (!everything && path !in demandedNames) {
        return;
      }
      var wanted := if everything then {} else demandedNames[path];
      grew := CarryAlong(path, current.star, everything, wanted);
    }

    method CarryAlong(path: Path, stars: seq<Path>, everything: bool, wanted: set<Name>) returns (grew: bool)
      requires Sane(facts, Now()) && path in runtimeReachable && path in facts && !IsJson(path) && stars == facts[path].star
      requires everything <==> path in demandedEverything
      requires !everything ==> wanted == NamesOf(State(), path)
      modifies this
      ensures Now() == CarryStars(facts, old(Now()), stars, everything, wanted)
      ensures Advances(old(State()), State(), grew)
    {
      grew := false;
      var i := 0;
      assert stars[0..] == stars;
      while i < |stars|
        invariant 0 <= i <= |stars|
        invariant Sane(facts, Now()) && path in runtimeReachable
        invariant everything <==> path in demandedEverything
        invariant !everything ==> wanted == NamesOf(State(), path)
        invariant CarryStars(facts, Now(), stars[i..], everything, wanted) == CarryStars(facts, old(Now()), stars, everything, wanted)
        invariant Advances(old(State()), State(), grew)
      {
        ghost var before := Now();
        var to := stars[i];
        assert stars[i..][0] == to && stars[i..][1..] == stars[i + 1..];
        CarryEdgeDoes(facts, {}, before, path, to, everything, wanted);
        var more := CarryTo(to, everything, wanted);
        Longer(before.order, runtimeReachable);
        AdvancesTrans(old(State()), StateOf(before), State(), grew, more);
        grew := grew || more;
        i := i + 1;
      }
    }

    /** Pull from every module reached when the pass began, in order. */
    method PullPass() returns (grew: bool)
      requires Sane(facts, Now())
      modifies this`runtimeReachable, this`demandedNames, this`demandedEverything
      ensures forall p :: p in old(runtimeReachable) ==> p in facts
      ensures Now() == PullAll(facts, old(Now()), old(runtimeReachable))
      ensures Sane(facts, Now()) && Advances(old(State()), State(), grew)
    {
      hide Sane;
      hide Advances;
      hide PullOne;
      OrderInFacts(facts, Now());
      StandsStill(State());
      grew := false;
      var list := runtimeReachable;
      var i := 0;
      assert list[0..] == list;
      while i < |list|
        invariant 0 <= i <= |list|
        invariant Sane(facts, Now()) && old(runtimeReachable) <= runtimeReachable
        invariant PullAll(facts, Now(), list[i..]) == PullAll(facts, old(Now()), list)
        invariant Advances(old(State()), State(), grew)
      {
        var path := list[i];
        assert list[i..][0] == path && list[i..][1..] == list[i + 1..];
        if !IsJson(path) {
          ghost var before := Now();
          Longer(list, before.order);
          PullOneDoes(facts, {}, before.cache, before, path);
          var more := PullFrom(path);
          AdvancesTrans(old(State()), StateOf(before), State(), grew, more);
          grew := grew || more;
        }
        i := i + 1;
      }
    }

    /** Carry along the star edges of every module reached when the pass began, in order. */
    method CarryPass() returns (grew: bool)
      requires Sane(facts, Now())
      modifies this
      ensures forall p :: p in old(runtimeReachable) ==> p in facts
      ensures Now() == CarryAll(facts, old(Now()), old(runtimeReachable))
      ensures Sane(facts, Now()) && Advances(old(State()), State(), grew)
    {
      hide Advances;
      hide CarryOne;
      OrderInFacts(facts, Now());
      StandsStill(State());
      grew := false;
      var list := runtimeReachable;
      var i := 0;
      assert list[0..] == list;
      while i < |list|
        invariant 0 <= i <= |list|
        invariant Sane(facts, Now()) && old(runtimeReachable) <= runtimeReachable
        invariant CarryAll(facts, Now(), list[i..]) == CarryAll(facts, old(Now()), list)
        invariant Advances(old(State()), State(), grew)
      {
        var path := list[i];
        assert list[i..][0] == path && list[i..][1..] == list[i + 1..];
        ghost var before := Now();
        Longer(list, before.order);
        CarryOneDoes(facts, {}, before, path);
        var more := CarryFrom(path);
        AdvancesTrans(old(State()), StateOf(before), State(), grew, more);
        grew := grew || more;
        i := i + 1;
      }
    }

    /** The whole walk, from where it begins: it ends, with what passes until one changes nothing give. */
    method Walk()
      requires Sane(facts, Now())
      modifies this
      ensures Now() == Final(facts, old(Now()))
    {
      hide Sane;
      hide Forced;
      hide Pulls;
      hide Carries;
      hide LookedUp;
      hide PullAll;
      hide CarryAll;
      var growing := true;
      while growing
        invariant Sane(facts, Now())
        invariant Final(facts, old(Now())) == if growing then Final(facts, Now()) else Now()
        decreases facts.Keys - State().reach, facts.Keys - demandedEverything, Unasked(facts, State()), growing
      {
        ghost var start := Now();
        PassDoes(facts, {}, start);
        growing := PullPass();
        ghost var pulled := State();
        var more := CarryPass();
        assert Now() == Pass(facts, start);
        AdvancesTrans(StateOf(start), pulled, State(), growing, more);
        growing := growing || more;
        if growing {
          SaneIsTidy(facts, start);
          SaneIsTidy(facts, Now());
          GrowthShrinksMeasure(facts, StateOf(start), State());
        } else {
          assert Unasked(facts, StateOf(start)) == Unasked(facts, State());
        }
      }
    }
  }

  /** The walk from the entry points: in the order its modules are met, the least state closed under the
      rules for the exports it looked up. */
  method WalkFrom(facts: Facts, entries: seq<Path>) returns (walk: ModuleWalk)
    requires Whole(facts) && forall p :: p in entries ==> p in facts
    ensures fresh(walk) && walk.facts == facts && walk.Now() == Result(facts, entries)
    ensures Least(facts, SetOf(entries), walk.exportsCache, walk.State()) && AllLookedUp(facts, walk.exportsCache, walk.State())
  {
    walk := new ModuleWalk(facts, entries);
    walk.Walk();
    ResultIsLeast(facts, entries);
  }
}
