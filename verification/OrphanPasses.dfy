/** The passes of the orphan-module walk as functions: what each module adds, in the order in which the
    modules were reached, until a pass adds nothing. */
module OrphanPasses {
  import opened StarSearch
  import opened OrphanWalk

  // ----- A set kept in the order of insertion

  function SetOf(order: seq<Path>): set<Path> {
    set p | p in order
  }

  function Added(order: seq<Path>, q: Path): seq<Path> {
    if q in order then order else order + [q]
  }

  function AddedAll(order: seq<Path>, more: seq<Path>): seq<Path>
    decreases |more|
  {
    if more == [] then order else AddedAll(Added(order, more[0]), more[1..])
  }

  lemma {:induction false} AddedAllHolds(order: seq<Path>, more: seq<Path>)
    ensures SetOf(AddedAll(order, more)) == SetOf(order) + SetOf(more)
    decreases |more|
  {
    if more == [] {
      assert SetOf(more) == {};
    } else {
      AddedAllHolds(Added(order, more[0]), more[1..]);
      assert more == [more[0]] + more[1..];
      assert SetOf(Added(order, more[0])) == SetOf(order) + {more[0]};
    }
  }

  // ----- The walk under way

  /** The modules reached, in order; what is asked of each; and the export answers found so far. */
  datatype Visit = Visit(order: seq<Path>, names: map<Path, set<Name>>, every: set<Path>, cache: Cache)

  function StateOf(v: Visit): Walked {
    Walked(SetOf(v.order), v.names, v.every)
  }

  function Begin(entries: seq<Path>): Visit {
    Visit(AddedAll([], entries), map[], {}, map[])
  }

  ghost predicate Sane(facts: Facts, v: Visit) {
    && Whole(facts) && Bounded(facts, StateOf(v)) && Tidy(StateOf(v))
    && SoundCache(ExportGraph(facts), v.cache)
    && (NoCycle(ExportGraph(facts)) ==> ExactCache(ExportGraph(facts), v.cache))
  }

  /** Nothing is lost from `s` to `t`: either nothing changes, or something is gained. */
  ghost predicate Onward(s: Walked, t: Walked) {
    Advances(s, t, !Same(s, t))
  }

  lemma GainsOrSame(s: Walked, t: Walked)
    requires s.reach <= t.reach && s.every <= t.every && Tidy(s) && Tidy(t)
    requires forall q, n :: Asks(s, q, n) ==> Asks(t, q, n)
    ensures Onward(s, t)
  {
    if s.reach == t.reach && s.every == t.every && !Same(s, t) {
      var q :| NamesOf(s, q) != NamesOf(t, q);
      var n :| (n in NamesOf(s, q) && n !in NamesOf(t, q)) || (n in NamesOf(t, q) && n !in NamesOf(s, q));
      assert Asks(s, q, n) ==> Asks(t, q, n);
      assert Asks(t, q, n) && !Asks(s, q, n);
    }
  }

  lemma OnwardTrans(s: Walked, t: Walked, u: Walked)
    requires Onward(s, t) && Onward(t, u)
    ensures Onward(s, u)
    ensures Same(s, u) ==> Same(s, t) && Same(t, u)
  {
    AdvancesTrans(s, t, u, !Same(s, t), !Same(t, u));
  }

  lemma ForcedTrans(facts: Facts, entries: set<Path>, avail: Cache, s: Walked, t: Walked, u: Walked)
    requires Forced(facts, entries, avail, s, t) && Forced(facts, entries, avail, t, u)
    ensures Forced(facts, entries, avail, s, u)
  {
  }

  // ----- The first pass: plain edges and demands

  function AskedOf(s: Walked, demands: map<Path, Demand>, q: Path): set<Name> {
    NamesOf(s, q) + if q in demands && demands[q].Names? then demands[q].names else {}
  }

  /** Every demand of a module made. */
  function WithDemands(s: Walked, demands: map<Path, Demand>): Walked {
    var every := s.every + set q | q in demands && demands[q].Every?;
    Walked(s.reach, map q | q in s.names.Keys + demands.Keys && q !in every :: AskedOf(s, demands, q), every)
  }

  function PullOne(f: ModuleFacts, v: Visit): Visit {
    var asked := WithDemands(StateOf(v), f.demands);
    Visit(AddedAll(v.order, f.plain), asked.names, asked.every, v.cache)
  }

  lemma NoDemands(s: Walked)
    requires Tidy(s)
    ensures WithDemands(s, map[]) == s
  {
    var t := WithDemands(s, map[]);
    assert t.every == s.every;
    assert forall q | q in s.names :: AskedOf(s, map[], q) == s.names[q];
    assert t.names == s.names;
  }

  lemma AskedOfOther(s: Walked, demands: map<Path, Demand>, q: Path, demand: Demand, r: Path)
    requires q !in demands
    ensures r != q ==> AskedOf(s, demands[q := demand], r) == AskedOf(s, demands, r)
    ensures AskedOf(s, demands, q) == NamesOf(s, q)
    ensures demand.Names? ==> AskedOf(s, demands[q := demand], q) == NamesOf(s, q) + demand.names
  {
    assert NamesOf(s, q) + {} == NamesOf(s, q);
  }

  lemma OneMoreEvery(s: Walked, demands: map<Path, Demand>, q: Path, demand: Demand)
    requires q !in demands
    ensures WithDemands(s, demands[q := demand]).every ==
      WithDemands(s, demands).every + if demand.Every? then {q} else {}
  {
    var more := demands[q := demand];
    forall r ensures r in WithDemands(s, more).every <==> r in WithDemands(s, demands).every || (r == q && demand.Every?) {
      assert r != q ==> (r in more && more[r].Every? <==> r in demands && demands[r].Every?);
    }
  }

  lemma NamesAsked(s: Walked, demands: map<Path, Demand>)
    ensures var t := WithDemands(s, demands);
      && (forall r :: r in t.names <==> (r in s.names || r in demands) && r !in t.every)
      && (forall r :: r in t.names ==> t.names[r] == AskedOf(s, demands, r))
  {
  }

  /** One more demand, whichever comes first. */
  lemma OneMoreDemand(s: Walked, demands: map<Path, Demand>, q: Path, demand: Demand)
    requires q !in demands && Tidy(s)
    ensures WithDemands(s, demands[q := demand]) == WithDemand(WithDemands(s, demands), q, demand)
  {
    hide AskedOf;
    hide Tidy;
    var more := demands[q := demand];
    var before, after := WithDemands(s, demands), WithDemands(s, more);
    assert before.reach == s.reach && after.reach == s.reach;
    OneMoreEvery(s, demands, q, demand);
    NamesAsked(s, demands);
    NamesAsked(s, more);
    hide WithDemands;
    var step := WithDemand(before, q, demand);
    assert after.every == step.every;
    forall r ensures r in after.names <==> r in step.names {
    }
    forall r | r in after.names ensures after.names[r] == step.names[r] {
      AskedOfOther(s, demands, q, demand, r);
    }
    assert after.names == step.names;
  }

  lemma PullOneGains(facts: Facts, v: Visit, path: Path)
    requires Whole(facts) && Bounded(facts, StateOf(v)) && Tidy(StateOf(v)) && path in facts
    ensures var s, t := StateOf(v), StateOf(PullOne(facts[path], v));
      && Bounded(facts, t) && Tidy(t) && Pulls(facts[path], t)
      && s.reach <= t.reach && s.every <= t.every && forall q, n :: Asks(s, q, n) ==> Asks(t, q, n)
  {
    var f := facts[path];
    AddedAllHolds(v.order, f.plain);
    assert forall q, n :: q in f.demands && f.demands[q].Names? && n in f.demands[q].names ==> n in AllNames(facts);
  }

  lemma PullOneDoes(facts: Facts, entries: set<Path>, avail: Cache, v: Visit, path: Path)
    requires Sane(facts, v) && path in v.order && !IsJson(path)
    ensures var u := PullOne(facts[path], v);
      && Sane(facts, u) && Onward(StateOf(v), StateOf(u)) && u.cache == v.cache && v.order <= u.order
      && Pulls(facts[path], StateOf(u))
      && Forced(facts, entries, avail, StateOf(v), StateOf(u))
  {
    hide NoCycle;
    hide ExactCache;
    hide Onward;
    hide Below;
    assert path in StateOf(v).reach;
    var f, u := facts[path], PullOne(facts[path], v);
    AddedAllExtends(v.order, f.plain);
    PullOneGains(facts, v, path);
    GainsOrSame(StateOf(v), StateOf(u));
    forall t | ClosedUnder(facts, entries, avail, t) && Below(StateOf(v), t)
      ensures Below(StateOf(u), t)
    {
      PulledForced(facts, entries, avail, path, v, t);
    }
  }

  lemma {:induction false} AddedAllExtends(order: seq<Path>, more: seq<Path>)
    ensures order <= AddedAll(order, more)
    decreases |more|
  {
    if more != [] {
      AddedAllExtends(Added(order, more[0]), more[1..]);
    }
  }

  lemma PulledForced(facts: Facts, entries: set<Path>, avail: Cache, path: Path, v: Visit, t: Walked)
    requires ClosedUnder(facts, entries, avail, t) && Below(StateOf(v), t)
    requires path in StateOf(v).reach && path in facts && !IsJson(path)
    ensures Below(StateOf(PullOne(facts[path], v)), t)
  {
    hide Carries;
    var f, u := facts[path], PullOne(facts[path], v);
    assert Pulls(f, t);
    AddedAllHolds(v.order, f.plain);
    forall q, n | n in NamesOf(StateOf(u), q) ensures Asks(t, q, n) {
      if n !in NamesOf(StateOf(v), q) {
        assert Meets(t, q, f.demands[q]);
      }
    }
    forall q | q in u.every ensures q in t.every {
      if q !in v.every {
        assert Meets(t, q, f.demands[q]);
      }
    }
  }

  // ----- The second pass: star edges

  function CarryEdge(facts: Facts, v: Visit, to: Path, everything: bool, wanted: set<Name>): Visit
    requires Whole(facts) && to in facts
  {
    ExportGraphClosed(facts);
    var found := Search(ExportGraph(facts), to, {}, v.cache);
    var matched := Matched(everything, wanted, found.answer);
    var carried := Carry(StateOf(v), to, matched);
    Visit(if matched == Names({}) then v.order else Added(v.order, to), carried.names, carried.every, found.cache)
  }

  lemma CarryEdgeState(facts: Facts, v: Visit, to: Path, everything: bool, wanted: set<Name>)
    requires Whole(facts) && to in facts
    ensures Closed(ExportGraph(facts)) && to in ExportGraph(facts)
    ensures var found := Search(ExportGraph(facts), to, {}, v.cache);
      var u := CarryEdge(facts, v, to, everything, wanted);
      && StateOf(u) == Carry(StateOf(v), to, Matched(everything, wanted, found.answer)) && u.cache == found.cache
      && v.order <= u.order
  {
    ExportGraphClosed(facts);
    assert SetOf(Added(v.order, to)) == SetOf(v.order) + {to};
  }

  /** What one star edge does: the rule for it holds, nothing more than it asks is added. */
  lemma CarryEdgeDoes(facts: Facts, entries: set<Path>, v: Visit, path: Path, to: Path, everything: bool, wanted: set<Name>)
    requires Sane(facts, v) && path in v.order && !IsJson(path) && to in facts[path].star
    requires everything <==> path in v.every
    requires !everything ==> wanted == NamesOf(StateOf(v), path)
    ensures to in facts
    ensures var u := CarryEdge(facts, v, to, everything, wanted);
      && Sane(facts, u) && Onward(StateOf(v), StateOf(u)) && v.order <= u.order
      && Extends(v.cache, u.cache) && Carried(u.cache, to, everything, wanted, StateOf(u))
      && (everything <==> path in u.every)
      && (!everything ==> wanted == NamesOf(StateOf(u), path))
      && Forced(facts, entries, u.cache, StateOf(v), StateOf(u))
  {
    var g := ExportGraph(facts);
    assert path in facts && to in facts;
    CarryEdgeState(facts, v, to, everything, wanted);
    AnswerIsCached(g, to, v.cache);
    SearchSound(g, to, {}, v.cache);
    if NoCycle(g) {
      SearchExact(g, to, {}, v.cache);
    }
    var u := CarryEdge(facts, v, to, everything, wanted);
    var matched := Matched(everything, wanted, u.cache[to]);
    CarryBounded(facts, path, to, everything, wanted, u.cache[to], StateOf(v));
    CarryOnward(StateOf(v), to, matched);
    CarryDoes(u.cache, path, to, everything, wanted, StateOf(v));
    CarryForced(facts, entries, u.cache, path, to, everything, wanted, StateOf(v));
  }

  lemma CarryOnward(s: Walked, to: Path, matched: Demand)
    requires Tidy(s)
    ensures Onward(s, Carry(s, to, matched))
  {
    GainsOrSame(s, Carry(s, to, matched));
  }

  /** The star edges of a module, one after the other. */
  function CarryStars(facts: Facts, v: Visit, stars: seq<Path>, everything: bool, wanted: set<Name>): Visit
    requires Whole(facts) && forall q :: q in stars ==> q in facts
    decreases |stars|
  {
    if stars == [] then v
    else CarryStars(facts, CarryEdge(facts, v, stars[0], everything, wanted), stars[1..], everything, wanted)
  }

  /** What is kept from one state of the walk to a later one. */
  ghost predicate Goes(facts: Facts, entries: set<Path>, v: Visit, u: Visit) {
    && Sane(facts, u) && Onward(StateOf(v), StateOf(u)) && v.order <= u.order && Extends(v.cache, u.cache)
    && Forced(facts, entries, u.cache, StateOf(v), StateOf(u))
  }

  lemma GoesTrans(facts: Facts, entries: set<Path>, v: Visit, u: Visit, w: Visit)
    requires Goes(facts, entries, v, u) && Goes(facts, entries, u, w)
    ensures Goes(facts, entries, v, w)
    ensures Same(StateOf(v), StateOf(w)) ==> Same(StateOf(v), StateOf(u)) && Same(StateOf(u), StateOf(w))
  {
    OnwardTrans(StateOf(v), StateOf(u), StateOf(w));
    ForcedLater(facts, entries, u.cache, w.cache, StateOf(v), StateOf(u));
    ForcedTrans(facts, entries, w.cache, StateOf(v), StateOf(u), StateOf(w));
  }

  lemma GoesNowhere(facts: Facts, entries: set<Path>, v: Visit)
    requires Sane(facts, v)
    ensures Goes(facts, entries, v, v)
  {
  }

  lemma {:induction false} CarryStarsDoes(facts: Facts, entries: set<Path>, v: Visit, path: Path, stars: seq<Path>,
                                          everything: bool, wanted: set<Name>)
    requires Sane(facts, v) && path in v.order && !IsJson(path) && forall q :: q in stars ==> q in facts[path].star
    requires everything <==> path in v.every
    requires !everything ==> wanted == NamesOf(StateOf(v), path)
    ensures forall q :: q in stars ==> q in facts
    ensures var u := CarryStars(facts, v, stars, everything, wanted);
      && Goes(facts, entries, v, u)
      && (everything <==> path in u.every)
      && (!everything ==> wanted == NamesOf(StateOf(u), path))
      && (forall q :: q in stars ==> Carried(u.cache, q, everything, wanted, StateOf(u)))
    decreases |stars|
  {
    assert path in facts;
    if stars == [] {
      GoesNowhere(facts, entries, v);
    } else {
      CarryEdgeDoes(facts, entries, v, path, stars[0], everything, wanted);
      var next := CarryEdge(facts, v, stars[0], everything, wanted);
      CarryStarsDoes(facts, entries, next, path, stars[1..], everything, wanted);
      var u := CarryStars(facts, next, stars[1..], everything, wanted);
      assert Goes(facts, entries, v, next);
      GoesTrans(facts, entries, v, next, u);
      assert Extends(next.cache, u.cache) && Onward(StateOf(next), StateOf(u));
      hide Sane;
      hide Forced;
      hide CarryEdge;
      hide Carried;
      hide Advances;
      FirstAndOthersCarried(stars, next.cache, u.cache, everything, wanted, StateOf(next), StateOf(u),
                            !Same(StateOf(next), StateOf(u)));
    }
  }

  /** A barrel that nothing is asked of carries nothing; an empty list of names counts as asking. */
  function CarryOne(facts: Facts, v: Visit, path: Path): Visit
    requires Whole(facts) && path in facts
  {
    if IsJson(path) || (path !in v.every && path !in v.names) then v
    else
      var everything := path in v.every;
      CarryStars(facts, v, facts[path].star, everything, if everything then {} else v.names[path])
  }

  lemma CarryOneDoes(facts: Facts, entries: set<Path>, v: Visit, path: Path)
    requires Sane(facts, v) && path in v.order && path in facts
    ensures var u := CarryOne(facts, v, path);
      && Goes(facts, entries, v, u)
      && (!IsJson(path) ==> Carries(facts[path], u.cache, path, StateOf(u)) && LookedUp(facts[path], u.cache, path, StateOf(u)))
  {
    if IsJson(path) || (path !in v.every && path !in v.names) {
      GoesNowhere(facts, entries, v);
    } else {
      var everything := path in v.every;
      var wanted := if everything then {} else v.names[path];
      CarryStarsDoes(facts, entries, v, path, facts[path].star, everything, wanted);
      var u := CarryStars(facts, v, facts[path].star, everything, wanted);
      AllCarried(facts[path], u.cache, path, everything, wanted, StateOf(u));
    }
  }

  // ----- The passes

  function PullAll(facts: Facts, v: Visit, list: seq<Path>): Visit
    requires forall p :: p in list ==> p in facts
    decreases |list|
  {
    if list == [] then v
    else PullAll(facts, if IsJson(list[0]) then v else PullOne(facts[list[0]], v), list[1..])
  }

  function CarryAll(facts: Facts, v: Visit, list: seq<Path>): Visit
    requires Whole(facts) && forall p :: p in list ==> p in facts
    decreases |list|
  {
    if list == [] then v else CarryAll(facts, CarryOne(facts, v, list[0]), list[1..])
  }

  lemma OrderInFacts(facts: Facts, v: Visit)
    requires Sane(facts, v)
    ensures forall p :: p in v.order ==> p in facts
  {
    assert forall p :: p in v.order ==> p in StateOf(v).reach;
  }

  lemma Longer(order: seq<Path>, more: seq<Path>)
    requires order <= more
    ensures forall p :: p in order ==> p in more
  {
    forall p | p in order ensures p in more {
      var i :| 0 <= i < |order| && order[i] == p;
      assert more[i] == p;
    }
  }

  lemma {:induction false} PullAllDoes(facts: Facts, entries: set<Path>, v: Visit, list: seq<Path>)
    requires Sane(facts, v) && forall p :: p in list ==> p in v.order
    ensures forall p :: p in list ==> p in facts
    ensures var u := PullAll(facts, v, list);
      && Goes(facts, entries, v, u)
      && forall p :: p in list && !IsJson(p) ==> Pulls(facts[p], StateOf(u))
    decreases |list|
  {
    hide Sane;
    hide Advances;
    hide Forced;
    hide PullOne;
    hide Pulls;
    OrderInFacts(facts, v);
    if list == [] {
      GoesNowhere(facts, entries, v);
    } else {
      var path := list[0];
      var next := if IsJson(path) then v else PullOne(facts[path], v);
      if IsJson(path) {
        GoesNowhere(facts, entries, v);
      } else {
        PullOneDoes(facts, entries, v.cache, v, path);
      }
      Longer(v.order, next.order);
      PullAllDoes(facts, entries, next, list[1..]);
      var u := PullAll(facts, next, list[1..]);
      GoesTrans(facts, entries, v, next, u);
      if !IsJson(path) {
        PullsSurvives(facts[path], StateOf(next), StateOf(u), !Same(StateOf(next), StateOf(u)));
      }
      assert list == [path] + list[1..];
    }
  }

  lemma {:induction false} CarryAllDoes(facts: Facts, entries: set<Path>, v: Visit, list: seq<Path>)
    requires Sane(facts, v) && forall p :: p in list ==> p in v.order
    ensures forall p :: p in list ==> p in facts
    ensures var u := CarryAll(facts, v, list);
      && Goes(facts, entries, v, u)
      && (Same(StateOf(v), StateOf(u)) ==>
            forall p :: p in list && !IsJson(p) ==>
              Carries(facts[p], u.cache, p, StateOf(u)) && LookedUp(facts[p], u.cache, p, StateOf(u)))
    decreases |list|
  {
    OrderInFacts(facts, v);
    if list == [] {
      GoesNowhere(facts, entries, v);
    } else {
      var path := list[0];
      var next := CarryOne(facts, v, path);
      CarryOneDoes(facts, entries, v, path);
      Longer(v.order, next.order);
      CarryAllDoes(facts, entries, next, list[1..]);
      var u := CarryAll(facts, next, list[1..]);
      GoesTrans(facts, entries, v, next, u);
      assert Extends(next.cache, u.cache);
      hide Sane;
      hide Onward;
      hide Forced;
      hide CarryOne;
      if Same(StateOf(v), StateOf(u)) && !IsJson(path) {
        CarriesSurvives(facts[path], next.cache, u.cache, path, StateOf(next), StateOf(u));
      }
      hide Carries;
      hide LookedUp;
      assert list == [path] + list[1..];
    }
  }

  /** Both passes, each over the modules reached when it begins. */
  function Pass(facts: Facts, v: Visit): Visit
    requires Sane(facts, v)
  {
    PullAllDoes(facts, {}, v, v.order);
    var pulled := PullAll(facts, v, v.order);
    CarryAllDoes(facts, {}, pulled, pulled.order);
    CarryAll(facts, pulled, pulled.order)
  }

  lemma PassDoes(facts: Facts, entries: set<Path>, v: Visit)
    requires Sane(facts, v)
    ensures var u := Pass(facts, v);
      && Goes(facts, entries, v, u)
      && (Same(StateOf(v), StateOf(u)) ==>
            forall p :: p in u.order && !IsJson(p) ==>
              Pulls(facts[p], StateOf(u)) && Carries(facts[p], u.cache, p, StateOf(u)) && LookedUp(facts[p], u.cache, p, StateOf(u)))
  {
    PullAllDoes(facts, entries, v, v.order);
    var pulled := PullAll(facts, v, v.order);
    CarryAllDoes(facts, entries, pulled, pulled.order);
    var u := CarryAll(facts, pulled, pulled.order);
    GoesTrans(facts, entries, v, pulled, u);
    if Same(StateOf(v), StateOf(u)) {
      forall p | p in u.order && !IsJson(p) ensures Pulls(facts[p], StateOf(u)) {
        assert p in StateOf(v).reach && p in StateOf(pulled).reach;
        PullsSurvives(facts[p], StateOf(pulled), StateOf(u), false);
      }
      forall p | p in u.order && !IsJson(p)
        ensures Carries(facts[p], u.cache, p, StateOf(u)) && LookedUp(facts[p], u.cache, p, StateOf(u))
      {
        assert p in StateOf(pulled).reach;
      }
    }
  }

  // ----- The whole walk

  /** Passes until one changes nothing. */
  ghost function Final(facts: Facts, v: Visit): Visit
    requires Sane(facts, v)
    decreases facts.Keys - StateOf(v).reach, facts.Keys - v.every, Unasked(facts, StateOf(v))
  {
    PassDoes(facts, {}, v);
    var u := Pass(facts, v);
    if Same(StateOf(v), StateOf(u)) then u
    else
      GrowthShrinksMeasure(facts, StateOf(v), StateOf(u));
      Final(facts, u)
  }

  lemma BeginSane(facts: Facts, entries: seq<Path>)
    requires Whole(facts) && forall p :: p in entries ==> p in facts
    ensures Sane(facts, Begin(entries)) && StateOf(Begin(entries)) == Walked(SetOf(entries), map[], {})
  {
    AddedAllHolds([], entries);
    assert SetOf([]) == {};
  }

  lemma {:induction false} FinalDoes(facts: Facts, entries: set<Path>, v: Visit)
    requires Sane(facts, v)
    ensures var u := Final(facts, v);
      && Goes(facts, entries, v, u)
      && forall p :: p in u.order && !IsJson(p) ==>
           Pulls(facts[p], StateOf(u)) && Carries(facts[p], u.cache, p, StateOf(u)) && LookedUp(facts[p], u.cache, p, StateOf(u))
    decreases facts.Keys - StateOf(v).reach, facts.Keys - v.every, Unasked(facts, StateOf(v))
  {
    PassDoes(facts, entries, v);
    var u := Pass(facts, v);
    if !Same(StateOf(v), StateOf(u)) {
      GrowthShrinksMeasure(facts, StateOf(v), StateOf(u));
      FinalDoes(facts, entries, u);
      GoesTrans(facts, entries, v, u, Final(facts, u));
    }
  }

  /** What the walk from these entries ends with. */
  ghost function Result(facts: Facts, entries: seq<Path>): Visit
    requires Whole(facts) && forall p :: p in entries ==> p in facts
  {
    BeginSane(facts, entries);
    Final(facts, Begin(entries))
  }

  /** The walk ends with the least state closed under the rules for the exports it looked up. */
  lemma ResultIsLeast(facts: Facts, entries: seq<Path>)
    requires Whole(facts) && forall p :: p in entries ==> p in facts
    ensures var u := Result(facts, entries);
      && Sane(facts, u) && Least(facts, SetOf(entries), u.cache, StateOf(u)) && AllLookedUp(facts, u.cache, StateOf(u))
  {
    BeginSane(facts, entries);
    var begin, u := Begin(entries), Result(facts, entries);
    FinalDoes(facts, SetOf(entries), begin);
    forall t | ClosedUnder(facts, SetOf(entries), u.cache, t) ensures Below(StateOf(u), t) {
      assert Below(StateOf(begin), t);
    }
  }
}
