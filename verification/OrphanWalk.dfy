/** The walk of the orphan-module audit: from the entry points, along plain edges, and along an
    `export *` edge only for a name that is asked of the barrel and that its target offers. */
module OrphanWalk {
  import opened StarSearch

  /** A module's edges to others, its demands on them, and the names it declares itself. */
  datatype ModuleFacts = ModuleFacts(
    plain: seq<Path>, star: seq<Path>, opaqueStar: bool, demands: map<Path, Demand>, own: set<Name>)

  type Facts = map<Path, ModuleFacts>

  predicate IsJson(p: Path) {
    |p| >= 5 && p[|p| - 5..] == ".json"
  }

  lemma JsonIsNamed(p: Path)
    ensures IsJson(p) <==> exists stem: string :: p == stem + ".json"
  {
    if IsJson(p) {
      assert p == p[..|p| - 5] + ".json";
    }
    forall stem: string | p == stem + ".json"
      ensures IsJson(p)
    {
      assert p[|p| - 5..] == ".json";
    }
  }

  /** Every target of a module is a module: targets are resolved to files that exist. */
  ghost predicate Whole(facts: Facts) {
    forall p :: p in facts ==>
      && (forall q :: q in facts[p].plain ==> q in facts)
      && (forall q :: q in facts[p].star ==> q in facts)
      && facts[p].demands.Keys <= facts.Keys
  }

  // ----- The names a module exports, as a search over its star edges

  function Stars(targets: seq<Path>): (items: seq<Item>)
    ensures |items| == |targets| && forall i :: 0 <= i < |items| ==> items[i] == Star(targets[i])
  {
    seq(|targets|, i requires 0 <= i < |targets| => Star(targets[i]))
  }

  function ExportItems(f: ModuleFacts): seq<Item> {
    if f.opaqueStar then [Absorb] else [Own(f.own)] + Stars(f.star)
  }

  function ExportGraph(facts: Facts): Graph {
    map p | p in facts :: ExportItems(facts[p])
  }

  lemma ExportGraphClosed(facts: Facts)
    requires Whole(facts)
    ensures Closed(ExportGraph(facts)) && ExportGraph(facts).Keys == facts.Keys
  {
  }

  // ----- What the walk has found so far, and the rules it closes under

  datatype Walked = Walked(reach: set<Path>, names: map<Path, set<Name>>, every: set<Path>)

  function NamesOf(t: Walked, q: Path): set<Name> {
    if q in t.names then t.names[q] else {}
  }

  predicate Asks(t: Walked, q: Path, n: Name) {
    q in t.every || n in NamesOf(t, q)
  }

  ghost predicate Below(s: Walked, t: Walked) {
    && s.reach <= t.reach
    && s.every <= t.every
    && forall q, n :: n in NamesOf(s, q) ==> Asks(t, q, n)
  }

  ghost predicate Offered(avail: Cache, q: Path, n: Name) {
    q in avail && (avail[q].Every? || n in avail[q].names)
  }

  ghost predicate Meets(t: Walked, q: Path, demand: Demand) {
    match demand
    case Every => q in t.every
    case Names(names) => forall n :: n in names ==> Asks(t, q, n)
  }

  /** A reached module pulls its plain targets in whole, and asks what it demands. */
  ghost predicate Pulls(f: ModuleFacts, t: Walked) {
    && (forall q :: q in f.plain ==> q in t.reach)
    && (forall q :: q in f.demands ==> Meets(t, q, f.demands[q]))
  }

  /** What is asked of a barrel is asked of each star target that offers it, which is reached. */
  ghost predicate Carries(f: ModuleFacts, avail: Cache, p: Path, t: Walked) {
    forall q :: q in f.star ==>
      && (p in t.every ==> q in t.reach && q in t.every)
      && (forall n :: n in NamesOf(t, p) && Offered(avail, q, n) ==> q in t.reach && Asks(t, q, n))
  }

  ghost predicate ClosedUnder(facts: Facts, entries: set<Path>, avail: Cache, t: Walked) {
    && entries <= t.reach
    && forall p :: p in t.reach && p in facts && !IsJson(p) ==>
      Pulls(facts[p], t) && Carries(facts[p], avail, p, t)
  }

  /** The least state closed under the rules. */
  ghost predicate Least(facts: Facts, entries: set<Path>, avail: Cache, s: Walked) {
    && ClosedUnder(facts, entries, avail, s)
    && forall t :: ClosedUnder(facts, entries, avail, t) ==> Below(s, t)
  }

  /** Nothing asked of a module by name is kept once everything is asked of it. */
  ghost predicate Tidy(t: Walked) {
    t.names.Keys !! t.every
  }

  ghost predicate Same(s: Walked, t: Walked) {
    s.reach == t.reach && s.every == t.every && forall q :: NamesOf(s, q) == NamesOf(t, q)
  }

  // ----- The three updates

  function WithReach(s: Walked, q: Path): Walked {
    s.(reach := s.reach + {q})
  }

  function WithEvery(s: Walked, q: Path): Walked {
    if q in s.every then s else s.(every := s.every + {q}, names := s.names - {q})
  }

  function WithNames(s: Walked, q: Path, names: set<Name>): Walked {
    if q in s.every then s else s.(names := s.names[q := NamesOf(s, q) + names])
  }

  /** From `s` to `t` nothing is lost; something is gained exactly when `grew`. */
  ghost predicate Advances(s: Walked, t: Walked, grew: bool) {
    && s.reach <= t.reach
    && s.every <= t.every
    && (forall q, n :: Asks(s, q, n) ==> Asks(t, q, n))
    && (!grew ==> Same(s, t))
    && (grew ==> s.reach != t.reach || s.every != t.every || exists q, n :: Asks(t, q, n) && !Asks(s, q, n))
  }

  lemma AdvancesTrans(a: Walked, b: Walked, c: Walked, x: bool, y: bool)
    requires Advances(a, b, x) && Advances(b, c, y)
    ensures Advances(a, c, x || y)
  {
  }

  lemma StandsStill(s: Walked)
    ensures Advances(s, s, false)
  {
  }

  lemma ReachAdvances(s: Walked, q: Path)
    ensures Advances(s, WithReach(s, q), q !in s.reach)
  {
  }

  lemma EveryAdvances(s: Walked, q: Path)
    ensures Advances(s, WithEvery(s, q), q !in s.every)
  {
  }

  lemma NamesAdvance(s: Walked, q: Path, names: set<Name>)
    ensures Advances(s, WithNames(s, q, names), q !in s.every && !(names <= NamesOf(s, q)))
  {
    var t := WithNames(s, q, names);
    if q !in s.every && !(names <= NamesOf(s, q)) {
      var n :| n in names && n !in NamesOf(s, q);
      assert Asks(t, q, n) && !Asks(s, q, n);
    }
  }

  // ----- Rules survive growth

  lemma MeetsSurvives(s: Walked, t: Walked, grew: bool, q: Path, demand: Demand)
    requires Meets(s, q, demand) && Advances(s, t, grew)
    ensures Meets(t, q, demand)
  {
  }

  lemma PullsSurvives(f: ModuleFacts, s: Walked, t: Walked, grew: bool)
    requires Pulls(f, s) && Advances(s, t, grew)
    ensures Pulls(f, t)
  {
    forall q | q in f.demands ensures Meets(t, q, f.demands[q]) {
      MeetsSurvives(s, t, grew, q, f.demands[q]);
    }
  }

  /** Every star target the rule speaks of was looked up. */
  ghost predicate LookedUp(f: ModuleFacts, avail: Cache, p: Path, t: Walked) {
    NamesOf(t, p) != {} ==> forall q :: q in f.star ==> q in avail
  }

  ghost predicate AllLookedUp(facts: Facts, avail: Cache, t: Walked) {
    forall p :: p in t.reach && p in facts && !IsJson(p) ==> LookedUp(facts[p], avail, p, t)
  }

  lemma CarriesSurvives(f: ModuleFacts, avail: Cache, later: Cache, p: Path, s: Walked, t: Walked)
    requires Carries(f, avail, p, s) && LookedUp(f, avail, p, s) && Extends(avail, later) && Same(s, t)
    ensures Carries(f, later, p, t) && LookedUp(f, later, p, t)
  {
  }

  /** One star edge has carried what is asked of its barrel: everything, or the `wanted` names. */
  ghost predicate Carried(avail: Cache, q: Path, everything: bool, wanted: set<Name>, t: Walked) {
    && q in avail
    && (everything ==> q in t.reach && q in t.every)
    && (!everything ==> forall n :: n in wanted && Offered(avail, q, n) ==> q in t.reach && Asks(t, q, n))
  }

  lemma CarriedSurvives(avail: Cache, later: Cache, q: Path, everything: bool, wanted: set<Name>, s: Walked, t: Walked, grew: bool)
    requires Carried(avail, q, everything, wanted, s) && Extends(avail, later) && Advances(s, t, grew)
    ensures Carried(later, q, everything, wanted, t)
  {
  }

  /** The first star edge of the barrel has carried what is asked, and then the others. */
  lemma FirstAndOthersCarried(star: seq<Path>, avail: Cache, later: Cache, everything: bool, wanted: set<Name>, s: Walked, t: Walked, grew: bool)
    requires star != [] && Extends(avail, later) && Advances(s, t, grew)
    requires Carried(avail, star[0], everything, wanted, s)
    requires forall q :: q in star[1..] ==> Carried(later, q, everything, wanted, t)
    ensures forall q :: q in star ==> Carried(later, q, everything, wanted, t)
  {
    CarriedSurvives(avail, later, star[0], everything, wanted, s, t, grew);
    hide Carried;
    assert star == [star[0]] + star[1..];
  }

  lemma AllCarried(f: ModuleFacts, avail: Cache, p: Path, everything: bool, wanted: set<Name>, t: Walked)
    requires everything <==> p in t.every
    requires Tidy(t) && (!everything ==> wanted == NamesOf(t, p))
    requires forall q :: q in f.star ==> Carried(avail, q, everything, wanted, t)
    ensures Carries(f, avail, p, t) && LookedUp(f, avail, p, t)
  {
    forall q | q in f.star
      ensures p in t.every ==> q in t.reach && q in t.every
      ensures forall n :: n in NamesOf(t, p) && Offered(avail, q, n) ==> q in t.reach && Asks(t, q, n)
    {
      assert Carried(avail, q, everything, wanted, t);
    }
  }

  /** What is carried to a star target: everything, or the wanted names it offers. */
  function Matched(everything: bool, wanted: set<Name>, available: Demand): Demand {
    if everything then Every
    else if available.Every? then Names(wanted)
    else Names(set name | name in wanted && name in available.names)
  }

  function WithDemand(s: Walked, q: Path, demand: Demand): Walked {
    match demand
    case Every => WithEvery(s, q)
    case Names(names) => WithNames(s, q, names)
  }

  function Carry(s: Walked, q: Path, matched: Demand): Walked {
    if matched.Names? && matched.names == {} then s else WithDemand(WithReach(s, q), q, matched)
  }

  lemma DemandAdvances(s: Walked, q: Path, demand: Demand)
    ensures Advances(s, WithDemand(s, q, demand),
                     q !in s.every && (demand.Names? ==> !(demand.names <= NamesOf(s, q))))
  {
    match demand
    case Every => EveryAdvances(s, q);
    case Names(names) => NamesAdvance(s, q, names);
  }

  lemma CarryDoes(avail: Cache, p: Path, q: Path, everything: bool, wanted: set<Name>, s: Walked)
    requires everything <==> p in s.every
    requires !everything ==> wanted == NamesOf(s, p)
    requires q in avail
    ensures var t := Carry(s, q, Matched(everything, wanted, avail[q]));
      && Carried(avail, q, everything, wanted, t)
      && (everything <==> p in t.every)
      && (!everything ==> wanted == NamesOf(t, p))
  {
    var matched := Matched(everything, wanted, avail[q]);
    if !everything {
      assert forall n :: n in wanted && Offered(avail, q, n) ==> n in matched.names;
    }
  }

  lemma CarryForced(facts: Facts, entries: set<Path>, avail: Cache, p: Path, q: Path, everything: bool, wanted: set<Name>, s: Walked)
    requires p in s.reach && p in facts && !IsJson(p) && q in facts[p].star && q in avail
    requires everything <==> p in s.every
    requires !everything ==> wanted == NamesOf(s, p)
    ensures Forced(facts, entries, avail, s, Carry(s, q, Matched(everything, wanted, avail[q])))
  {
    var t := Carry(s, q, Matched(everything, wanted, avail[q]));
    forall u | ClosedUnder(facts, entries, avail, u) && Below(s, u) ensures Below(t, u) {
      assert Carries(facts[p], avail, p, u);
      forall r, n | n in NamesOf(t, r) ensures Asks(u, r, n) {
        if n !in NamesOf(s, r) {
          assert r == q && n in NamesOf(s, p) && Offered(avail, q, n);
          assert Asks(u, p, n);
        }
      }
      if t.reach != s.reach && !everything {
        var n :| n in Matched(everything, wanted, avail[q]).names;
        assert Asks(u, p, n) && Offered(avail, q, n);
      }
    }
  }

  lemma CarryBounded(facts: Facts, p: Path, q: Path, everything: bool, wanted: set<Name>, available: Demand, s: Walked)
    requires Bounded(facts, s) && Tidy(s) && q in facts
    requires !everything ==> wanted == NamesOf(s, p)
    ensures var t := Carry(s, q, Matched(everything, wanted, available));
      Bounded(facts, t) && Tidy(t)
  {
  }

  /** A state closed under the rules for more offers is closed for fewer. */
  lemma FewerOffersClosed(facts: Facts, entries: set<Path>, avail: Cache, later: Cache, t: Walked)
    requires ClosedUnder(facts, entries, later, t) && Extends(avail, later)
    ensures ClosedUnder(facts, entries, avail, t)
  {
    forall p | p in t.reach && p in facts && !IsJson(p)
      ensures Pulls(facts[p], t) && Carries(facts[p], avail, p, t)
    {
      assert Carries(facts[p], later, p, t);
    }
  }

  /** Every closed state above `s` is above `t`. */
  ghost predicate Forced(facts: Facts, entries: set<Path>, avail: Cache, s: Walked, t: Walked) {
    forall u :: ClosedUnder(facts, entries, avail, u) && Below(s, u) ==> Below(t, u)
  }

  lemma ForcedLater(facts: Facts, entries: set<Path>, avail: Cache, later: Cache, s: Walked, t: Walked)
    requires Forced(facts, entries, avail, s, t) && Extends(avail, later)
    ensures Forced(facts, entries, later, s, t)
  {
    forall u | ClosedUnder(facts, entries, later, u) && Below(s, u) ensures Below(t, u) {
      FewerOffersClosed(facts, entries, avail, later, u);
    }
  }

  // ----- The names the walk may ever hold

  ghost function AllNames(facts: Facts): set<Name> {
    set p, q, n | p in facts && q in facts[p].demands && facts[p].demands[q].Names? && n in facts[p].demands[q].names :: n
  }

  ghost predicate Bounded(facts: Facts, t: Walked) {
    && t.reach <= facts.Keys
    && t.every <= facts.Keys
    && t.names.Keys <= facts.Keys
    && forall q :: q in t.names ==> t.names[q] <= AllNames(facts)
  }

  /** What is left to ask by name: with the unreached modules and those not asked for everything,
      the measure of the walk. */
  ghost function Unasked(facts: Facts, t: Walked): set<(Path, Name)> {
    set q, n | q in facts.Keys && n in AllNames(facts) && !Asks(t, q, n) :: (q, n)
  }

  lemma GrowthShrinksMeasure(facts: Facts, s: Walked, t: Walked)
    requires Bounded(facts, s) && Bounded(facts, t) && Advances(s, t, true)
    ensures
      || facts.Keys - t.reach < facts.Keys - s.reach
      || (t.reach == s.reach && facts.Keys - t.every < facts.Keys - s.every)
      || (t.reach == s.reach && t.every == s.every && Unasked(facts, t) < Unasked(facts, s))
  {
    if s.reach != t.reach {
      var q :| q in t.reach && q !in s.reach;
      assert q in facts.Keys - s.reach && q !in facts.Keys - t.reach;
    } else if s.every != t.every {
      var q :| q in t.every && q !in s.every;
      assert q in facts.Keys - s.every && q !in facts.Keys - t.every;
    } else {
      var q, n :| Asks(t, q, n) && !Asks(s, q, n);
      assert n in NamesOf(t, q);
      assert (q, n) in Unasked(facts, s) && (q, n) !in Unasked(facts, t);
    }
  }
}
