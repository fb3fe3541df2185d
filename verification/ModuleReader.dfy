/** How the audit reads one module: each import pulls its target in whole and adds to what is
    asked of it, and a namespace binding asks for the properties read off it. */
module ModuleReader {
  import opened StarSearch
  import opened OrphanWalk

  /** One import, and what it asks of its target. */
  datatype Pull = Pull(to: Path, demand: Demand)

  /** What a list of pulls asks of `to`, whatever their order: everything if one of them does, else
      the names any of them gives. */
  ghost predicate AsksOf(pulls: seq<Pull>, to: Path, demand: Demand) {
    && (demand.Every? <==> Pull(to, Every) in pulls)
    && (demand.Names? ==> forall n :: n in demand.names <==> exists d :: Pull(to, Names(d)) in pulls && n in d)
  }

  ghost predicate Recorded(pulls: seq<Pull>, demands: map<Path, Demand>) {
    forall to ::
      && (to in demands <==> exists d :: Pull(to, d) in pulls)
      && (to in demands ==> AsksOf(pulls, to, demands[to]))
  }

  function Joined(current: Demand, more: Demand): Demand {
    if current.Every? || more.Every? then Every else Names(current.names + more.names)
  }

  class Reader {
    var plain: seq<Path>
    var demands: map<Path, Demand>
    /** What was read so far, in order. */
    ghost var pulls: seq<Pull>

    ghost predicate Valid()
      reads this
    {
      && |plain| == |pulls| && (forall i :: 0 <= i < |pulls| ==> plain[i] == pulls[i].to)
      && Recorded(pulls, demands)
    }

    constructor ()
      ensures Valid() && pulls == []
    {
      plain, demands, pulls := [], map[], [];
    }

    method Ask(to: Path, names: Demand)
      modifies this`demands
      ensures demands == old(demands)[to := if to in old(demands) then Joined(old(demands)[to], names) else names]
    {
      if to in demands && demands[to].Every? {
        assert demands == demands[to := Every];
        return;
      }
      if names.Every? {
        demands := demands[to := Every];
        return;
      }
      if to !in demands {
        demands := demands[to := names];
      } else {
        demands := demands[to := Names(demands[to].names + names.names)];
      }
    }

    method PullIn(to: Path, names: Demand)
      requires Valid()
      modifies this
      ensures Valid() && pulls == old(pulls) + [Pull(to, names)]
    {
      plain := plain + [to];
      Ask(to, names);
      RecordOne(pulls, old(demands), Pull(to, names), demands);
      pulls := pulls + [Pull(to, names)];
    }
  }

  lemma RecordOne(pulls: seq<Pull>, demands: map<Path, Demand>, pull: Pull, after: map<Path, Demand>)
    requires Recorded(pulls, demands)
    requires after == demands[pull.to := if pull.to in demands then Joined(demands[pull.to], pull.demand) else pull.demand]
    ensures Recorded(pulls + [pull], after)
  {
    var more := pulls + [pull];
    forall to
      ensures to in after <==> exists d :: Pull(to, d) in more
      ensures to in after ==> AsksOf(more, to, after[to])
    {
      forall d ensures Pull(to, d) in more <==> Pull(to, d) in pulls || Pull(to, d) == pull {
      }
      if to == pull.to {
        assert Pull(to, pull.demand) in more;
        if to in demands {
          assert AsksOf(pulls, to, demands[to]);
        } else {
          assert forall d :: Pull(to, d) !in pulls;
        }
      } else {
        if to in demands {
          assert AsksOf(pulls, to, demands[to]);
        }
        assert to in after <==> to in demands;
      }
    }
  }

  /** Whatever order the imports come in, and however often each is repeated, the same is asked. */
  lemma OrderOfImportsIsNothing(some: seq<Pull>, others: seq<Pull>, a: map<Path, Demand>, b: map<Path, Demand>)
    requires Recorded(some, a) && Recorded(others, b)
    requires forall pull :: pull in some <==> pull in others
    ensures a == b
  {
    forall to | to in a || to in b ensures to in a && to in b && a[to] == b[to] {
      assert (exists d :: Pull(to, d) in some) <==> (exists d :: Pull(to, d) in others);
      assert AsksOf(some, to, a[to]) && AsksOf(others, to, b[to]);
      if a[to].Names? {
        assert b[to].Names?;
        forall n ensures n in a[to].names <==> n in b[to].names {
        }
        assert a[to].names == b[to].names;
      }
    }
  }

  /** A place where a namespace binding appears: a property read off it, or anything else. */
  datatype Use = Property(namespace: Name, name: Name) | Whole(namespace: Name)

  /** What each namespace binding is used for. */
  method NamespaceUsage(names: set<Name>, uses: seq<Use>) returns (usage: map<Name, Demand>)
    requires forall use :: use in uses ==> use.namespace in names
    ensures usage.Keys == names
    ensures forall ns :: ns in names ==>
      && (usage[ns].Every? <==> Whole(ns) in uses)
      && (usage[ns].Names? ==> forall n :: n in usage[ns].names <==> Property(ns, n) in uses)
  {
    usage := map ns | ns in names :: Names({});
    for i := 0 to |uses|
      invariant usage.Keys == names
      invariant forall ns :: ns in names ==>
        && (usage[ns].Every? <==> Whole(ns) in uses[..i])
        && (usage[ns].Names? ==> forall n :: n in usage[ns].names <==> Property(ns, n) in uses[..i])
    {
      assert uses[..i + 1] == uses[..i] + [uses[i]];
      assert uses[i] in uses;
      match uses[i] {
        case Whole(ns) => usage := usage[ns := Every];
        case Property(ns, name) =>
          if usage[ns].Names? {
            usage := usage[ns := Names(usage[ns].names + {name})];
          }
      }
    }
    assert uses[..|uses|] == uses;
  }
}
