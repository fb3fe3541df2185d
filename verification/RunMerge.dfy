/** The results of several removals of a run, said as one removal says them. */
module RunMerge {
  import opened ListMerge
  import opened Options

  datatype FilesLeft = FilesLeft(count: int, names: seq<string>)

  datatype UndoObject = UndoObject(
    objectApiName: string,
    planned: int, deleted: int, alreadyGone: int, keptChanged: int, keptDependents: int, refused: int,
    notVisible: Option<int>, notReached: Option<int>, heldByAutomation: Option<int>, platformCopies: Option<int>,
    heldBy: seq<string>,
    automationHolders: Option<seq<string>>,
    unchecked: seq<string>,
    reasons: seq<string>,
    filesLeft: Option<FilesLeft>)

  const REASONS_KEPT: nat := 5

  // ----- Two results of one object

  function SumOf(a: Option<int>, b: Option<int>): Option<int> {
    if a.None? && b.None? then None else Some(Or0(a) + Or0(b))
  }

  function Or0(a: Option<int>): int {
    if a.Some? then a.value else 0
  }

  function Listed(a: Option<seq<string>>): seq<string> {
    if a.Some? then a.value else []
  }

  function HoldersOf(a: Option<seq<string>>, b: Option<seq<string>>): Option<seq<string>> {
    var holders := BothOf(Listed(a), Listed(b), None);
    if holders != [] then Some(holders) else None
  }

  function FilesOf(a: Option<FilesLeft>, b: Option<FilesLeft>): Option<FilesLeft> {
    if a.None? && b.None? then None
    else Some(FilesLeft(
      (if a.Some? then a.value.count else 0) + (if b.Some? then b.value.count else 0),
      BothOf(if a.Some? then a.value.names else [], if b.Some? then b.value.names else [], Some(REASONS_KEPT))))
  }

  function Combined(was: UndoObject, more: UndoObject): UndoObject {
    UndoObject(
      more.objectApiName,
      was.planned + more.planned,
      was.deleted + more.deleted,
      was.alreadyGone + more.alreadyGone,
      was.keptChanged + more.keptChanged,
      was.keptDependents + more.keptDependents,
      was.refused + more.refused,
      SumOf(was.notVisible, more.notVisible),
      SumOf(was.notReached, more.notReached),
      SumOf(was.heldByAutomation, more.heldByAutomation),
      SumOf(was.platformCopies, more.platformCopies),
      BothOf(was.heldBy, more.heldBy, None),
      HoldersOf(was.automationHolders, more.automationHolders),
      BothOf(was.unchecked, more.unchecked, None),
      BothOf(was.reasons, more.reasons, Some(REASONS_KEPT)),
      FilesOf(was.filesLeft, more.filesLeft))
  }

  lemma HoldersRegroup(a: Option<seq<string>>, b: Option<seq<string>>, c: Option<seq<string>>)
    ensures HoldersOf(HoldersOf(a, b), c) == HoldersOf(a, HoldersOf(b, c))
  {
    BothOfRegroups(Listed(a), Listed(b), Listed(c), None);
  }

  lemma FilesRegroup(a: Option<FilesLeft>, b: Option<FilesLeft>, c: Option<FilesLeft>)
    ensures FilesOf(FilesOf(a, b), c) == FilesOf(a, FilesOf(b, c))
  {
    var x := if a.Some? then a.value.names else [];
    var y := if b.Some? then b.value.names else [];
    var z := if c.Some? then c.value.names else [];
    BothOfRegroups(x, y, z, Some(REASONS_KEPT));
    if a.None? && b.None? && c.Some? {
      TwiceIsOnce(z);
    }
    if b.None? && c.None? && a.Some? {
      TwiceIsOnce(x);
    }
  }

  lemma TwiceIsOnce(x: seq<string>)
    ensures BothOf([], BothOf([], x, Some(REASONS_KEPT)), Some(REASONS_KEPT)) == BothOf([], x, Some(REASONS_KEPT))
    ensures BothOf(BothOf(x, [], Some(REASONS_KEPT)), [], Some(REASONS_KEPT)) == BothOf(x, [], Some(REASONS_KEPT))
  {
    var kept := Once({}, x, REASONS_KEPT);
    assert [] + x == x && x + [] == x && [] + kept == kept && kept + [] == kept;
    OnceAgain({}, x, REASONS_KEPT);
  }

  /** Combining is independent of grouping, the caps on reasons and file names included. */
  lemma CombinedRegroups(a: UndoObject, b: UndoObject, c: UndoObject)
    ensures Combined(Combined(a, b), c) == Combined(a, Combined(b, c))
  {
    hide BothOf;
    hide HoldersOf;
    hide FilesOf;
    BothOfRegroups(a.heldBy, b.heldBy, c.heldBy, None);
    BothOfRegroups(a.unchecked, b.unchecked, c.unchecked, None);
    BothOfRegroups(a.reasons, b.reasons, c.reasons, Some(REASONS_KEPT));
    HoldersRegroup(a.automationHolders, b.automationHolders, c.automationHolders);
    FilesRegroup(a.filesLeft, b.filesLeft, c.filesLeft);
  }

  // ----- Every result, object by object

  /** One more result: combined with that of its object, or after the others when it is the first. */
  function Into(merged: seq<UndoObject>, o: UndoObject): seq<UndoObject>
    decreases |merged|
  {
    if merged == [] then [o]
    else if merged[0].objectApiName == o.objectApiName then [Combined(merged[0], o)] + merged[1..]
    else [merged[0]] + Into(merged[1..], o)
  }

  function IntoAll(merged: seq<UndoObject>, more: seq<UndoObject>): seq<UndoObject>
    decreases |more|
  {
    if more == [] then merged else IntoAll(Into(merged, more[0]), more[1..])
  }

  function Merged(objects: seq<UndoObject>): seq<UndoObject> {
    IntoAll([], objects)
  }

  lemma MergedFrom(objects: seq<UndoObject>)
    ensures Merged(objects) == IntoAll([], objects)
  {
  }

  function Names(objects: seq<UndoObject>): seq<string> {
    if objects == [] then [] else [objects[0].objectApiName] + Names(objects[1..])
  }

  lemma {:induction false} IntoAllAppend(merged: seq<UndoObject>, a: seq<UndoObject>, b: seq<UndoObject>)
    ensures IntoAll(merged, a + b) == IntoAll(IntoAll(merged, a), b)
    decreases |a|
  {
    if a == [] {
      assert a + b == b;
    } else {
      assert (a + b)[0] == a[0] && (a + b)[1..] == a[1..] + b;
      IntoAllAppend(Into(merged, a[0]), a[1..], b);
    }
  }

  // ----- Grouping

  lemma {:induction false} IntoTwice(merged: seq<UndoObject>, z: UndoObject, y: UndoObject)
    requires z.objectApiName == y.objectApiName
    ensures Into(Into(merged, z), y) == Into(merged, Combined(z, y))
    decreases |merged|
  {
    if merged != [] {
      if merged[0].objectApiName == z.objectApiName {
        CombinedRegroups(merged[0], z, y);
        assert Into(merged, z)[1..] == merged[1..];
      } else {
        IntoTwice(merged[1..], z, y);
        assert Into(merged, z)[1..] == Into(merged[1..], z);
      }
    }
  }

  /** Results of two objects, one already listed, may come in either order. */
  lemma {:induction false} IntoCommutes(merged: seq<UndoObject>, y: UndoObject, w: UndoObject)
    requires y.objectApiName != w.objectApiName && y.objectApiName in Names(merged)
    ensures Into(Into(merged, y), w) == Into(Into(merged, w), y)
    decreases |merged|
  {
    var name := merged[0].objectApiName;
    if name == y.objectApiName {
      assert Into(merged, y)[1..] == merged[1..] && Into(merged, w)[1..] == Into(merged[1..], w);
    } else if name == w.objectApiName {
      assert Into(merged, w)[1..] == merged[1..] && Into(merged, y)[1..] == Into(merged[1..], y);
    } else {
      IntoCommutes(merged[1..], y, w);
      assert Into(merged, y)[1..] == Into(merged[1..], y) && Into(merged, w)[1..] == Into(merged[1..], w);
    }
  }

  lemma {:induction false} IntoNames(merged: seq<UndoObject>, o: UndoObject)
    ensures Names(Into(merged, o)) ==
            if o.objectApiName in Names(merged) then Names(merged) else Names(merged) + [o.objectApiName]
    decreases |merged|
  {
    if merged != [] {
      if merged[0].objectApiName == o.objectApiName {
        assert Into(merged, o)[1..] == merged[1..];
      } else {
        IntoNames(merged[1..], o);
        assert Into(merged, o)[1..] == Into(merged[1..], o);
      }
    }
  }

  lemma {:induction false} PastOthers(merged: seq<UndoObject>, y: UndoObject, others: seq<UndoObject>)
    requires y.objectApiName in Names(merged) && y.objectApiName !in Names(others)
    ensures IntoAll(Into(merged, y), others) == Into(IntoAll(merged, others), y)
    decreases |others|
  {
    if others != [] {
      IntoCommutes(merged, y, others[0]);
      IntoNames(merged, others[0]);
      PastOthers(Into(merged, others[0]), y, others[1..]);
    }
  }

  lemma {:induction false} OneMoreOfMerged(merged: seq<UndoObject>, m: seq<UndoObject>, y: UndoObject)
    requires EachOnce(Names(m))
    ensures IntoAll(merged, Into(m, y)) == Into(IntoAll(merged, m), y)
    decreases |m|
  {
    if m == [] {
      assert [y][1..] == [];
    } else if m[0].objectApiName == y.objectApiName {
      assert Into(m, y)[1..] == m[1..];
      IntoTwice(merged, m[0], y);
      IntoNames(merged, m[0]);
      PastOthers(Into(merged, m[0]), y, m[1..]);
    } else {
      assert Into(m, y)[1..] == Into(m[1..], y);
      OneMoreOfMerged(Into(merged, m[0]), m[1..], y);
    }
  }

  /** Each object is listed once, in the order the results first name it. */
  lemma {:induction false} MergedNames(merged: seq<UndoObject>, more: seq<UndoObject>)
    ensures Names(IntoAll(merged, more)) ==
            Names(merged) + Once(SetOf(Names(merged)), Names(more), |Names(more)|)
    decreases |more|
  {
    if more != [] {
      var o := more[0];
      var next := Into(merged, o);
      IntoNames(merged, o);
      MergedNames(next, more[1..]);
      assert Names(more)[1..] == Names(more[1..]);
      if o.objectApiName in Names(merged) {
        EnoughIsEnough(SetOf(Names(merged)), Names(more[1..]), |Names(more)|);
      } else {
        assert SetOf(Names(next)) == SetOf(Names(merged)) + {o.objectApiName};
      }
    }
  }

  /** The merge lists each object once, in the order the results first name it. */
  lemma EachObjectOnce(objects: seq<UndoObject>)
    ensures Names(Merged(objects)) == Once({}, Names(objects), |Names(objects)|)
    ensures EachOnce(Names(Merged(objects)))
  {
    MergedNames([], objects);
    OnceEach({}, Names(objects), |Names(objects)|);
    var once := Once({}, Names(objects), |Names(objects)|);
    assert SetOf([]) == {} && [] + once == once;
  }

  /** No counter is lost or counted twice, those that may be absent included. */
  lemma MergeConserves(c: Counter, objects: seq<UndoObject>)
    ensures Total(c, Merged(objects)) == Total(c, objects)
  {
    IntoAllConserves(c, [], objects);
  }

  /** Merging two lists that were merged is merging the results themselves. */
  lemma {:induction false} MergedOfMerged(merged: seq<UndoObject>, more: seq<UndoObject>)
    ensures IntoAll(merged, Merged(more)) == IntoAll(merged, more)
    decreases |more|
  {
    if more != [] {
      var n := |more| - 1;
      var init, y := more[..n], more[n];
      assert more == init + [y] && [y][1..] == [];
      IntoAllAppend([], init, [y]);
      IntoAllAppend(merged, init, [y]);
      EachObjectOnce(init);
      OneMoreOfMerged(merged, Merged(init), y);
      MergedOfMerged(merged, init);
    }
  }

  /** The merge is independent of grouping. */
  lemma MergeRegroups(xs: seq<UndoObject>, ys: seq<UndoObject>)
    ensures Merged(Merged(xs) + Merged(ys)) == Merged(xs + ys)
  {
    IntoAllAppend([], Merged(xs), Merged(ys));
    MergedOfMerged([], xs);
    MergedOfMerged(Merged(xs), ys);
    IntoAllAppend([], xs, ys);
  }

  // ----- Conservation

  datatype Counter =
    | Planned | Deleted | AlreadyGone | KeptChanged | KeptDependents | Refused
    | NotVisible | NotReached | HeldByAutomation | PlatformCopies | Files

  function Count(c: Counter, o: UndoObject): int {
    match c
    case Planned => o.planned
    case Deleted => o.deleted
    case AlreadyGone => o.alreadyGone
    case KeptChanged => o.keptChanged
    case KeptDependents => o.keptDependents
    case Refused => o.refused
    case NotVisible => Or0(o.notVisible)
    case NotReached => Or0(o.notReached)
    case HeldByAutomation => Or0(o.heldByAutomation)
    case PlatformCopies => Or0(o.platformCopies)
    case Files => if o.filesLeft.Some? then o.filesLeft.value.count else 0
  }

  function Total(c: Counter, objects: seq<UndoObject>): int {
    if objects == [] then 0 else Count(c, objects[0]) + Total(c, objects[1..])
  }

  lemma {:induction false} IntoConserves(c: Counter, merged: seq<UndoObject>, o: UndoObject)
    ensures Total(c, Into(merged, o)) == Total(c, merged) + Count(c, o)
    decreases |merged|
  {
    if merged != [] {
      if merged[0].objectApiName == o.objectApiName {
        assert Into(merged, o)[1..] == merged[1..];
      } else {
        IntoConserves(c, merged[1..], o);
        assert Into(merged, o)[1..] == Into(merged[1..], o);
      }
    }
  }

  lemma {:induction false} IntoAllConserves(c: Counter, merged: seq<UndoObject>, more: seq<UndoObject>)
    ensures Total(c, IntoAll(merged, more)) == Total(c, merged) + Total(c, more)
    decreases |more|
  {
    if more != [] {
      IntoConserves(c, merged, more[0]);
      IntoAllConserves(c, Into(merged, more[0]), more[1..]);
    }
  }

  // ----- What the merged results hold, said without merging

  datatype ListField = HeldBy | Holders | Unchecked | Reasons | FileNames

  function ListOf(field: ListField, o: UndoObject): seq<string> {
    match field
    case HeldBy => o.heldBy
    case Holders => Listed(o.automationHolders)
    case Unchecked => o.unchecked
    case Reasons => o.reasons
    case FileNames => if o.filesLeft.Some? then o.filesLeft.value.names else []
  }

  /** All a group of results says of one field, one after the other. */
  function Mentioned(field: ListField, group: seq<UndoObject>): seq<string> {
    if group == [] then [] else Mentioned(field, group[..|group| - 1]) + ListOf(field, group[|group| - 1])
  }

  /** The results of one object. */
  function Of(objects: seq<UndoObject>, name: string): (group: seq<UndoObject>)
    ensures forall o :: o in group <==> o in objects && o.objectApiName == name
  {
    if objects == [] then []
    else
      var n := |objects| - 1;
      Of(objects[..n], name) + if objects[n].objectApiName == name then [objects[n]] else []
  }

  /** A result gives this count, which some need not. */
  predicate Says(c: Counter, o: UndoObject) {
    match c
    case NotVisible => o.notVisible.Some?
    case NotReached => o.notReached.Some?
    case HeldByAutomation => o.heldByAutomation.Some?
    case PlatformCopies => o.platformCopies.Some?
    case Files => o.filesLeft.Some?
    case _ => true
  }

  /** Any of the group says it. */
  ghost predicate AnySays(c: Counter, group: seq<UndoObject>) {
    exists k :: 0 <= k < |group| && Says(c, group[k])
  }

  /** The entry of a group of results: the one there is as it is; of more, the lists hold each entry
      once in the order it is first mentioned, reasons and file names the first five of them, and what may
      be absent is absent when all leave it out. */
  ghost predicate Sums(m: UndoObject, group: seq<UndoObject>) {
    && (|group| == 1 ==> m == group[0])
    && (|group| >= 2 ==>
         && m.heldBy == Firsts(Mentioned(HeldBy, group))
         && m.unchecked == Firsts(Mentioned(Unchecked, group))
         && m.reasons == UpTo(5, Firsts(Mentioned(Reasons, group)))
         && (m.automationHolders.Some? ==> m.automationHolders.value == Firsts(Mentioned(Holders, group)))
         && (m.automationHolders.Some? <==> exists k :: 0 <= k < |group| && ListOf(Holders, group[k]) != [])
         && (m.filesLeft.Some? ==> m.filesLeft.value.names == UpTo(5, Firsts(Mentioned(FileNames, group))))
         && (m.filesLeft.Some? <==> AnySays(Files, group)))
    && (m.notVisible.Some? <==> AnySays(NotVisible, group))
    && (m.notReached.Some? <==> AnySays(NotReached, group))
    && (m.heldByAutomation.Some? <==> AnySays(HeldByAutomation, group))
    && (m.platformCopies.Some? <==> AnySays(PlatformCopies, group))
    && (forall c: Counter :: Count(c, m) == Total(c, group))
  }

  /** A group of results, combined in order. */
  ghost function Joined(group: seq<UndoObject>): UndoObject
    requires group != []
  {
    var n := |group| - 1;
    if n == 0 then group[0] else Combined(Joined(group[..n]), group[n])
  }

  function Kept(field: ListField, s: seq<string>): seq<string> {
    if field == Reasons || field == FileNames then UpTo(REASONS_KEPT, s) else s
  }

  lemma CombinedList(field: ListField, was: UndoObject, more: UndoObject)
    ensures ListOf(field, Combined(was, more)) == Kept(field, Firsts(ListOf(field, was) + ListOf(field, more)))
  {
    hide Once;
    hide Firsts;
    var both := ListOf(field, was) + ListOf(field, more);
    OnceIsFirsts(both, |both|);
    OnceAllIsFirsts(both, |both|);
    OnceIsFirsts(both, REASONS_KEPT);
    NoneKept({}, [], REASONS_KEPT);
  }

  lemma {:induction false} JoinedList(field: ListField, group: seq<UndoObject>)
    requires |group| >= 2
    ensures ListOf(field, Joined(group)) == Kept(field, Firsts(Mentioned(field, group)))
    decreases |group|
  {
    hide Firsts;
    hide Combined;
    hide ListOf;
    var n := |group| - 1;
    var init := group[..n];
    CombinedList(field, Joined(init), group[n]);
    if n == 1 {
      assert Mentioned(field, init) == [] + ListOf(field, group[0]);
      assert [] + ListOf(field, group[0]) == ListOf(field, group[0]);
    } else {
      JoinedList(field, init);
      FirstsOfFirsts(Mentioned(field, init), ListOf(field, group[n]), REASONS_KEPT);
    }
  }

  lemma {:induction false} NothingMentioned(field: ListField, group: seq<UndoObject>)
    ensures Mentioned(field, group) != [] <==> exists k :: 0 <= k < |group| && ListOf(field, group[k]) != []
    decreases |group|
  {
    hide ListOf;
    if group != [] {
      NothingMentioned(field, group[..|group| - 1]);
    }
  }

  lemma CombinedSays(c: Counter, was: UndoObject, more: UndoObject)
    ensures Says(c, Combined(was, more)) <==> Says(c, was) || Says(c, more)
  {
    hide BothOf;
    hide HoldersOf;
  }

  lemma {:induction false} JoinedSays(c: Counter, group: seq<UndoObject>)
    requires group != []
    ensures Says(c, Joined(group)) <==> exists k :: 0 <= k < |group| && Says(c, group[k])
    decreases |group|
  {
    hide Says;
    hide Combined;
    var n := |group| - 1;
    if n > 0 {
      var init := group[..n];
      assert forall k :: 0 <= k < n ==> init[k] == group[k];
      JoinedSays(c, init);
      CombinedSays(c, Joined(init), group[n]);
    }
  }

  lemma JoinedHas(group: seq<UndoObject>)
    requires group != []
    ensures var m := Joined(group);
      && (m.filesLeft.Some? <==> AnySays(Files, group))
      && (m.notVisible.Some? <==> AnySays(NotVisible, group))
      && (m.notReached.Some? <==> AnySays(NotReached, group))
      && (m.heldByAutomation.Some? <==> AnySays(HeldByAutomation, group))
      && (m.platformCopies.Some? <==> AnySays(PlatformCopies, group))
  {
    hide Joined;
    JoinedSays(Files, group);
    JoinedSays(NotVisible, group);
    JoinedSays(NotReached, group);
    JoinedSays(HeldByAutomation, group);
    JoinedSays(PlatformCopies, group);
  }

  lemma {:induction false} TotalAppend(c: Counter, objects: seq<UndoObject>, o: UndoObject)
    ensures Total(c, objects + [o]) == Total(c, objects) + Count(c, o)
    decreases |objects|
  {
    hide Count;
    if objects == [] {
      assert [o][1..] == [] && objects + [o] == [o];
    } else {
      assert (objects + [o])[1..] == objects[1..] + [o];
      TotalAppend(c, objects[1..], o);
    }
  }

  lemma CombinedCounts(c: Counter, was: UndoObject, more: UndoObject)
    ensures Count(c, Combined(was, more)) == Count(c, was) + Count(c, more)
  {
    hide BothOf;
    hide HoldersOf;
  }

  lemma {:induction false} JoinedCounts(c: Counter, group: seq<UndoObject>)
    requires group != []
    ensures Count(c, Joined(group)) == Total(c, group)
    decreases |group|
  {
    hide Count;
    hide Combined;
    var n := |group| - 1;
    assert group == group[..n] + [group[n]];
    TotalAppend(c, group[..n], group[n]);
    if n > 0 {
      JoinedCounts(c, group[..n]);
      CombinedCounts(c, Joined(group[..n]), group[n]);
    } else {
      assert group[..0] == [];
    }
  }

  lemma JoinedHolders(group: seq<UndoObject>)
    requires |group| >= 2
    ensures var m := Joined(group);
      && (m.automationHolders.Some? ==> m.automationHolders.value == Firsts(Mentioned(Holders, group)))
      && (m.automationHolders.Some? <==> exists k :: 0 <= k < |group| && ListOf(Holders, group[k]) != [])
  {
    hide BothOf;
    hide Firsts;
    var m := Joined(group);
    JoinedList(Holders, group);
    NothingMentioned(Holders, group);
    FirstsHold(Mentioned(Holders, group));
    assert Firsts([]) == [] by {
      FirstsHold([]);
    }
    assert m.automationHolders.Some? ==> m.automationHolders.value != [];
    if Mentioned(Holders, group) != [] {
      assert Mentioned(Holders, group)[0] in SetOf(Firsts(Mentioned(Holders, group)));
    }
  }

  lemma JoinedSums(group: seq<UndoObject>)
    requires group != []
    ensures Sums(Joined(group), group)
  {
    hide Combined;
    hide Firsts;
    hide Count;
    hide Total;
    hide UpTo;
    hide Mentioned;
    var m := Joined(group);
    if |group| >= 2 {
      JoinedHolders(group);
      JoinedList(HeldBy, group);
      JoinedList(Unchecked, group);
      JoinedList(Reasons, group);
      JoinedList(FileNames, group);
    }
    JoinedHas(group);
    forall c: Counter {
      JoinedCounts(c, group);
    }
  }

  /** The results of each object merged so far, combined. */
  ghost predicate Grouped(merged: seq<UndoObject>, objects: seq<UndoObject>) {
    forall i :: 0 <= i < |merged| ==>
      var group := Of(objects, merged[i].objectApiName);
      group != [] && merged[i] == Joined(group)
  }

  lemma {:induction false} IntoAt(merged: seq<UndoObject>, o: UndoObject, i: nat)
    requires EachOnce(Names(merged)) && i < |Into(merged, o)|
    ensures |merged| <= |Into(merged, o)| <= |merged| + 1
    ensures var m := Into(merged, o)[i];
      if i == |merged| then m == o && o.objectApiName !in Names(merged)
      else if merged[i].objectApiName == o.objectApiName then m == Combined(merged[i], o)
      else m == merged[i]
    decreases |merged|
  {
    hide Combined;
    if merged != [] {
      if merged[0].objectApiName == o.objectApiName {
        if 0 < i {
          NamesAt(merged[1..], i - 1);
        }
      } else {
        IntoLength(merged, o);
        if 0 < i {
          IntoAt(merged[1..], o, i - 1);
        }
      }
    }
  }

  lemma {:induction false} IntoLength(merged: seq<UndoObject>, o: UndoObject)
    ensures |merged| <= |Into(merged, o)| <= |merged| + 1
    decreases |merged|
  {
    if merged != [] && merged[0].objectApiName != o.objectApiName {
      IntoLength(merged[1..], o);
    }
  }

  lemma {:induction false} NamesAt(objects: seq<UndoObject>, i: nat)
    requires i < |objects|
    ensures objects[i].objectApiName in Names(objects)
  {
    if i > 0 {
      NamesAt(objects[1..], i - 1);
    }
  }

  lemma NamedInMerged(objects: seq<UndoObject>, name: string)
    requires Of(objects, name) != []
    ensures name in Names(Merged(objects))
  {
    hide Merged;
    EachObjectOnce(objects);
    OnceAllIsFirsts(Names(objects), |Names(objects)|);
    FirstsHold(Names(objects));
    var o := Of(objects, name)[0];
    assert o in Of(objects, name);
    var k :| 0 <= k < |objects| && objects[k] == o;
    NamesAt(objects, k);
    assert name in SetOf(Names(objects));
  }

  lemma OfAppend(objects: seq<UndoObject>, o: UndoObject, name: string)
    ensures Of(objects + [o], name) == Of(objects, name) + if o.objectApiName == name then [o] else []
  {
    assert (objects + [o])[..|objects|] == objects;
  }

  lemma JoinedAppend(group: seq<UndoObject>, o: UndoObject)
    requires group != []
    ensures Joined(group + [o]) == Combined(Joined(group), o)
  {
    hide Combined;
    assert (group + [o])[..|group|] == group;
  }

  lemma GroupedAt(objects: seq<UndoObject>, o: UndoObject, i: nat)
    requires Grouped(Merged(objects), objects) && i < |Into(Merged(objects), o)|
    ensures var m := Into(Merged(objects), o)[i];
      var group := Of(objects + [o], m.objectApiName);
      group != [] && m == Joined(group)
  {
    hide Combined;
    hide Merged;
    hide Into;
    hide Of;
    var merged := Merged(objects);
    EachObjectOnce(objects);
    IntoAt(merged, o, i);
    var m := Into(merged, o)[i];
    OfAppend(objects, o, m.objectApiName);
    if i == |merged| {
      if Of(objects, m.objectApiName) != [] {
        NamedInMerged(objects, m.objectApiName);
        assert false;
      }
      assert [] + [o] == [o];
    } else if merged[i].objectApiName == o.objectApiName {
      CombinedName(merged[i], o);
      JoinedAppend(Of(objects, o.objectApiName), o);
    } else {
      var group := Of(objects, m.objectApiName);
      assert group + [] == group;
    }
  }

  lemma GroupedInto(objects: seq<UndoObject>, o: UndoObject)
    requires Grouped(Merged(objects), objects)
    ensures Grouped(Into(Merged(objects), o), objects + [o])
  {
    hide Merged;
    hide Into;
    hide Of;
    hide Joined;
    var merged := Into(Merged(objects), o);
    forall i | 0 <= i < |merged|
      ensures var group := Of(objects + [o], merged[i].objectApiName);
        group != [] && merged[i] == Joined(group)
    {
      GroupedAt(objects, o, i);
    }
  }

  lemma CombinedName(was: UndoObject, more: UndoObject)
    ensures Combined(was, more).objectApiName == more.objectApiName
  {
    hide BothOf;
    hide HoldersOf;
    hide FilesOf;
  }

  lemma {:induction false} AllGrouped(objects: seq<UndoObject>)
    ensures Grouped(Merged(objects), objects)
    decreases |objects|
  {
    if objects != [] {
      var n := |objects| - 1;
      var init, o := objects[..n], objects[n];
      assert objects == init + [o] && [o][1..] == [];
      AllGrouped(init);
      IntoAllAppend([], init, [o]);
      GroupedInto(init, o);
    }
  }

  /** The merge has one entry for each object, in the order the results first name it, and each entry
      is what the results of its object come to. */
  ghost predicate SumsUp(merged: seq<UndoObject>, objects: seq<UndoObject>) {
    && Names(merged) == Firsts(Names(objects))
    && forall i :: 0 <= i < |merged| ==> Sums(merged[i], Of(objects, merged[i].objectApiName))
  }

  lemma MergedSums(objects: seq<UndoObject>)
    ensures SumsUp(Merged(objects), objects)
  {
    hide Joined;
    hide Sums;
    hide Merged;
    var merged := Merged(objects);
    EachObjectOnce(objects);
    OnceAllIsFirsts(Names(objects), |Names(objects)|);
    AllGrouped(objects);
    forall i | 0 <= i < |merged|
      ensures Sums(merged[i], Of(objects, merged[i].objectApiName))
    {
      JoinedSums(Of(objects, merged[i].objectApiName));
    }
  }

  // ----- The loop over a map kept in the order its keys came

  function Values(order: seq<string>, byName: map<string, UndoObject>): seq<UndoObject>
    requires forall name :: name in order ==> name in byName
  {
    if order == [] then [] else [byName[order[0]]] + Values(order[1..], byName)
  }

  ghost predicate Keyed(order: seq<string>, byName: map<string, UndoObject>) {
    && EachOnce(order)
    && (forall name :: name in byName <==> name in order)
    && (forall name :: name in byName ==> byName[name].objectApiName == name)
  }

  lemma {:induction false} ValuesElsewhere(order: seq<string>, byName: map<string, UndoObject>, name: string, o: UndoObject)
    requires (forall n :: n in order ==> n in byName) && name !in order
    ensures Values(order, byName[name := o]) == Values(order, byName)
    decreases |order|
  {
    if order != [] {
      ValuesElsewhere(order[1..], byName, name, o);
    }
  }

  lemma {:induction false} ValuesInto(order: seq<string>, byName: map<string, UndoObject>, o: UndoObject)
    requires EachOnce(order) && forall n :: n in order ==> n in byName && byName[n].objectApiName == n
    ensures var name := o.objectApiName;
      Into(Values(order, byName), o) ==
      if name in order then Values(order, byName[name := Combined(byName[name], o)])
      else Values(order, byName) + [o]
    decreases |order|
  {
    if order != [] {
      var name := o.objectApiName;
      assert Values(order, byName)[1..] == Values(order[1..], byName);
      if order[0] == name {
        ValuesElsewhere(order[1..], byName, name, Combined(byName[name], o));
      } else {
        ValuesInto(order[1..], byName, o);
      }
    }
  }

  lemma {:induction false} ValuesAppend(order: seq<string>, byName: map<string, UndoObject>, name: string)
    requires (forall n :: n in order ==> n in byName) && name in byName
    ensures Values(order + [name], byName) == Values(order, byName) + [byName[name]]
    decreases |order|
  {
    if order != [] {
      assert (order + [name])[1..] == order[1..] + [name];
      ValuesAppend(order[1..], byName, name);
    } else {
      assert [name][1..] == [];
    }
  }

  method MergedUndoObjects(objects: seq<UndoObject>) returns (merged: seq<UndoObject>)
    ensures merged == Merged(objects)
    ensures SumsUp(merged, objects)
  {
    hide SumsUp;
    hide Combined;
    hide Merged;
    MergedFrom(objects);
    var order: seq<string> := [];
    var byName: map<string, UndoObject> := map[];
    var i := 0;
    assert objects[0..] == objects;
    while i < |objects|
      invariant 0 <= i <= |objects| && Keyed(order, byName)
      invariant IntoAll(Values(order, byName), objects[i..]) == Merged(objects)
    {
      var o := objects[i];
      var name := o.objectApiName;
      assert objects[i..][0] == o && objects[i..][1..] == objects[i + 1..];
      ValuesInto(order, byName, o);
      if name in byName {
        CombinedName(byName[name], o);
        byName := byName[name := Combined(byName[name], o)];
      } else {
        ValuesElsewhere(order, byName, name, o);
        EachOnceAppend(order, name);
        byName := byName[name := o];
        ValuesAppend(order, byName, name);
        order := order + [name];
      }
      i := i + 1;
    }
    assert objects[i..] == [];
    merged := Values(order, byName);
    MergedSums(objects);
  }
}
