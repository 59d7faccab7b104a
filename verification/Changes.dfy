/** The change of best path, and of the list of equally good paths, that each recalculation
    announces to neighbours without ADD-PATH, and when folding those changes is the same as
    recomputing from the known paths. */
module Changes {
  import opened Common
  import opened AsPaths
  import opened BestPath
  import opened Destinations

  /** Whose view of the table is asked for: everybody's, or a route-server client's, which
      excludes its own paths and those that would loop. */
  datatype Viewer = Global | Client(address: nat)

  predicate RsFilter(viewer: Viewer, asn: nat, p: Path) {
    viewer.Client? && (p.route.source.address == Some(viewer.address) || asn in AsList(p.route.Path()))
  }

  /** The first path the viewer may use: the definition the changes are measured against. */
  function BestOf(viewer: Viewer, asn: nat, paths: seq<Path>): Option<Path> {
    if paths == [] then None
    else if RsFilter(viewer, asn, paths[0]) then BestOf(viewer, asn, paths[1..])
    else Some(paths[0])
  }

  method GetBestPath(viewer: Viewer, asn: nat, pathList: seq<Path>) returns (best: Option<Path>)
    ensures best == BestOf(viewer, asn, pathList)
  {
    for i := 0 to |pathList|
      invariant BestOf(viewer, asn, pathList) == BestOf(viewer, asn, pathList[i..])
    {
      if RsFilter(viewer, asn, pathList[i]) {
        continue;
      }
      return Some(pathList[i]);
    }
    return None;
  }

  /** The best path of a table that forwards: an unreachable next hop disqualifies it. */
  function Usable(best: Option<Path>): Option<Path> {
    if best.Some? && best.value.route.nexthopInvalid then None else best
  }

  /** Equality of optional paths as the code sees it: same source and same attributes. */
  predicate Agree(a: Option<Path>, b: Option<Path>) {
    if a.Some? && b.Some? then a.value.route.Equal(b.value.route) else a == b
  }

  /** What is sent: nothing, the withdrawal of a path, or a path. */
  datatype Change = Nothing | Withdrawal(gone: Path) | Announcement(best: Path)

  /** The neighbour's view after a change. */
  function Apply(view: Option<Path>, c: Change): Option<Path> {
    match c
    case Nothing => view
    case Withdrawal(_) => None
    case Announcement(p) => Some(p)
  }

  /** The change of best path. `rtc` tells whether the family is route-target membership. */
  function BestChange(viewer: Viewer, asn: nat, rtc: bool, u: Update): Change {
    var before, best := BestOf(viewer, asn, u.previous), BestOf(viewer, asn, u.known);
    if best.Some? && before.Some? && best.value.route.Equal(before.value.route) then
      if rtc then Announcement(best.value)
      else if best.value.route.nexthopInvalid != before.value.route.nexthopInvalid then
        if best.value.route.nexthopInvalid then Withdrawal(best.value) else Announcement(best.value)
      else Nothing
    else if best == None then
      if before == None then Nothing else Withdrawal(before.value)
    else Announcement(best.value)
  }

  /** The case in which a change does not amount to recomputing: the new best path has an
      unreachable next hop and is announced all the same. */
  predicate AnnouncesUnreachable(viewer: Viewer, asn: nat, rtc: bool, u: Update) {
    var before, best := BestOf(viewer, asn, u.previous), BestOf(viewer, asn, u.known);
    best.Some? && best.value.route.nexthopInvalid && (rtc || !Agree(best, before))
  }

  /** A view that was right before a recalculation is right after its change, unless the change
      announces an unreachable path; and then it is wrong. */
  lemma ChangeIsRecomputation(viewer: Viewer, asn: nat, rtc: bool, u: Update, view: Option<Path>)
    requires Agree(view, Usable(BestOf(viewer, asn, u.previous)))
    ensures Agree(Apply(view, BestChange(viewer, asn, rtc, u)), Usable(BestOf(viewer, asn, u.known))) <==>
            !AnnouncesUnreachable(viewer, asn, rtc, u)
  {
    var before, best := BestOf(viewer, asn, u.previous), BestOf(viewer, asn, u.known);
    if best.Some? && before.Some? && best.value.route.Equal(before.value.route) {
      assert before.value.route.Equal(best.value.route);
    }
  }

  /** The view after the recalculations that led from `lists[0]` through each of the lists. */
  function ViewAfter(viewer: Viewer, asn: nat, rtc: bool, lists: seq<seq<Path>>, n: nat): Option<Path>
    requires n < |lists|
  {
    if n == 0 then None
    else Apply(ViewAfter(viewer, asn, rtc, lists, n - 1), BestChange(viewer, asn, rtc, Update(lists[n], lists[n - 1])))
  }

  predicate RightAfter(viewer: Viewer, asn: nat, rtc: bool, lists: seq<seq<Path>>, n: nat)
    requires n < |lists|
  {
    Agree(ViewAfter(viewer, asn, rtc, lists, n), Usable(BestOf(viewer, asn, lists[n])))
  }

  lemma {:induction false} QuietRunIsRight(viewer: Viewer, asn: nat, rtc: bool, lists: seq<seq<Path>>, n: nat)
    requires n < |lists| && lists[0] == []
    requires forall i :: 0 < i <= n ==> !AnnouncesUnreachable(viewer, asn, rtc, Update(lists[i], lists[i - 1]))
    ensures RightAfter(viewer, asn, rtc, lists, n)
  {
    if n > 0 {
      QuietRunIsRight(viewer, asn, rtc, lists, n - 1);
      ChangeIsRecomputation(viewer, asn, rtc, Update(lists[n], lists[n - 1]),
                            ViewAfter(viewer, asn, rtc, lists, n - 1));
    }
  }

  /** Over every run, for the global table and for every route-server client: folding the changes
      agrees with the usable best path after each recalculation if and only if none of them
      announced an unreachable path. */
  lemma DeltasAreRecomputation(viewer: Viewer, asn: nat, rtc: bool, lists: seq<seq<Path>>)
    requires lists != [] && lists[0] == []
    ensures (forall n :: 0 <= n < |lists| ==> RightAfter(viewer, asn, rtc, lists, n)) <==>
            (forall i :: 0 < i < |lists| ==> !AnnouncesUnreachable(viewer, asn, rtc, Update(lists[i], lists[i - 1])))
  {
    if forall n :: 0 <= n < |lists| ==> RightAfter(viewer, asn, rtc, lists, n) {
      forall i | 0 < i < |lists| ensures !AnnouncesUnreachable(viewer, asn, rtc, Update(lists[i], lists[i - 1])) {
        assert RightAfter(viewer, asn, rtc, lists, i - 1) && RightAfter(viewer, asn, rtc, lists, i);
        ChangeIsRecomputation(viewer, asn, rtc, Update(lists[i], lists[i - 1]),
                              ViewAfter(viewer, asn, rtc, lists, i - 1));
      }
    }
    if forall i :: 0 < i < |lists| ==> !AnnouncesUnreachable(viewer, asn, rtc, Update(lists[i], lists[i - 1])) {
      forall n | 0 <= n < |lists| ensures RightAfter(viewer, asn, rtc, lists, n) {
        QuietRunIsRight(viewer, asn, rtc, lists, n);
      }
    }
  }

  /** The first path of a prefix is announced although its next hop is unreachable. */
  lemma UnreachableIsAnnounced(p: Path)
    requires p.route.nexthopInvalid
    ensures !RightAfter(Global, 0, false, [[], [p]], 1)
  {
    var lists := [[], [p]];
    assert BestOf(Global, 0, [p]) == Some(p);
    assert ViewAfter(Global, 0, false, lists, 0) == None;
  }

  // ----- Multipath

  /** The code's comparison of two paths for multipath, of which only "is zero" is meaningful:
      the differences are computed on unsigned values. A missing ORIGIN or MED counts as zero. */
  predicate SameRank(a: Route, b: Route) {
    && a.IsLocal() == b.IsLocal() && a.IsIbgp() == b.IsIbgp()
    && a.LocalPref() == b.LocalPref() && AsPathLen(a.Path()) == AsPathLen(b.Path())
    && (if a.attrs.origin.Some? then a.attrs.origin.value else 0) ==
      (if b.attrs.origin.Some? then b.attrs.origin.value else 0)
    && a.Med() == b.Med()
  }

  function Reachable(paths: seq<Path>): seq<Path> {
    if paths == [] then []
    else
      var n := |paths| - 1;
      Reachable(paths[..n]) + if paths[n].route.nexthopInvalid then [] else [paths[n]]
  }

  function OfRank(best: Route, paths: seq<Path>): seq<Path> {
    if paths == [] then []
    else
      var n := |paths| - 1;
      OfRank(best, paths[..n]) + if SameRank(best, paths[n].route) then [paths[n]] else []
  }

  /** The paths that rank the same as the first one. */
  function OfFirstRank(paths: seq<Path>): seq<Path> {
    if paths == [] then [] else OfRank(paths[0].route, paths)
  }

  /** The first reachable path and every reachable path that ranks the same. */
  function MultiBestOf(paths: seq<Path>): seq<Path> {
    OfFirstRank(Reachable(paths))
  }

  lemma ReachableGrows(paths: seq<Path>, n: nat)
    requires n < |paths|
    ensures Reachable(paths[..n + 1]) ==
              if paths[n].route.nexthopInvalid then Reachable(paths[..n]) else Reachable(paths[..n]) + [paths[n]]
  {
    assert paths[..n + 1][..n] == paths[..n];
    assert Reachable(paths[..n]) + [] == Reachable(paths[..n]);
  }

  lemma FirstRankGrows(r: seq<Path>, p: Path)
    ensures OfFirstRank(r + [p]) ==
              if r == [] then [p] else if SameRank(r[0].route, p.route) then OfFirstRank(r) + [p] else OfFirstRank(r)
  {
    assert (r + [p])[..|r|] == r && (r + [p])[|r|] == p;
    if r == [] {
      assert OfRank(p.route, r + [p]) == [] + [p];
    } else {
      assert OfFirstRank(r) + [] == OfFirstRank(r);
    }
  }

  method GetMultiBestPath(pathList: seq<Path>) returns (list: seq<Path>)
    ensures list == MultiBestOf(pathList)
  {
    list := [];
    var best: Path? := null;
    for i := 0 to |pathList|
      invariant if best == null then Reachable(pathList[..i]) == []
                else Reachable(pathList[..i]) != [] && best == Reachable(pathList[..i])[0]
      invariant list == MultiBestOf(pathList[..i])
    {
      var p := pathList[i];
      ReachableGrows(pathList, i);
      FirstRankGrows(Reachable(pathList[..i]), p);
      if !p.route.nexthopInvalid {
        if best == null {
          best := p;
          list := list + [p];
        } else if SameRank(best.route, p.route) {
          list := list + [p];
        }
      }
    }
    assert pathList[..|pathList|] == pathList;
  }

  predicate AllAgree(xs: seq<Path>, ys: seq<Path>) {
    |xs| == |ys| && forall i :: 0 <= i < |xs| ==> xs[i].route.Equal(ys[i].route)
  }

  /** The change of the multipath set: nothing, a new set, or the change of best path in place
      of a set that became empty. */
  datatype MultiChange = Same | Multi(paths: seq<Path>) | Instead(c: Change)

  function MultiBestChange(best: Change, u: Update): MultiChange {
    var before, after := MultiBestOf(u.previous), MultiBestOf(u.known);
    if AllAgree(before, after) then Same
    else if after == [] then Instead(best)
    else Multi(after)
  }

  /** The set held by the forwarding client afterwards. An absent path inside the message, the
      `Nothing` case, leaves it with what it had. */
  function ApplyMulti(view: seq<Path>, m: MultiChange): seq<Path> {
    match m
    case Same => view
    case Multi(paths) => paths
    case Instead(Nothing) => view
    case Instead(Withdrawal(_)) => []
    case Instead(Announcement(p)) => [p]
  }

  /** No next hop is reachable. */
  predicate AllUnreachable(paths: seq<Path>) {
    forall i :: 0 <= i < |paths| ==> paths[i].route.nexthopInvalid
  }

  lemma {:induction false} NoneReachable(paths: seq<Path>)
    ensures Reachable(paths) == [] <==> AllUnreachable(paths)
  {
    if paths != [] {
      var n := |paths| - 1;
      NoneReachable(paths[..n]);
      assert forall i :: 0 <= i < n ==> paths[..n][i] == paths[i];
    }
  }

  /** The multipath set is empty exactly if no next hop is reachable. */
  lemma MultiBestIsEmptyIff(paths: seq<Path>)
    ensures MultiBestOf(paths) == [] <==> AllUnreachable(paths)
  {
    NoneReachable(paths);
    var r := Reachable(paths);
    if r != [] {
      RankIncludesItself(r[0].route, r);
    }
  }

  lemma {:induction false} RankIncludesItself(best: Route, paths: seq<Path>)
    requires exists i :: 0 <= i < |paths| && SameRank(best, paths[i].route)
    ensures OfRank(best, paths) != []
  {
    var n := |paths| - 1;
    if !SameRank(best, paths[n].route) {
      RankIncludesItself(best, paths[..n]);
    }
  }

  /** The last reachable next hop goes while a path stays in front that is another one than before,
      or was unreachable already. In route-target membership any path in front will do. */
  predicate KeepsStaleSet(rtc: bool, u: Update) {
    && !AllUnreachable(u.previous) && AllUnreachable(u.known) && u.known != []
    && (rtc || !u.known[0].route.Equal(u.previous[0].route) || u.previous[0].route.nexthopInvalid)
  }

  /** A multipath set that was right is right after the change, except in that case. */
  lemma MultiChangeIsRecomputation(rtc: bool, u: Update, view: seq<Path>)
    requires AllAgree(view, MultiBestOf(u.previous))
    ensures AllAgree(ApplyMulti(view, MultiBestChange(BestChange(Global, 0, rtc, u), u)), MultiBestOf(u.known)) <==>
            !KeepsStaleSet(rtc, u)
  {
    var before, after := MultiBestOf(u.previous), MultiBestOf(u.known);
    MultiBestIsEmptyIff(u.previous);
    MultiBestIsEmptyIff(u.known);
    if AllAgree(before, after) {
      AgreeTransitively(view, before, after);
    } else if after == [] {
      EmptiedIsWithdrawnIff(rtc, u);
    }
  }

  lemma AgreeTransitively(xs: seq<Path>, ys: seq<Path>, zs: seq<Path>)
    requires AllAgree(xs, ys) && AllAgree(ys, zs)
    ensures AllAgree(xs, zs)
  {
    forall i | 0 <= i < |xs| ensures xs[i].route.Equal(zs[i].route) {
      assert xs[i].route.Equal(ys[i].route) && ys[i].route.Equal(zs[i].route);
    }
  }

  /** When the set becomes empty, the change of best path is a withdrawal except in that case. */
  lemma EmptiedIsWithdrawnIff(rtc: bool, u: Update)
    requires !AllUnreachable(u.previous) && AllUnreachable(u.known)
    ensures BestChange(Global, 0, rtc, u).Withdrawal? <==> !KeepsStaleSet(rtc, u)
  {
    assert BestOf(Global, 0, u.previous) == Some(u.previous[0]);
    assert BestOf(Global, 0, u.known) == if u.known == [] then None else Some(u.known[0]);
  }

  function MultiViewAfter(rtc: bool, lists: seq<seq<Path>>, n: nat): seq<Path>
    requires n < |lists|
  {
    if n == 0 then []
    else
      var u := Update(lists[n], lists[n - 1]);
      ApplyMulti(MultiViewAfter(rtc, lists, n - 1), MultiBestChange(BestChange(Global, 0, rtc, u), u))
  }

  /** After each of the first `n` recalculations the view agrees with the recomputed set. */
  predicate MultiRightUpTo(rtc: bool, lists: seq<seq<Path>>, n: nat)
    requires n < |lists|
  {
    AllAgree(MultiViewAfter(rtc, lists, n), MultiBestOf(lists[n])) && (n > 0 ==> MultiRightUpTo(rtc, lists, n - 1))
  }

  /** Over every run: the folded multipath changes track the recomputed set after each
      recalculation if and only if none of them is the exceptional one. */
  lemma {:induction false} MultiDeltasIff(rtc: bool, lists: seq<seq<Path>>, n: nat)
    requires n < |lists| && lists[0] == []
    ensures MultiRightUpTo(rtc, lists, n) <==>
            forall i :: 0 < i <= n ==> !KeepsStaleSet(rtc, Update(lists[i], lists[i - 1]))
  {
    if n > 0 {
      MultiDeltasIff(rtc, lists, n - 1);
      if MultiRightUpTo(rtc, lists, n - 1) {
        OneMultiStep(rtc, lists, n);
      }
    } else {
      assert Reachable(lists[0]) == [];
    }
  }

  lemma OneMultiStep(rtc: bool, lists: seq<seq<Path>>, n: nat)
    requires 0 < n < |lists| && AllAgree(MultiViewAfter(rtc, lists, n - 1), MultiBestOf(lists[n - 1]))
    ensures AllAgree(MultiViewAfter(rtc, lists, n), MultiBestOf(lists[n])) <==>
            !KeepsStaleSet(rtc, Update(lists[n], lists[n - 1]))
  {
    MultiChangeIsRecomputation(rtc, Update(lists[n], lists[n - 1]), MultiViewAfter(rtc, lists, n - 1));
  }

  /** A reachable path gives way to an unreachable one, which becomes the set. */
  lemma StaleSetIsKept(a: Path, b: Path)
    requires !a.route.nexthopInvalid && b.route.nexthopInvalid && !b.route.Equal(a.route)
    ensures !MultiRightUpTo(false, [[], [a], [b]], 2)
  {
    var lists := [[], [a], [b]];
    assert lists[1][0] == a && lists[2][0] == b;
    assert KeepsStaleSet(false, Update([b], [a])) by {
      assert [a][0].route.nexthopInvalid == false;
    }
    MultiDeltasIff(false, lists, 2);
  }

  /** In particular they do while every next hop is reachable. */
  lemma MultiDeltasAreRecomputation(rtc: bool, lists: seq<seq<Path>>, n: nat)
    requires n < |lists| && lists[0] == []
    requires forall i, j :: 0 <= i <= n && 0 <= j < |lists[i]| ==> !lists[i][j].route.nexthopInvalid
    ensures MultiRightUpTo(rtc, lists, n)
  {
    forall i | 0 < i <= n
      ensures !KeepsStaleSet(rtc, Update(lists[i], lists[i - 1]))
    {
      assert lists[i] != [] ==> !lists[i][0].route.nexthopInvalid;
    }
    MultiDeltasIff(rtc, lists, n);
  }

  /** The change of best path and the previous best path. */
  method GetBestChange(viewer: Viewer, asn: nat, rtc: bool, u: Update) returns (change: Change, before: Option<Path>)
    ensures change == BestChange(viewer, asn, rtc, u)
    ensures before == BestOf(viewer, asn, u.previous)
  {
    before := GetBestPath(viewer, asn, u.previous);
    var best := GetBestPath(viewer, asn, u.known);
    if best.Some? && before.Some? && best.value.route.Equal(before.value.route) {
      if rtc {
        return Announcement(best.value), before;
      }
      if best.value.route.nexthopInvalid != before.value.route.nexthopInvalid {
        if best.value.route.nexthopInvalid {
          return Withdrawal(best.value), before;
        }
        return Announcement(best.value), before;
      }
      return Nothing, before;
    }
    if best == None {
      if before == None {
        return Nothing, None;
      }
      return Withdrawal(before.value), before;
    }
    return Announcement(best.value), before;
  }

  method Differ(lhs: seq<Path>, rhs: seq<Path>) returns (d: bool)
    ensures d <==> !AllAgree(lhs, rhs)
  {
    if |lhs| != |rhs| {
      return true;
    }
    for i := 0 to |lhs|
      invariant forall k :: 0 <= k < i ==> lhs[k].route.Equal(rhs[k].route)
    {
      if !lhs[i].route.Equal(rhs[i].route) {
        return true;
      }
    }
    return false;
  }

  /** What one viewer is told of a recalculation when no peer went down. */
  method GetChanges(viewer: Viewer, asn: nat, rtc: bool, useMultiplePaths: bool, u: Update)
    returns (change: Change, before: Option<Path>, multi: MultiChange)
    ensures change == BestChange(viewer, asn, rtc, u)
    ensures before == BestOf(viewer, asn, u.previous)
    ensures multi == if viewer == Global && useMultiplePaths then MultiBestChange(change, u) else Same
  {
    change, before := GetBestChange(viewer, asn, rtc, u);
    multi := Same;
    if viewer == Global && useMultiplePaths {
      var oldM := GetMultiBestPath(u.previous);
      var newM := GetMultiBestPath(u.known);
      var diff := Differ(oldM, newM);
      if diff {
        multi := if |newM| == 0 then Instead(change) else Multi(newM);
      }
    }
  }
}
