/** One prefix of the routing table: the known paths, the local path ids they are advertised
    under, and the changes each recalculation tells the neighbours about. */
module Destinations {
  import opened Common
  import opened BestPath
  import opened Bitmaps

  /** The prefix as it came with a path. Clones of a path share it, so the local id written
      through one of them is read through all. */
  class Nlri {
    const pathId: nat
    var localId: nat

    constructor (pathId: nat)
      ensures this.pathId == pathId && localId == 0
    {
      this.pathId := pathId;
      localId := 0;
    }
  }

  /** A path. Two paths are the same to the code when they are the same object. */
  class Path {
    const route: Route
    const nlri: Nlri
    const isWithdraw: bool
    const dropped: bool
    const noImplicitWithdraw: bool

    constructor (route: Route, nlri: Nlri, isWithdraw: bool, dropped: bool, noImplicitWithdraw: bool)
      ensures this.route == route && this.nlri == nlri && this.isWithdraw == isWithdraw
      ensures this.dropped == dropped && this.noImplicitWithdraw == noImplicitWithdraw
    {
      this.route := route;
      this.nlri := nlri;
      this.isWithdraw := isWithdraw;
      this.dropped := dropped;
      this.noImplicitWithdraw := noImplicitWithdraw;
    }

    /** Learned from the same source under the same path identifier. */
    predicate SameOrigin(other: Path) {
      route.source.Equal(other.route.source) && nlri.pathId == other.nlri.pathId
    }
  }

  datatype Update = Update(known: seq<Path>, previous: seq<Path>)

  function Routes(ps: seq<Path>): seq<Route> {
    seq(|ps|, i requires 0 <= i < |ps| => ps[i].route)
  }

  /** The first of a sorted list of comparable paths is beaten by none. */
  lemma FirstIsBest(opts: SelectionOptions, known: seq<Path>)
    requires known != [] && Chained(opts, Routes(known))
    ensures Uniform(opts, Routes(known)) ==>
              forall p :: p in known ==> Compare(opts, p.route, known[0].route) != First
  {
    if Uniform(opts, Routes(known)) {
      ChainedIsOrdered(opts, Routes(known));
      forall p | p in known ensures Compare(opts, p.route, known[0].route) != First {
        var i :| 0 <= i < |known| && known[i] == p;
        assert Routes(known)[i] == p.route;
      }
    }
  }

  // ----- What a recalculation does, on values

  /** The state of a destination: the known paths in order of preference, the local id that
      each prefix object carries, and the ids that are taken. */
  datatype State = State(known: seq<Path>, ids: map<Nlri, nat>, taken: set<nat>) {

    ghost predicate Complete() {
      forall i {:trigger known[i]} :: 0 <= i < |known| ==> known[i].nlri in ids
    }

    function IdAt(i: nat): nat
      requires i < |known| && known[i].nlri in ids
    {
      ids[known[i].nlri]
    }
  }

  /** The index of the last path from the same origin, or -1. */
  function LastMatch(known: seq<Path>, p: Path): (i: int)
    ensures -1 <= i < |known|
    ensures i >= 0 ==> known[i].SameOrigin(p)
    ensures forall j :: i < j < |known| ==> !known[j].SameOrigin(p)
  {
    if known == [] then -1
    else if known[|known| - 1].SameOrigin(p) then |known| - 1
    else LastMatch(known[..|known| - 1], p)
  }

  /** The index of the first path from the same origin, or -1. */
  function FirstMatch(known: seq<Path>, p: Path): (i: int)
    ensures -1 <= i < |known|
    ensures i >= 0 ==> known[i].SameOrigin(p)
    ensures forall j :: 0 <= j < (if i < 0 then |known| else i) ==> !known[j].SameOrigin(p)
  {
    if known == [] then -1
    else if known[0].SameOrigin(p) then 0
    else var i := FirstMatch(known[1..], p); if i < 0 then -1 else i + 1
  }

  ghost function TakenFrom(taken: set<nat>, k: nat): set<nat> {
    set j | j in taken && k <= j
  }

  /** The smallest id from `k` on that is not taken. */
  ghost function LeastFreeFrom(taken: set<nat>, k: nat): (id: nat)
    ensures k <= id && id !in taken && forall j: nat :: k <= j < id ==> j in taken
    decreases TakenFrom(taken, k)
  {
    if k !in taken then k
    else
      assert k in TakenFrom(taken, k) && k !in TakenFrom(taken, k + 1);
      LeastFreeFrom(taken, k + 1)
  }

  ghost function LeastFree(taken: set<nat>): nat {
    LeastFreeFrom(taken, 0)
  }

  /** The id of the withdrawal's prefix after it has taken over the id of each match in
      `known[..n]` in turn, where a match may share that very prefix object. */
  ghost function TakenOverId(known: seq<Path>, ids: map<Nlri, nat>, w: Path, n: nat): (id: nat)
    requires n <= |known| && w.nlri in ids
    requires forall i {:trigger known[i]} :: 0 <= i < |known| ==> known[i].nlri in ids
    ensures id == ids[w.nlri] || exists i :: 0 <= i < n && id == ids[known[i].nlri]
  {
    if n == 0 then ids[w.nlri]
    else if !known[n - 1].SameOrigin(w) || known[n - 1].nlri == w.nlri then TakenOverId(known, ids, w, n - 1)
    else ids[known[n - 1].nlri]
  }

  /** What explicitWithdraw and the release of the id do. */
  ghost function AfterWithdraw(s: State, w: Path): State
    requires s.Complete() && w.nlri in s.ids
  {
    var i := LastMatch(s.known, w);
    var ids := s.ids[w.nlri := TakenOverId(s.known, s.ids, w, |s.known|)];
    if i < 0 then State(s.known, ids, s.taken)
    else
      var id := ids[s.known[i].nlri];
      State(RemoveAt(s.known, i), ids, if w.dropped && id != 0 then s.taken - {id} else s.taken)
  }

  /** What implicitWithdraw and the append do. */
  ghost function AfterReplace(s: State, p: Path): State
    requires s.Complete() && p.nlri in s.ids
  {
    var i := if p.noImplicitWithdraw then -1 else FirstMatch(s.known, p);
    if i < 0 then State(s.known + [p], s.ids, s.taken)
    else State(RemoveAt(s.known, i) + [p], s.ids[p.nlri := s.IdAt(i)], s.taken)
  }

  /** What the allocation does when `n` is the only prefix object that may lack an id. */
  ghost function Allocated(s: State, n: Nlri): State
    requires n in s.ids
  {
    if s.ids[n] == 0 && exists q :: q in s.known && q.nlri == n
    then State(s.known, s.ids[n := LeastFree(s.taken)], s.taken + {LeastFree(s.taken)})
    else s
  }

  /** The state after a recalculation, before the known paths are sorted. */
  ghost function Recalculated(s: State, p: Path): State
    requires s.Complete() && p.nlri in s.ids
  {
    Allocated(if p.isWithdraw then AfterWithdraw(s, p) else AfterReplace(s, p), p.nlri)
  }

  /** One recalculation for the path `p` in state `s` may leave the known paths `known`, the id
      `id` on the path's prefix object and the taken ids `taken`. Only the order of the known
      paths is left to the sort, which is skipped when best-path selection is disabled. */
  ghost predicate Calculates(
    opts: SelectionOptions, s: State, p: Path, known: seq<Path>, id: nat, taken: set<nat>)
    requires s.Complete() && p.nlri in s.ids
  {
    var u := Recalculated(s, p);
    && id == u.ids[p.nlri] && taken == u.taken
    && multiset(known) == multiset(u.known)
    && if opts.disableBestPathSelection then known == u.known else Chained(opts, Routes(known))
  }

  // ----- The destination itself

  class Destination {
    var knownPathList: seq<Path>
    const localIdMap: Bitmap

    ghost var nlris: set<Nlri>  // the prefix objects of every path this destination has seen

    /** Id zero stands for "not allocated", so it is flagged from the start and no known path
        carries it; the ids in use were handed out by this destination's own map. */
    ghost predicate Valid()
      reads this, localIdMap, nlris
    {
      && 0 in localIdMap.Flags()
      && forall p :: p in knownPathList ==> p.nlri in nlris && 0 < p.nlri.localId < localIdMap.Capacity()
    }

    /** The abstract state, with the ids of the prefix objects `scope`. */
    ghost function StateOver(scope: set<Nlri>): State
      reads this, localIdMap, scope
    {
      State(knownPathList, map n | n in scope :: n.localId, localIdMap.Flags())
    }

    /** A destination that gives out no local ids has a map of size zero. */
    constructor (mapSize: nat)
      ensures fresh(localIdMap) && nlris == {} && knownPathList == []
      ensures localIdMap.Flags() == (if mapSize == 0 then {} else {0}) && (mapSize != 0 ==> Valid())
    {
      knownPathList, nlris := [], {};
      var m := new Bitmap(mapSize);
      localIdMap := m;
      new;
      if mapSize != 0 {
        localIdMap.Flag(0);
      }
    }

    method ExplicitWithdraw(withdraw: Path) returns (removed: Option<Path>)
      requires Valid()
      modifies this`knownPathList, withdraw.nlri
      ensures var i := LastMatch(old(knownPathList), withdraw);
              if i < 0 then removed == None && knownPathList == old(knownPathList)
              else removed == Some(old(knownPathList)[i]) && knownPathList == RemoveAt(old(knownPathList), i)
      ensures withdraw.nlri.localId == TakenOverId(old(knownPathList),
                old(StateOver(nlris + {withdraw.nlri})).ids, withdraw, |old(knownPathList)|)
      ensures Valid() && (removed.Some? ==> 0 < removed.value.nlri.localId < localIdMap.Capacity())
    {
      RestIsKnown(knownPathList, LastMatch(knownPathList, withdraw));
      var isFound := TakeOverIds(withdraw);
      if isFound == -1 {
        return None;
      }
      removed := Some(knownPathList[isFound]);
      knownPathList := RemoveAt(knownPathList, isFound);
    }

    /** Finds the last match; the withdrawal takes over the id of each match in turn. */
    method TakeOverIds(withdraw: Path) returns (isFound: int)
      requires Valid()
      modifies withdraw.nlri
      ensures isFound == LastMatch(knownPathList, withdraw)
      ensures withdraw.nlri.localId ==
              TakenOverId(knownPathList, old(StateOver(nlris + {withdraw.nlri})).ids, withdraw, |knownPathList|)
      ensures Valid()
    {
      ghost var s := StateOver(nlris + {withdraw.nlri});
      isFound := -1;
      for i := 0 to |knownPathList|
        invariant isFound == LastMatch(knownPathList[..i], withdraw)
        invariant withdraw.nlri.localId == TakenOverId(knownPathList, s.ids, withdraw, i)
      {
        var path := knownPathList[i];
        assert knownPathList[..i + 1][..i] == knownPathList[..i];
        if path.SameOrigin(withdraw) {
          isFound := i;
          withdraw.nlri.localId := path.nlri.localId;
        }
      }
      assert knownPathList[..|knownPathList|] == knownPathList;
      assert forall i :: 0 <= i < |knownPathList| ==> knownPathList[i] in knownPathList;
    }

    method ImplicitWithdraw(newPath: Path)
      modifies this`knownPathList, newPath.nlri
      ensures var i := if newPath.noImplicitWithdraw then -1 else FirstMatch(old(knownPathList), newPath);
              if i < 0 then knownPathList == old(knownPathList) && newPath.nlri.localId == old(newPath.nlri.localId)
              else knownPathList == RemoveAt(old(knownPathList), i) &&
                   newPath.nlri.localId == old(knownPathList[i].nlri.localId)
    {
      var found := FirstToReplace(newPath);
      if found != -1 {
        newPath.nlri.localId := knownPathList[found].nlri.localId;
        knownPathList := RemoveAt(knownPathList, found);
      }
    }

    method FirstToReplace(newPath: Path) returns (found: int)
      ensures found == if newPath.noImplicitWithdraw then -1 else FirstMatch(knownPathList, newPath)
    {
      for i := 0 to |knownPathList|
        invariant forall j :: 0 <= j < i ==> newPath.noImplicitWithdraw || !knownPathList[j].SameOrigin(newPath)
      {
        if newPath.noImplicitWithdraw {
          continue;
        }
        if knownPathList[i].SameOrigin(newPath) {
          return i;
        }
      }
      return -1;
    }

    /** Gives an id to the known paths that lack one, all of which share the prefix object `n`.
        The map grows when it is full, after which the search cannot fail. */
    method AllocateIds(ghost n: Nlri)
      requires 0 in localIdMap.Flags()
      requires forall q :: q in knownPathList && q.nlri.localId == 0 ==> q.nlri == n
      modifies localIdMap, n
      ensures if old(n.localId) == 0 && exists q :: q in knownPathList && q.nlri == n
              then n.localId == LeastFree(old(localIdMap.Flags())) < localIdMap.Capacity() &&
                   localIdMap.Flags() == old(localIdMap.Flags()) + {n.localId}
              else n.localId == old(n.localId) && localIdMap.Flags() == old(localIdMap.Flags())
      ensures localIdMap.Capacity() >= old(localIdMap.Capacity())
    {
      ghost var free := LeastFree(localIdMap.Flags());
      for i := 0 to |knownPathList|
        invariant localIdMap.Capacity() >= old(localIdMap.Capacity())
        invariant if n.localId == old(n.localId)
                  then localIdMap.Flags() == old(localIdMap.Flags()) &&
                       (n.localId == 0 ==> forall k :: 0 <= k < i ==> knownPathList[k].nlri != n)
                  else old(n.localId) == 0 && n.localId == free < localIdMap.Capacity() &&
                       localIdMap.Flags() == old(localIdMap.Flags()) + {free} &&
                         exists q :: q in knownPathList && q.nlri == n
      {
        var path := knownPathList[i];
        if path.nlri.localId == 0 {
          var found, id := localIdMap.FindAndSetZeroBit();
          if !found {
            ghost var full := localIdMap.Capacity();
            localIdMap.Expand();
            found, id := localIdMap.FindAndSetZeroBit();
            assert full !in old(localIdMap.Flags());
          }
          path.nlri.localId := id;
        }
      }
    }

    /** Sorts the known paths by the code's own `less`, which is true on ties. */
    method Sort(opts: SelectionOptions)
      modifies this`knownPathList
      ensures multiset(knownPathList) == multiset(old(knownPathList))
      ensures Chained(opts, Routes(knownPathList))
    {
      var less := (a: Path, b: Path) => Less(opts, a.route, b.route);
      knownPathList := SortSlice(knownPathList, less);
      forall k | 0 < k < |knownPathList| ensures less(knownPathList[k - 1], knownPathList[k]) {
        assert InOrder(less, knownPathList[k - 1], knownPathList[k]);
        LessIsTotal(opts, knownPathList[k - 1].route, knownPathList[k].route);
      }
    }

    /** The withdraw branch: forget the path and, if it is gone for good, release its id. */
    method Withdraw(newPath: Path, ghost s: State)
      requires Valid() && newPath.nlri.localId < localIdMap.Capacity()
      requires s == StateOver(nlris + {newPath.nlri})
      modifies this`knownPathList, localIdMap, newPath.nlri
      ensures Valid() && localIdMap.Capacity() == old(localIdMap.Capacity())
      ensures newPath.nlri in s.ids && s.Complete()
      ensures knownPathList == AfterWithdraw(s, newPath).known && localIdMap.Flags() == AfterWithdraw(s, newPath).taken
      ensures newPath.nlri.localId == AfterWithdraw(s, newPath).ids[newPath.nlri] < localIdMap.Capacity()
    {
      var p := ExplicitWithdraw(newPath);
      if p.Some? && newPath.dropped {
        Release(p.value.nlri.localId);
      }
    }

    method Release(id: nat)
      requires id < localIdMap.Capacity()
      modifies localIdMap
      ensures localIdMap.Flags() == old(localIdMap.Flags()) - (if id != 0 then {id} else {})
      ensures localIdMap.Capacity() == old(localIdMap.Capacity())
    {
      if id != 0 {
        localIdMap.Unflag(id);
      }
    }

    lemma RestIsKnown(known: seq<Path>, i: int)
      requires -1 <= i < |known|
      ensures forall p :: p in (if i < 0 then known else RemoveAt(known, i)) ==> p in known
    {
      if i >= 0 {
        var r := RemoveAt(known, i);
        assert forall p :: p in r ==> p in multiset(r);
      }
    }

    /** The announce branch: the new path takes the place of its predecessor. */
    method Replace(newPath: Path, ghost s: State)
      requires Valid() && newPath.nlri.localId < localIdMap.Capacity()
      requires s == StateOver(nlris + {newPath.nlri})
      modifies this`knownPathList, newPath.nlri
      ensures newPath.nlri in s.ids && s.Complete()
      ensures forall p :: p in knownPathList ==> p == newPath || p in old(knownPathList)
      ensures knownPathList == AfterReplace(s, newPath).known
      ensures newPath.nlri.localId == AfterReplace(s, newPath).ids[newPath.nlri] < localIdMap.Capacity()
    {
      ghost var i := if newPath.noImplicitWithdraw then -1 else FirstMatch(knownPathList, newPath);
      ghost var rest := if i < 0 then knownPathList else RemoveAt(knownPathList, i);
      RestIsKnown(knownPathList, i);
      ImplicitWithdraw(newPath);
      assert knownPathList == rest;
      knownPathList := knownPathList + [newPath];
    }

    /** Sorts unless best-path selection is disabled or there is nothing to compare. The first path
        is the best one unless its next hop is unreachable. */
    method ComputeKnownBestPath(opts: SelectionOptions) returns (best: Option<Path>)
      modifies this`knownPathList
      ensures multiset(knownPathList) == multiset(old(knownPathList))
      ensures forall p :: p in knownPathList <==> p in old(knownPathList)
      ensures if opts.disableBestPathSelection then knownPathList == old(knownPathList)
              else Chained(opts, Routes(knownPathList))
      ensures best.Some? <==>
              !opts.disableBestPathSelection && knownPathList != [] && !knownPathList[0].route.nexthopInvalid
      ensures best.Some? ==> best.value == knownPathList[0]
      ensures best.Some? && Uniform(opts, Routes(knownPathList)) ==>
                forall p :: p in old(knownPathList) ==> Compare(opts, p.route, best.value.route) != First
    {
      if opts.disableBestPathSelection || knownPathList == [] {
        return None;
      }
      if |knownPathList| > 1 {
        Sort(opts);
        SameMembers(knownPathList, old(knownPathList));
      }
      if knownPathList[0].route.nexthopInvalid {
        return None;
      }
      FirstIsBest(opts, knownPathList);
      return Some(knownPathList[0]);
    }

    /** The destination is in the state `t`, as far as the prefix object `n` is concerned. */
    ghost predicate Reached(t: State, n: Nlri)
      requires n in t.ids
      reads this, localIdMap, n
    {
      knownPathList == t.known && localIdMap.Flags() == t.taken && n.localId == t.ids[n]
    }

    method UpdateList(newPath: Path, ghost s: State) returns (ghost t: State)
      requires Valid() && newPath.nlri.localId < localIdMap.Capacity()
      requires s == StateOver(nlris + {newPath.nlri})
      modifies this`knownPathList, localIdMap, newPath.nlri
      ensures newPath.nlri in s.ids && s.Complete()
      ensures t == if newPath.isWithdraw then AfterWithdraw(s, newPath) else AfterReplace(s, newPath)
      ensures newPath.nlri in t.ids && Reached(t, newPath.nlri) && 0 in localIdMap.Flags()
      ensures newPath.nlri.localId < localIdMap.Capacity()
      ensures forall p :: p in knownPathList ==> p == newPath || (p.nlri in nlris && p in old(knownPathList))
      ensures localIdMap.Capacity() == old(localIdMap.Capacity())
    {
      if newPath.isWithdraw {
        Withdraw(newPath, s);
        t := AfterWithdraw(s, newPath);
      } else {
        Replace(newPath, s);
        t := AfterReplace(s, newPath);
      }
    }

    /** Everything a recalculation does before it sorts. */
    method UpdateKnown(newPath: Path, ghost s: State)
      requires Valid() && newPath.nlri.localId < localIdMap.Capacity()
      requires s == StateOver(nlris + {newPath.nlri})
      modifies this`knownPathList, this`nlris, localIdMap, newPath.nlri
      ensures Valid() && nlris == old(nlris) + {newPath.nlri}
      ensures newPath.nlri in s.ids && s.Complete()
      ensures knownPathList == Recalculated(s, newPath).known && localIdMap.Flags() == Recalculated(s, newPath).taken
      ensures newPath.nlri.localId == Recalculated(s, newPath).ids[newPath.nlri]
    {
      ghost var t := UpdateList(newPath, s);
      nlris := nlris + {newPath.nlri};
      AllocateFor(newPath.nlri, t);
    }

    method AllocateFor(ghost n: Nlri, ghost t: State)
      requires 0 in localIdMap.Flags() && n.localId < localIdMap.Capacity()
      requires n in t.ids && Reached(t, n)
      requires forall p :: p in knownPathList ==> p.nlri == n || 0 < p.nlri.localId < localIdMap.Capacity()
      modifies localIdMap, n
      ensures Reached(Allocated(t, n), n) && 0 in localIdMap.Flags()
      ensures forall p :: p in knownPathList ==> 0 < p.nlri.localId < localIdMap.Capacity()
    {
      AllocateIds(n);
      assert forall p :: p in knownPathList && p.nlri != n ==> p.nlri.localId == old(p.nlri.localId);
    }

    /** Brings the known paths up to date with `newPath` and returns them together with the
        previous ones. Incoming ids are zero or were handed out by this destination's map. */
    method Calculate(opts: SelectionOptions, newPath: Path) returns (u: Update)
      requires Valid() && newPath.nlri.localId < localIdMap.Capacity()
      modifies this`knownPathList, this`nlris, localIdMap, newPath.nlri
      ensures Valid() && nlris == old(nlris) + {newPath.nlri}
      ensures u == Update(knownPathList, old(knownPathList))
      ensures var s := old(StateOver(nlris + {newPath.nlri}));
              s.Complete() && newPath.nlri in s.ids &&
              Calculates(opts, s, newPath, knownPathList, newPath.nlri.localId, localIdMap.Flags())
    {
      ghost var s := StateOver(nlris + {newPath.nlri});
      var oldKnownPathList := knownPathList;
      UpdateKnown(newPath, s);
      var best := ComputeKnownBestPath(opts);
      u := Update(knownPathList, oldKnownPathList);
    }
  }
}
