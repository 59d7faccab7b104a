/** The table of the routes received from one peer, with the count of accepted routes that is
    kept along with it. */
module AdjRibs {
  import opened Common
  import opened BestPath

  const COMMUNITY_NO_LLGR := 0xFFFF_0007

  /** A received route. `rejected` routes are kept but not used; `dropped` marks a withdrawal
      after which the route exists in this table no more. */
  datatype RibPath = RibPath(
    family: Family, nlri: RibPrefix, pathId: nat, source: PeerInfo, attrs: Attributes, timestamp: int,
    isWithdraw: bool, isEor: bool, rejected: bool, stale: bool, dropped: bool)
  {
    predicate Equal(other: RibPath) {
      source.Equal(other.source) && attrs == other.attrs
    }

    predicate HasNoLlgr() {
      COMMUNITY_NO_LLGR in attrs.communities
    }

    predicate IsLlgrStale() {
      COMMUNITY_LLGR_STALE in attrs.communities
    }

    /** A clone keeps what the original shares with it and starts out neither rejected nor dropped. */
    function Clone(withdraw: bool): RibPath {
      this.(isWithdraw := withdraw, rejected := false, dropped := false)
    }

    function Stale(): RibPath {
      Clone(false).(stale := true, rejected := rejected)
    }

    function LlgrStale(): RibPath {
      Clone(false).(rejected := rejected,
                    attrs := attrs.(communities := attrs.communities + [COMMUNITY_LLGR_STALE]))
    }

    function Gone(): RibPath {
      Clone(true).(dropped := true)
    }

    function Key(): RouteKey {
      RouteKey(family, nlri, pathId)
    }
  }

  datatype RibPrefix = RibPrefix(id: nat)

  datatype RouteKey = RouteKey(family: Family, nlri: RibPrefix, pathId: nat)

  type Routes = map<RouteKey, RibPath>

  // ----- The table as a map

  /** What is stored for `p` when `m` may hold an earlier version: an unchanged route keeps its age. */
  function Refreshed(m: Routes, p: RibPath): RibPath {
    if p.Key() in m && m[p.Key()].Equal(p) then p.(timestamp := m[p.Key()].timestamp) else p
  }

  /** A path as the update loop leaves it: a withdrawal is marked as dropped, and an unchanged route
      takes over the age of its earlier version. */
  function AsLeft(m: Routes, p: RibPath): RibPath {
    if p.isEor then p else if p.isWithdraw then p.(dropped := true) else Refreshed(m, p)
  }

  function UpdatedBy(m: Routes, p: RibPath): Routes {
    if p.isEor then m
    else if p.isWithdraw then m - {p.Key()}
    else m[p.Key() := Refreshed(m, p)]
  }

  function UpdatedByAll(m: Routes, ps: seq<RibPath>): Routes {
    if ps == [] then m
    else UpdatedBy(UpdatedByAll(m, ps[..|ps| - 1]), ps[|ps| - 1])
  }

  function AllAsLeft(m: Routes, ps: seq<RibPath>): (r: seq<RibPath>)
    ensures |r| == |ps|
  {
    if ps == [] then []
    else AllAsLeft(m, ps[..|ps| - 1]) + [AsLeft(UpdatedByAll(m, ps[..|ps| - 1]), ps[|ps| - 1])]
  }

  /** The index of the last path of the list that speaks about `k`, or -1. */
  function LastWriter(ps: seq<RibPath>, k: RouteKey): (i: int)
    ensures -1 <= i < |ps|
    ensures i >= 0 ==> !ps[i].isEor && ps[i].Key() == k
    ensures forall j :: i < j < |ps| ==> ps[j].isEor || ps[j].Key() != k
  {
    if ps == [] then -1
    else
      var n := |ps| - 1;
      if !ps[n].isEor && ps[n].Key() == k then n else LastWriter(ps[..n], k)
  }

  /** Updating by a list is last-writer-wins, key by key; only the age of an unchanged route
      may come from an earlier version. */
  lemma {:induction false} LastWriterWins(m: Routes, ps: seq<RibPath>, k: RouteKey)
    ensures var r, i := UpdatedByAll(m, ps), LastWriter(ps, k);
            if i < 0 then (k in r <==> k in m) && (k in m ==> r[k] == m[k])
            else (k in r <==> !ps[i].isWithdraw) && (k in r ==> r[k].(timestamp := ps[i].timestamp) == ps[i])
  {
    if ps != [] {
      LastWriterWins(m, ps[..|ps| - 1], k);
    }
  }

  /** Paths of the list that speak about the same route are the same. */
  predicate RepeatsOnly(ps: seq<RibPath>) {
    forall i, j :: 0 <= i < j < |ps| && ps[i].Key() == ps[j].Key() ==> ps[i] == ps[j]
  }

  /** In such a list every path has its own effect. */
  lemma {:induction false} RepeatedWriters(m: Routes, ps: seq<RibPath>, k: RouteKey)
    requires RepeatsOnly(ps) && forall p :: p in ps ==> !p.isEor
    ensures WrittenOnce(m, UpdatedByAll(m, ps), ps, k)
  {
    if ps != [] {
      var n := |ps| - 1;
      assert forall p :: p in ps[..n] ==> p in ps;
      RepeatedWriters(m, ps[..n], k);
      assert ps == ps[..n] + [ps[n]] && ps[n] in ps;
      OneMoreWriter(m, UpdatedByAll(m, ps[..n]), ps[..n], ps[n], k);
    }
  }

  /** The last path of `ps` about `k` alone has made `r` of `m` there. */
  predicate WrittenOnce(m: Routes, r: Routes, ps: seq<RibPath>, k: RouteKey) {
    var i := LastWriter(ps, k);
    if i < 0 then (k in r <==> k in m) && (k in m ==> r[k] == m[k])
    else if ps[i].isWithdraw then k !in r
    else k in r && r[k] == Refreshed(m, ps[i])
  }

  lemma OneMoreWriter(m: Routes, r: Routes, ps: seq<RibPath>, p: RibPath, k: RouteKey)
    requires WrittenOnce(m, r, ps, k) && RepeatsOnly(ps + [p]) && !p.isEor
    ensures WrittenOnce(m, UpdatedBy(r, p), ps + [p], k)
  {
    var i := LastWriter(ps, k);
    assert (ps + [p])[..|ps|] == ps;
    if p.Key() == k {
      assert LastWriter(ps + [p], k) == |ps|;
      assert i >= 0 ==> (ps + [p])[i] == (ps + [p])[|ps|];
      RefreshedAgain(m, r, p);
    } else {
      assert LastWriter(ps + [p], k) == i;
    }
  }

  lemma RefreshedAgain(m: Routes, r: Routes, p: RibPath)
    requires p.Key() in r ==> (p.Key() in m && r[p.Key()] == m[p.Key()]) || r[p.Key()] == Refreshed(m, p)
    requires p.Key() in m && p.Key() !in r ==> p.isWithdraw
    ensures !p.isWithdraw ==> Refreshed(r, p) == Refreshed(m, p)
  {
  }

  function StaleIn(m: Routes, fs: seq<Family>): Routes {
    map k | k in m :: if k.family in fs then m[k].Stale() else m[k]
  }

  function WithoutStale(m: Routes, fs: seq<Family>): Routes {
    map k | k in m && !(k.family in fs && m[k].stale) :: m[k]
  }

  function Without(m: Routes, fs: seq<Family>): Routes {
    map k | k in m && k.family !in fs :: m[k]
  }

  function LlgrStaleOrGone(m: Routes, fs: seq<Family>): Routes {
    map k | k in m && !(k.family in fs && m[k].HasNoLlgr()) :: if k.family in fs then m[k].LlgrStale() else m[k]
  }

  ghost function AcceptedKeys(m: Routes, f: Family): set<RouteKey> {
    set k | k in m && k.family == f && !m[k].rejected
  }

  /** Every stored path sits under its own key and is neither a withdrawal nor a marker. */
  ghost predicate WellKeyed(m: Routes) {
    forall k :: k in m ==> m[k].Key() == k && !m[k].isWithdraw && !m[k].isEor && !m[k].dropped
  }

  // ----- The table as it is stored: destinations with lists of paths

  type Table = map<Family, map<RibPrefix, seq<RibPath>>>

  function ListAt(t: Table, f: Family, n: RibPrefix): seq<RibPath> {
    if f in t && n in t[f] then t[f][n] else []
  }

  function PutList(t: Table, f: Family, n: RibPrefix, l: seq<RibPath>): Table
    requires f in t
  {
    t[f := t[f][n := l]]
  }

  /** The list `l` holds exactly the routes of `m` for the prefix `n`, each once. */
  ghost predicate Holds(l: seq<RibPath>, f: Family, n: RibPrefix, m: Routes) {
    && (forall i :: 0 <= i < |l| ==> l[i].family == f && l[i].nlri == n && l[i].Key() in m && m[l[i].Key()] == l[i])
    && (forall k :: k in m && k.family == f && k.nlri == n ==> m[k] in l)
    && (forall i, j :: 0 <= i < j < |l| ==> l[i].pathId != l[j].pathId)
  }

  ghost predicate Represents(t: Table, m: Routes) {
    && WellKeyed(m)
    && (forall k :: k in m ==> k.family in t)
    && (forall f, n :: Holds(ListAt(t, f, n), f, n, m))
  }

  /** Replacing one list by one that holds the new routes of its prefix is enough. */
  lemma PutRepresents(t: Table, m: Routes, f: Family, n: RibPrefix, l: seq<RibPath>, r: Routes)
    requires Represents(t, m) && f in t && WellKeyed(r) && Holds(l, f, n, r)
    requires forall k: RouteKey :: !(k.family == f && k.nlri == n) ==> (k in r <==> k in m) && (k in m ==> r[k] == m[k])
    ensures Represents(PutList(t, f, n, l), r)
  {
    var u := PutList(t, f, n, l);
    forall g, o ensures Holds(ListAt(u, g, o), g, o, r) {
      assert Holds(ListAt(t, g, o), g, o, m);
      assert ListAt(u, g, o) == if g == f && o == n then l else ListAt(t, g, o);
    }
    forall k | k in r ensures k.family in u {
      assert k.family == f || k in m;
    }
  }

  /** Replacing a path by another version of the same route. */
  lemma PutAtIndex(t: Table, m: Routes, f: Family, n: RibPrefix, i: nat, p: RibPath)
    requires Represents(t, m) && f in t && i < |ListAt(t, f, n)| && p.Key() == ListAt(t, f, n)[i].Key()
    requires !p.isWithdraw && !p.isEor && !p.dropped
    ensures Represents(PutList(t, f, n, ListAt(t, f, n)[i := p]), m[p.Key() := p])
  {
    var l := ListAt(t, f, n);
    assert Holds(l, f, n, m);
    assert l[i].Key() == p.Key();
    forall k | k in m[p.Key() := p] && k.family == f && k.nlri == n ensures m[p.Key() := p][k] in l[i := p] {
      if k == p.Key() {
        assert l[i := p][i] == p;
      } else {
        var j :| 0 <= j < |l| && l[j] == m[k];
        assert l[i := p][j] == m[k];
      }
    }
    PutRepresents(t, m, f, n, l[i := p], m[p.Key() := p]);
  }

  lemma PutLast(t: Table, m: Routes, f: Family, n: RibPrefix, p: RibPath)
    requires Represents(t, m) && f in t && p.family == f && p.nlri == n && p.Key() !in m
    requires !p.isWithdraw && !p.isEor && !p.dropped
    ensures Represents(PutList(t, f, n, ListAt(t, f, n) + [p]), m[p.Key() := p])
  {
    var l := ListAt(t, f, n);
    assert Holds(l, f, n, m);
    forall i | 0 <= i < |l| ensures l[i].pathId != p.pathId {
      assert l[i].Key() in m;
    }
    PutRepresents(t, m, f, n, l + [p], m[p.Key() := p]);
  }

  lemma HoldsRest(l: seq<RibPath>, f: Family, n: RibPrefix, m: Routes, i: nat)
    requires WellKeyed(m) && Holds(l, f, n, m) && i < |l|
    ensures Holds(RemoveAt(l, i), f, n, m - {l[i].Key()})
  {
    var r := RemoveAt(l, i);
    assert forall j :: 0 <= j < |r| ==> r[j] == l[if j < i then j else j + 1];
    forall k | k in m - {l[i].Key()} && k.family == f && k.nlri == n ensures m[k] in r {
      var j :| 0 <= j < |l| && l[j] == m[k];
      assert r[if j < i then j else j - 1] == m[k];
    }
  }

  lemma CutAtIndex(t: Table, m: Routes, f: Family, n: RibPrefix, i: nat)
    requires Represents(t, m) && f in t && i < |ListAt(t, f, n)|
    ensures Represents(PutList(t, f, n, RemoveAt(ListAt(t, f, n), i)), m - {ListAt(t, f, n)[i].Key()})
  {
    var l := ListAt(t, f, n);
    assert Holds(l, f, n, m);
    HoldsRest(l, f, n, m, i);
    PutRepresents(t, m, f, n, RemoveAt(l, i), m - {l[i].Key()});
  }

  lemma DropEmpty(t: Table, m: Routes, f: Family, n: RibPrefix)
    requires Represents(t, m) && f in t && ListAt(t, f, n) == []
    ensures Represents(t[f := t[f] - {n}], m)
  {
    var u := t[f := t[f] - {n}];
    forall g, o ensures Holds(ListAt(u, g, o), g, o, m) {
      assert ListAt(u, g, o) == ListAt(t, g, o);
    }
  }

  function Counted(m: Routes, k: RouteKey): int {
    if k in m && !m[k].rejected then 1 else 0
  }

  /** Changing one route changes the count of accepted routes by that route. */
  lemma CountChanges(m: Routes, r: Routes, k: RouteKey, f: Family)
    requires forall j: RouteKey :: j != k ==> (j in r <==> j in m) && (j in m ==> r[j] == m[j])
    ensures |AcceptedKeys(r, f)| == |AcceptedKeys(m, f)| + if k.family == f then Counted(r, k) - Counted(m, k) else 0
  {
    var a, b := AcceptedKeys(m, f), AcceptedKeys(r, f);
    forall j: RouteKey | j != k
      ensures j in b <==> j in a
    {
      assert (j in r <==> j in m) && (j in m ==> r[j] == m[j]);
    }
    SizesDiffer(a, b, k);
  }

  lemma SizesDiffer(a: set<RouteKey>, b: set<RouteKey>, k: RouteKey)
    requires forall j :: j != k ==> (j in b <==> j in a)
    ensures |b| - (if k in b then 1 else 0) == |a| - (if k in a then 1 else 0)
  {
    assert a - {k} == b - {k};
    assert k !in a ==> a - {k} == a;
    assert k !in b ==> b - {k} == b;
  }

  function CountIn(accepted: map<Family, int>, f: Family): int {
    if f in accepted then accepted[f] else 0
  }

  ghost predicate Counts(accepted: map<Family, int>, m: Routes) {
    forall f :: CountIn(accepted, f) == |AcceptedKeys(m, f)|
  }

  lemma CountsChange(a: map<Family, int>, b: map<Family, int>, m: Routes, r: Routes, k: RouteKey)
    requires Counts(a, m)
    requires var delta := Counted(r, k) - Counted(m, k);
             b == if delta == 0 then a else a[k.family := CountIn(a, k.family) + delta]
    requires forall j: RouteKey :: j != k ==> (j in r <==> j in m) && (j in m ==> r[j] == m[j])
    ensures Counts(b, r)
  {
    forall f ensures CountIn(b, f) == |AcceptedKeys(r, f)| {
      CountChanges(m, r, k, f);
    }
  }

  // ----- The table itself

  class AdjRib {
    var table: Table
    var accepted: map<Family, int>
    ghost var routes: Routes

    ghost predicate Valid()
      reads this
    {
      Represents(table, routes) && Counts(accepted, routes)
    }

    constructor (rfList: seq<Family>)
      ensures Valid() && routes == map[]
      ensures table.Keys == set f | f in rfList
    {
      table := map f | f in rfList :: map[];
      accepted := map[];
      routes := map[];
    }

    /** The destination's index of the path with this path identifier, or -1. */
    method Find(f: Family, n: RibPrefix, pathId: nat) returns (idx: int)
      requires Valid()
      ensures -1 <= idx < |ListAt(table, f, n)|
      ensures idx == -1 <==> RouteKey(f, n, pathId) !in routes
      ensures idx >= 0 ==> ListAt(table, f, n)[idx] == routes[RouteKey(f, n, pathId)]
    {
      var l := ListAt(table, f, n);
      assert Holds(l, f, n, routes);
      for i := 0 to |l|
        invariant forall j :: 0 <= j < i ==> l[j].pathId != pathId
      {
        if l[i].pathId == pathId {
          return i;
        }
      }
      return -1;
    }

    /** Takes the path at `idx` out of its destination, and an emptied destination out of the table. */
    method Remove(f: Family, n: RibPrefix, idx: nat)
      requires Valid() && f in table && idx < |ListAt(table, f, n)|
      modifies this`table, this`routes
      ensures Represents(table, routes) && table.Keys == old(table.Keys)
      ensures routes == old(routes) - {old(ListAt(table, f, n))[idx].Key()}
    {
      var d := ListAt(table, f, n);
      CutAtIndex(table, routes, f, n, idx);
      table := PutList(table, f, n, RemoveAt(d, idx));
      routes := routes - {d[idx].Key()};
      if |RemoveAt(d, idx)| == 0 {
        DropEmpty(table, routes, f, n);
        table := table[f := table[f] - {n}];
      }
    }

    /** Puts `p` at `idx` of its destination, or at the end when `idx` is -1. */
    method Put(idx: int, p: RibPath)
      requires Represents(table, routes) && p.family in table && !p.isWithdraw && !p.isEor && !p.dropped
      requires -1 <= idx < |ListAt(table, p.family, p.nlri)|
      requires if idx < 0 then p.Key() !in routes else ListAt(table, p.family, p.nlri)[idx].Key() == p.Key()
      modifies this`table, this`routes
      ensures Represents(table, routes) && table.Keys == old(table.Keys)
      ensures routes == old(routes)[p.Key() := p]
      ensures idx >= 0 ==>
                table == PutList(old(table), p.family, p.nlri, ListAt(old(table), p.family, p.nlri)[idx := p])
    {
      var d := ListAt(table, p.family, p.nlri);
      if idx < 0 {
        PutLast(table, routes, p.family, p.nlri, p);
        table := PutList(table, p.family, p.nlri, d + [p]);
      } else {
        PutAtIndex(table, routes, p.family, p.nlri, idx, p);
        table := PutList(table, p.family, p.nlri, d[idx := p]);
      }
      routes := routes[p.Key() := p];
    }

    method Adjust(f: Family, delta: int)
      modifies this`accepted
      ensures accepted == old(accepted)[f := CountIn(old(accepted), f) + delta]
    {
      accepted := accepted[f := CountIn(accepted, f) + delta];
    }

    method WithdrawAt(idx: int, path: RibPath)
      requires Valid() && path.family in table && -1 <= idx < |ListAt(table, path.family, path.nlri)|
      requires idx == -1 <==> path.Key() !in routes
      requires idx >= 0 ==> ListAt(table, path.family, path.nlri)[idx] == routes[path.Key()]
      modifies this
      ensures Valid() && table.Keys == old(table.Keys)
      ensures routes == old(routes) - {path.Key()}
    {
      if idx != -1 {
        ghost var m := routes;
        var d := ListAt(table, path.family, path.nlri)[idx];
        assert WellKeyed(m) && d.Key() == path.Key();
        Remove(path.family, path.nlri, idx);
        if !d.rejected {
          Adjust(path.family, -1);
        }
        CountsChange(old(accepted), accepted, m, routes, path.Key());
      }
    }

    method AnnounceAt(idx: int, path: RibPath) returns (left: RibPath)
      requires Valid() && path.family in table && -1 <= idx < |ListAt(table, path.family, path.nlri)|
      requires idx == -1 <==> path.Key() !in routes
      requires idx >= 0 ==> ListAt(table, path.family, path.nlri)[idx] == routes[path.Key()]
      requires !path.isWithdraw && !path.isEor && !path.dropped
      modifies this
      ensures Valid() && table.Keys == old(table.Keys)
      ensures left == Refreshed(old(routes), path) && routes == old(routes)[path.Key() := left]
    {
      ghost var m := routes;
      left := path;
      if idx != -1 {
        var d := ListAt(table, path.family, path.nlri)[idx];
        assert WellKeyed(m) && d.Key() == path.Key();
        if d.rejected && !path.rejected {
          Adjust(path.family, 1);
        } else if !d.rejected && path.rejected {
          Adjust(path.family, -1);
        }
        if d.Equal(path) {
          left := left.(timestamp := d.timestamp);
        }
        Put(idx, left);
      } else {
        Put(-1, path);
        if !path.rejected {
          Adjust(path.family, 1);
        }
      }
      CountsChange(old(accepted), accepted, m, routes, path.Key());
    }

    /** One turn of the update loop. */
    method UpdateOne(path: RibPath) returns (left: RibPath)
      requires Valid() && (path.isEor || path.family in table)
      requires !path.isWithdraw ==> !path.dropped
      modifies this
      ensures Valid() && table.Keys == old(table.Keys)
      ensures routes == UpdatedBy(old(routes), path)
      ensures left == AsLeft(old(routes), path)
    {
      if path.isEor {
        return path;
      }
      var idx := Find(path.family, path.nlri, path.pathId);
      if path.isWithdraw {
        WithdrawAt(idx, path);
        left := path.(dropped := true);
      } else {
        left := AnnounceAt(idx, path);
      }
    }

    /** The update loop. */
    method Update(pathList: seq<RibPath>) returns (left: seq<RibPath>)
      requires Valid()
      requires forall p :: p in pathList ==> (p.isEor || p.family in table) && (!p.isWithdraw ==> !p.dropped)
      modifies this
      ensures Valid() && table.Keys == old(table.Keys)
      ensures routes == UpdatedByAll(old(routes), pathList)
      ensures left == AllAsLeft(old(routes), pathList)
    {
      left := [];
      for i := 0 to |pathList|
        invariant Valid() && table.Keys == old(table.Keys) && left == AllAsLeft(old(routes), pathList[..i])
        invariant routes == UpdatedByAll(old(routes), pathList[..i])
      {
        assert pathList[..i + 1][..i] == pathList[..i];
        var path := UpdateOne(pathList[i]);
        left := left + [path];
      }
      assert pathList[..|pathList|] == pathList;
    }

    /** The stored paths of one family, its destinations in any order. */
    method WalkFamily(f: Family) returns (l: seq<RibPath>)
      requires Valid() && f in table
      ensures Lists(l, routes, [f]) && DistinctKeys(l)
    {
      l := [];
      forall k | k in routes && k.family == f ensures k.nlri in table[f] {
        assert Holds(ListAt(table, f, k.nlri), f, k.nlri, routes);
      }
      var todo := table[f].Keys;
      while todo != {}
        invariant todo <= table[f].Keys && DistinctKeys(l)
        invariant forall p :: p in l ==> p.family == f && p.nlri !in todo && p.Key() in routes && routes[p.Key()] == p
        invariant forall k :: k in routes && k.family == f && k.nlri !in todo ==> routes[k] in l
        decreases |todo|
      {
        var n :| n in todo;
        assert Holds(ListAt(table, f, n), f, n, routes);
        forall k | k in routes && k.family == f && k.nlri !in todo - {n} ensures routes[k] in l + table[f][n] {
        }
        l := l + table[f][n];
        todo := todo - {n};
      }
      forall k | k in routes && k.family == f ensures routes[k] in l {
      }
    }

    /** The stored paths of the listed families, one family after the other. */
    method Walk(fs: seq<Family>) returns (l: seq<RibPath>)
      requires Valid()
      ensures Lists(l, routes, fs) && |l| == Total(routes, fs, false)
    {
      l := [];
      for a := 0 to |fs|
        invariant Lists(l, routes, fs[..a]) && |l| == Total(routes, fs[..a], false)
      {
        TotalOneMore(routes, fs, a);
        if fs[a] in table {
          var part := WalkFamily(fs[a]);
          PartIsCounted(part, routes, fs[a]);
          ListsJoin(l, part, routes, fs, a);
          l := l + part;
        } else {
          assert KeysOf(routes, fs[a], false) == {};
          ListsJoin(l, [], routes, fs, a);
          assert l + [] == l;
        }
      }
      assert fs[..|fs|] == fs;
    }

    /** The stored paths of the families, or those in use. */
    method PathList(rfList: seq<Family>, accepted: bool) returns (pathList: seq<RibPath>)
      requires Valid()
      ensures Stored(pathList, routes, rfList, accepted)
      ensures DistinctFamilies(rfList) ==> |pathList| == Total(routes, rfList, accepted)
    {
      var l := Walk(rfList);
      pathList := [];
      for i := 0 to |l|
        invariant pathList == InUse(l[..i], accepted)
      {
        assert l[..i + 1][..i] == l[..i];
        if !(accepted && l[i].rejected) {
          pathList := pathList + [l[i]];
        }
      }
      assert l[..|l|] == l;
      InUseIsStored(l, routes, rfList, accepted);
      if DistinctFamilies(rfList) {
        StoredIsTotal(pathList, routes, rfList, accepted);
      }
    }

    /** How many paths the families have. */
    method Count(rfList: seq<Family>) returns (count: nat)
      requires Valid()
      ensures count == Total(routes, rfList, false)
    {
      var l := Walk(rfList);
      count := |l|;
    }

    /** Adds up the counters of the families. */
    method Accepted(rfList: seq<Family>) returns (count: int)
      requires Valid()
      ensures count == Total(routes, rfList, true)
    {
      count := 0;
      for i := 0 to |rfList|
        invariant count == Total(routes, rfList[..i], true)
      {
        assert rfList[..i + 1][..i] == rfList[..i];
        assert KeysOf(routes, rfList[i], true) == AcceptedKeys(routes, rfList[i]);
        if rfList[i] in accepted {
          count := count + accepted[rfList[i]];
        }
      }
      assert rfList[..|rfList|] == rfList;
    }

    /** Replaces a stored route by another version of it with the same rejection. */
    method Rewrite(p: RibPath)
      requires Valid() && p.Key() in routes && routes[p.Key()].rejected == p.rejected
      requires !p.isWithdraw && !p.isEor && !p.dropped
      modifies this`table, this`routes
      ensures Valid() && table.Keys == old(table.Keys)
      ensures routes == old(routes)[p.Key() := p]
    {
      assert Represents(table, routes);
      var idx := Find(p.family, p.nlri, p.pathId);
      assert WellKeyed(routes);
      Put(idx, p);
      CountsChange(accepted, accepted, old(routes), routes, p.Key());
    }

    /** Marks every route of the families as stale and returns those in use. */
    method StaleAll(rfList: seq<Family>) returns (pathList: seq<RibPath>)
      requires Valid()
      modifies this`table, this`routes
      ensures Valid() && table.Keys == old(table.Keys)
      ensures routes == StaleIn(old(routes), rfList)
      ensures forall p :: p in pathList ==>
        p.family in rfList && !p.rejected && p.Key() in routes && routes[p.Key()] == p
      ensures forall k :: k in routes && k.family in rfList && !routes[k].rejected ==> routes[k] in pathList
      ensures DistinctFamilies(rfList) ==> DistinctKeys(pathList)
    {
      var l := Walk(rfList);
      ghost var m := routes;
      assert WellKeyed(m);
      pathList := [];
      for i := 0 to |l|
        invariant Valid() && table.Keys == old(table.Keys)
        invariant routes == StaleAmong(m, l[..i]) && pathList == StaleInUse(l[..i])
      {
        var n := l[i].Stale();
        assert l[i] in l && l[i].Key() in m;
        assert l[..i + 1][..i] == l[..i];
        StaleAmongStep(m, l, i);
        Rewrite(n);
        if !n.rejected {
          pathList := pathList + [n];
        }
      }
      assert l[..|l|] == l;
      StaleAmongAll(m, l, rfList);
      StaleInUseDistinct(l);
    }

    /** Removes the stale routes of the families and returns one withdrawal for each. */
    method DropStale(rfList: seq<Family>) returns (pathList: seq<RibPath>)
      requires Valid()
      modifies this
      ensures Valid() && table.Keys == old(table.Keys)
      ensures routes == WithoutStale(old(routes), rfList)
      ensures Withdrawals(pathList, old(routes), old(routes).Keys - routes.Keys)
      ensures DistinctFamilies(rfList) ==> DistinctKeys(pathList)
    {
      var l := Walk(rfList);
      ghost var m := routes;
      assert Represents(table, m) && WellKeyed(m);
      pathList := WithdrawalsOf(l, true);
      GoneIfDistinct(l, true);
      StaleGone(m, l, rfList);
      assert forall w :: w in pathList ==> w.family in table;
      var left := Update(pathList);
    }

    /** Removes every route of the families and returns a withdrawal for each. */
    method Drop(rfList: seq<Family>) returns (l: seq<RibPath>)
      requires Valid()
      modifies this
      ensures Valid() && table.Keys == old(table.Keys) + (set f | f in rfList)
      ensures routes == Without(old(routes), rfList)
      ensures Withdrawals(l, old(routes), old(routes).Keys - routes.Keys)
      ensures DistinctFamilies(rfList) ==> DistinctKeys(l)
    {
      var stored := Walk(rfList);
      ghost var m := routes;
      assert WellKeyed(m);
      l := WithdrawalsOf(stored, false);
      GoneIfDistinct(stored, false);
      AllGone(m, stored, rfList);
      Empty(rfList);
    }

    /** Starts the families over with empty tables and zero counters. */
    method Empty(rfList: seq<Family>)
      requires Valid()
      modifies this
      ensures Valid() && table.Keys == old(table.Keys) + (set f | f in rfList)
      ensures routes == Without(old(routes), rfList)
    {
      for i := 0 to |rfList|
        invariant Valid() && table.Keys == old(table.Keys) + (set f | f in rfList[..i])
        invariant routes == Without(old(routes), rfList[..i])
      {
        assert rfList[..i + 1] == rfList[..i] + [rfList[i]];
        EmptyFamily(table, accepted, routes, rfList[i]);
        table := table[rfList[i] := map[]];
        accepted := accepted[rfList[i] := 0];
        routes := Without(routes, [rfList[i]]);
      }
      assert rfList[..|rfList|] == rfList;
    }

    /** Long-lived graceful restart: routes that refuse it are removed, the others are marked.
        A rejected route is rewritten on the spot, the rest go through the update loop. */
    method MarkLlgrStaleOrDrop(rfList: seq<Family>) returns (pathList: seq<RibPath>)
      requires Valid()
      modifies this
      ensures Valid() && table.Keys == old(table.Keys)
      ensures routes == LlgrStaleOrGone(old(routes), rfList)
      ensures forall w :: w in pathList <==> LlgrReturned(old(routes), rfList, w)
      ensures DistinctFamilies(rfList) ==> DistinctKeys(pathList)
    {
      var l := Walk(rfList);
      ghost var m := routes;
      assert Represents(table, m) && WellKeyed(m);
      pathList := [];
      for i := 0 to |l|
        invariant Valid() && table.Keys == old(table.Keys)
        invariant routes == LlgrRejectedAmong(m, l[..i]) && pathList == LlgrList(l[..i])
      {
        var p := l[i];
        assert p in l && p.Key() in m;
        assert l[..i + 1][..i] == l[..i];
        LlgrRejectedStep(m, l, i);
        if p.HasNoLlgr() {
          pathList := pathList + [p.Gone()];
        } else if p.rejected {
          Rewrite(p.LlgrStale());
        } else {
          pathList := pathList + [p.LlgrStale()];
        }
      }
      assert l[..|l|] == l;
      LlgrUpdate(m, l, rfList, routes);
      LlgrListIsReturned(l, m, rfList);
      var left := Update(pathList);
    }
  }

  method WithdrawalsOf(l: seq<RibPath>, onlyStale: bool) returns (r: seq<RibPath>)
    ensures r == GoneIf(l, onlyStale)
  {
    r := [];
    for i := 0 to |l|
      invariant r == GoneIf(l[..i], onlyStale)
    {
      assert l[..i + 1][..i] == l[..i];
      if !onlyStale || l[i].stale {
        r := r + [l[i].Gone()];
      }
    }
    assert l[..|l|] == l;
  }

  predicate DistinctKeys(l: seq<RibPath>) {
    forall i, j :: 0 <= i < j < |l| ==> l[i].Key() != l[j].Key()
  }

  predicate DistinctFamilies(fs: seq<Family>) {
    forall i, j :: 0 <= i < j < |fs| ==> fs[i] != fs[j]
  }

  /** The list holds every route of the families, and each once if no family is repeated. */
  ghost predicate Lists(l: seq<RibPath>, m: Routes, fs: seq<Family>) {
    && (forall p :: p in l ==> p.family in fs && p.Key() in m && m[p.Key()] == p)
    && (forall k :: k in m && k.family in fs ==> m[k] in l)
    && (DistinctFamilies(fs) ==> DistinctKeys(l))
  }

  function InUse(l: seq<RibPath>, accepted: bool): seq<RibPath> {
    if l == [] then []
    else
      var n := |l| - 1;
      InUse(l[..n], accepted) + if accepted && l[n].rejected then [] else [l[n]]
  }

  ghost function KeysOf(m: Routes, f: Family, accepted: bool): set<RouteKey> {
    set k | k in m && k.family == f && (accepted ==> !m[k].rejected)
  }

  /** The number of routes, or of routes in use, of the families together. */
  ghost function Total(m: Routes, fs: seq<Family>, accepted: bool): nat {
    if fs == [] then 0 else Total(m, fs[..|fs| - 1], accepted) + |KeysOf(m, fs[|fs| - 1], accepted)|
  }

  /** The list holds the routes, or the routes in use, of the families. */
  ghost predicate Stored(l: seq<RibPath>, m: Routes, fs: seq<Family>, accepted: bool) {
    && (forall p :: p in l <==>
         p.family in fs && p.Key() in m && m[p.Key()] == p && (accepted ==> !p.rejected))
    && (DistinctFamilies(fs) ==> DistinctKeys(l))
  }

  lemma {:induction false} InUseHolds(l: seq<RibPath>, accepted: bool)
    ensures forall p :: p in InUse(l, accepted) <==> p in l && (accepted ==> !p.rejected)
    ensures DistinctKeys(l) ==> DistinctKeys(InUse(l, accepted))
  {
    if l != [] {
      var n := |l| - 1;
      InUseHolds(l[..n], accepted);
      assert forall p :: p in l <==> p in l[..n] || p == l[n];
    }
  }

  lemma InUseIsStored(l: seq<RibPath>, m: Routes, fs: seq<Family>, accepted: bool)
    requires Lists(l, m, fs)
    ensures Stored(InUse(l, accepted), m, fs, accepted)
  {
    InUseHolds(l, accepted);
    forall p: RibPath | p.family in fs && p.Key() in m && m[p.Key()] == p
      ensures p in l
    {
      assert p.Key().family in fs;
    }
  }

  ghost function KeysIn(l: seq<RibPath>): set<RouteKey> {
    set p | p in l :: p.Key()
  }

  ghost function AllKeys(m: Routes, fs: seq<Family>, accepted: bool): set<RouteKey> {
    set k | k in m && k.family in fs && (accepted ==> !m[k].rejected)
  }

  lemma {:induction false} DistinctKeysCount(l: seq<RibPath>)
    requires DistinctKeys(l)
    ensures |KeysIn(l)| == |l|
  {
    if l != [] {
      var n := |l| - 1;
      DistinctKeysCount(l[..n]);
      assert KeysIn(l) == KeysIn(l[..n]) + {l[n].Key()};
    }
  }

  lemma {:induction false} TotalIsCount(m: Routes, fs: seq<Family>, accepted: bool)
    requires DistinctFamilies(fs)
    ensures Total(m, fs, accepted) == |AllKeys(m, fs, accepted)|
  {
    if fs == [] {
      assert AllKeys(m, fs, accepted) == {};
    } else {
      var front, f := fs[..|fs| - 1], fs[|fs| - 1];
      TotalIsCount(m, front, accepted);
      assert f !in front;
      assert forall g :: g in fs <==> g in front || g == f;
      assert AllKeys(m, fs, accepted) == AllKeys(m, front, accepted) + KeysOf(m, f, accepted);
      assert AllKeys(m, front, accepted) !! KeysOf(m, f, accepted);
    }
  }

  lemma TotalOneMore(m: Routes, fs: seq<Family>, a: nat)
    requires a < |fs|
    ensures Total(m, fs[..a + 1], false) == Total(m, fs[..a], false) + |KeysOf(m, fs[a], false)|
  {
    assert fs[..a + 1][..a] == fs[..a];
  }

  lemma PartIsCounted(l: seq<RibPath>, m: Routes, f: Family)
    requires WellKeyed(m) && Lists(l, m, [f]) && DistinctKeys(l)
    ensures |l| == |KeysOf(m, f, false)|
  {
    DistinctKeysCount(l);
    forall k
      ensures k in KeysIn(l) <==> k in KeysOf(m, f, false)
    {
      if k in KeysOf(m, f, false) {
        assert k.family in [f] && m[k] in l && m[k].Key() == k;
      }
    }
    assert KeysIn(l) == KeysOf(m, f, false);
  }

  lemma StoredIsTotal(l: seq<RibPath>, m: Routes, fs: seq<Family>, accepted: bool)
    requires DistinctFamilies(fs) && WellKeyed(m)
    requires Stored(l, m, fs, accepted)
    ensures |l| == Total(m, fs, accepted)
  {
    DistinctKeysCount(l);
    TotalIsCount(m, fs, accepted);
    forall k
      ensures k in KeysIn(l) <==> k in AllKeys(m, fs, accepted)
    {
      if k in AllKeys(m, fs, accepted) {
        assert m[k].Key() == k && m[k] in l;
      }
    }
    assert KeysIn(l) == AllKeys(m, fs, accepted);
  }

  lemma ListsJoin(l: seq<RibPath>, part: seq<RibPath>, m: Routes, fs: seq<Family>, a: nat)
    requires a < |fs| && Lists(l, m, fs[..a]) && Lists(part, m, [fs[a]])
    ensures Lists(l + part, m, fs[..a + 1])
  {
    assert fs[..a + 1] == fs[..a] + [fs[a]];
    assert DistinctFamilies([fs[a]]);
    if DistinctFamilies(fs[..a + 1]) {
      assert forall i :: 0 <= i < a ==> fs[..a + 1][i] == fs[i] && fs[..a][i] == fs[i];
      assert fs[..a + 1][a] == fs[a];
      assert fs[a] !in fs[..a];
      assert forall p, q :: p in l && q in part ==> p.family != q.family;
    }
  }

  // ----- What the walks over the stored paths build

  /** The routes after the paths of the list have been marked stale. */
  function StaleAmong(m: Routes, l: seq<RibPath>): Routes {
    map k | k in m :: if m[k] in l then m[k].Stale() else m[k]
  }

  function StaleInUse(l: seq<RibPath>): (r: seq<RibPath>)
    ensures forall p :: p in l && !p.rejected ==> p.Stale() in r
    ensures forall w :: w in r ==> exists p :: p in l && !p.rejected && w == p.Stale()
  {
    if l == [] then []
    else
      var n := |l| - 1;
      StaleInUse(l[..n]) + if l[n].rejected then [] else [l[n].Stale()]
  }

  lemma {:induction false} StaleInUseDistinct(l: seq<RibPath>)
    ensures DistinctKeys(l) ==> DistinctKeys(StaleInUse(l))
  {
    if l != [] && DistinctKeys(l) {
      var n := |l| - 1;
      StaleInUseDistinct(l[..n]);
      forall w | w in StaleInUse(l[..n])
        ensures w.Key() != l[n].Key()
      {
        var p :| p in l[..n] && w == p.Stale();
      }
    }
  }

  lemma StaleAmongStep(m: Routes, l: seq<RibPath>, i: nat)
    requires WellKeyed(m) && i < |l| && forall p :: p in l ==> p.Key() in m && m[p.Key()] == p
    ensures StaleAmong(m, l[..i + 1]) == StaleAmong(m, l[..i])[l[i].Key() := l[i].Stale()]
    ensures StaleAmong(m, l[..i])[l[i].Key()].rejected == l[i].rejected
  {
    assert l[..i + 1] == l[..i] + [l[i]];
    assert l[i] in l;
  }

  lemma StaleAmongAll(m: Routes, l: seq<RibPath>, fs: seq<Family>)
    requires WellKeyed(m) && Lists(l, m, fs)
    ensures var r := StaleIn(m, fs);
            && StaleAmong(m, l) == r
            && (forall p :: p in StaleInUse(l) ==> p.family in fs && !p.rejected && p.Key() in r && r[p.Key()] == p)
            && forall k :: k in r && k.family in fs && !r[k].rejected ==> r[k] in StaleInUse(l)
  {
    forall k | k in m ensures m[k] in l <==> k.family in fs {
    }
  }

  /** The withdrawals of the stale paths of a list, or of all of them. */
  function GoneIf(l: seq<RibPath>, onlyStale: bool): seq<RibPath> {
    if l == [] then []
    else
      var n := |l| - 1;
      GoneIf(l[..n], onlyStale) + if onlyStale && !l[n].stale then [] else [l[n].Gone()]
  }

  lemma {:induction false} GoneIfHolds(l: seq<RibPath>, onlyStale: bool)
    ensures forall w :: w in GoneIf(l, onlyStale) <==> exists p :: p in l && (onlyStale ==> p.stale) && w == p.Gone()
  {
    if l != [] {
      var n := |l| - 1;
      GoneIfHolds(l[..n], onlyStale);
      assert forall p :: p in l <==> p in l[..n] || p == l[n];
    }
  }

  lemma {:induction false} GoneIfDistinct(l: seq<RibPath>, onlyStale: bool)
    ensures DistinctKeys(l) ==> DistinctKeys(GoneIf(l, onlyStale))
  {
    if l != [] && DistinctKeys(l) {
      var n := |l| - 1;
      GoneIfDistinct(l[..n], onlyStale);
      GoneIfHolds(l[..n], onlyStale);
      forall w | w in GoneIf(l[..n], onlyStale)
        ensures w.Key() != l[n].Key()
      {
        var p :| p in l[..n] && w == p.Gone();
      }
    }
  }

  lemma StaleGone(m: Routes, l: seq<RibPath>, fs: seq<Family>)
    requires WellKeyed(m) && Lists(l, m, fs)
    ensures var r, ps := WithoutStale(m, fs), GoneIf(l, true);
            UpdatedByAll(m, ps) == r && Withdrawals(ps, m, m.Keys - r.Keys)
    ensures forall w :: w in GoneIf(l, true) ==> w.isWithdraw && !w.isEor && w.Key() in m
  {
    var r, ps := WithoutStale(m, fs), GoneIf(l, true);
    GoneIfHolds(l, true);
    WithdrawAll(m, ps);
    forall k | k in m ensures k in (set p | p in ps :: p.Key()) <==> k.family in fs && m[k].stale {
      if k.family in fs && m[k].stale {
        assert m[k] in l && m[k].Gone() in ps;
      }
    }
  }

  lemma AllGone(m: Routes, l: seq<RibPath>, fs: seq<Family>)
    requires WellKeyed(m) && Lists(l, m, fs)
    ensures Withdrawals(GoneIf(l, false), m, m.Keys - Without(m, fs).Keys)
  {
    GoneIfHolds(l, false);
    forall k | k in m && k.family in fs ensures m[k].Gone() in GoneIf(l, false) {
      assert m[k] in l;
    }
  }

  function LlgrRejectedAmong(m: Routes, l: seq<RibPath>): Routes {
    map k | k in m :: if m[k] in l && !m[k].HasNoLlgr() && m[k].rejected then m[k].LlgrStale() else m[k]
  }

  function Llgr(p: RibPath): RibPath {
    if p.HasNoLlgr() then p.Gone() else p.LlgrStale()
  }

  function LlgrList(l: seq<RibPath>): seq<RibPath> {
    if l == [] then []
    else
      var n := |l| - 1;
      LlgrList(l[..n]) + if !l[n].HasNoLlgr() && l[n].rejected then [] else [Llgr(l[n])]
  }

  lemma {:induction false} LlgrListHolds(l: seq<RibPath>)
    ensures forall w :: w in LlgrList(l) <==> exists p :: p in l && (p.HasNoLlgr() || !p.rejected) && w == Llgr(p)
  {
    if l != [] {
      var n := |l| - 1;
      LlgrListHolds(l[..n]);
      assert forall p :: p in l <==> p in l[..n] || p == l[n];
    }
  }

  /** What is handed on: the withdrawals of the routes that refuse, and the marked routes in use. */
  ghost predicate LlgrReturned(m: Routes, fs: seq<Family>, w: RibPath) {
    exists k :: k in m && k.family in fs && (m[k].HasNoLlgr() || !m[k].rejected) && w == Llgr(m[k])
  }

  lemma LlgrListIsReturned(l: seq<RibPath>, m: Routes, fs: seq<Family>)
    requires WellKeyed(m) && Lists(l, m, fs)
    ensures forall w :: w in LlgrList(l) <==> LlgrReturned(m, fs, w)
    ensures DistinctFamilies(fs) ==> DistinctKeys(LlgrList(l))
  {
    LlgrListHolds(l);
    LlgrListDistinct(l);
    forall w
      ensures w in LlgrList(l) <==> LlgrReturned(m, fs, w)
    {
      if w in LlgrList(l) {
        var p :| p in l && (p.HasNoLlgr() || !p.rejected) && w == Llgr(p);
        assert p.Key() in m && m[p.Key()] == p && p.Key().family in fs;
      }
    }
  }

  lemma {:induction false} LlgrListDistinct(l: seq<RibPath>)
    ensures DistinctKeys(l) ==> DistinctKeys(LlgrList(l))
  {
    if l != [] && DistinctKeys(l) {
      var n := |l| - 1;
      LlgrListDistinct(l[..n]);
      LlgrListHolds(l[..n]);
      forall w | w in LlgrList(l[..n])
        ensures w.Key() != l[n].Key()
      {
        var p :| p in l[..n] && w == Llgr(p);
      }
    }
  }

  lemma LlgrRejectedStep(m: Routes, l: seq<RibPath>, i: nat)
    requires WellKeyed(m) && i < |l| && forall p :: p in l ==> p.Key() in m && m[p.Key()] == p
    ensures var r := LlgrRejectedAmong(m, l[..i]);
            && LlgrRejectedAmong(m, l[..i + 1]) ==
                 (if !l[i].HasNoLlgr() && l[i].rejected then r[l[i].Key() := l[i].LlgrStale()] else r)
            && r[l[i].Key()].rejected == l[i].rejected
  {
    assert l[..i + 1] == l[..i] + [l[i]];
    assert l[i] in l;
  }

  lemma LlgrUpdate(m: Routes, l: seq<RibPath>, fs: seq<Family>, r: Routes)
    requires WellKeyed(m) && Lists(l, m, fs) && r == LlgrRejectedAmong(m, l)
    ensures UpdatedByAll(r, LlgrList(l)) == LlgrStaleOrGone(m, fs)
    ensures forall w :: w in LlgrList(l) ==> w.Key() in m && (!w.isWithdraw ==> !w.dropped)
  {
    LlgrListIs(m, l);
    var u, e := UpdatedByAll(r, LlgrList(l)), LlgrStaleOrGone(m, fs);
    forall k: RouteKey ensures (k in u <==> k in e) && (k in u ==> u[k] == e[k]) {
      LlgrUpdateAt(m, l, fs, r, k);
    }
  }

  lemma LlgrListIs(m: Routes, l: seq<RibPath>)
    requires WellKeyed(m) && forall p :: p in l ==> p.Key() in m && m[p.Key()] == p
    ensures forall w :: w in LlgrList(l) ==>
              w.Key() in m && m[w.Key()] in l && w == Llgr(m[w.Key()]) && !w.isEor && (!w.isWithdraw ==> !w.dropped)
    ensures RepeatsOnly(LlgrList(l))
  {
    var ps := LlgrList(l);
    LlgrListHolds(l);
    forall i, j | 0 <= i < j < |ps| && ps[i].Key() == ps[j].Key() ensures ps[i] == ps[j] {
      assert ps[i] in ps && ps[j] in ps;
    }
  }

  lemma LlgrUpdateAt(m: Routes, l: seq<RibPath>, fs: seq<Family>, r: Routes, k: RouteKey)
    requires WellKeyed(m) && Lists(l, m, fs) && r == LlgrRejectedAmong(m, l) && RepeatsOnly(LlgrList(l))
    requires forall w :: w in LlgrList(l) ==>
               w.Key() in m && m[w.Key()] in l && w == Llgr(m[w.Key()]) && !w.isEor
    ensures var u, e := UpdatedByAll(r, LlgrList(l)), LlgrStaleOrGone(m, fs);
            (k in u <==> k in e) && (k in u ==> u[k] == e[k])
  {
    var ps := LlgrList(l);
    LlgrListHolds(l);
    RepeatedWriters(r, ps, k);
    var i := LastWriter(ps, k);
    if i >= 0 {
      assert ps[i] in ps;
    } else if k in m && k.family in fs {
      assert m[k] in l;
      NotWritten(ps, k, Llgr(m[k]));
    }
  }

  lemma NotWritten(ps: seq<RibPath>, k: RouteKey, p: RibPath)
    requires LastWriter(ps, k) == -1 && p.Key() == k && !p.isEor
    ensures p !in ps
  {
  }

  /** The list consists of the withdrawals of the routes `gone`. */
  ghost predicate Withdrawals(l: seq<RibPath>, m: Routes, gone: set<RouteKey>) {
    && (forall w :: w in l ==> w.Key() in gone && w.Key() in m && w == m[w.Key()].Gone())
    && (forall k :: k in gone ==> k in m && m[k].Gone() in l)
  }

  lemma {:induction false} WithdrawAll(m: Routes, ps: seq<RibPath>)
    requires forall p :: p in ps ==> p.isWithdraw && !p.isEor
    ensures UpdatedByAll(m, ps) == m - (set p | p in ps :: p.Key())
  {
    if ps != [] {
      var n := |ps| - 1;
      assert ps == ps[..n] + [ps[n]];
      WithdrawAll(m, ps[..n]);
    }
  }

  lemma EmptyFamily(t: Table, a: map<Family, int>, m: Routes, f: Family)
    requires Represents(t, m) && Counts(a, m)
    ensures Represents(t[f := map[]], Without(m, [f])) && Counts(a[f := 0], Without(m, [f]))
  {
    var u, r := t[f := map[]], Without(m, [f]);
    forall g, n ensures Holds(ListAt(u, g, n), g, n, r) {
      assert Holds(ListAt(t, g, n), g, n, m);
    }
    forall g ensures CountIn(a[f := 0], g) == |AcceptedKeys(r, g)| {
      assert AcceptedKeys(r, g) == if g == f then {} else AcceptedKeys(m, g);
    }
  }

  // ----- What sequences of operations guarantee

  /** Marking everything stale, updating by freshly received paths and dropping what is still
      stale leaves, in the families, exactly the routes announced and not withdrawn meanwhile. */
  lemma SweepIsExact(m: Routes, fs: seq<Family>, ps: seq<RibPath>, k: RouteKey)
    requires forall p :: p in ps ==> !p.stale
    ensures var r, i := WithoutStale(UpdatedByAll(StaleIn(m, fs), ps), fs), LastWriter(ps, k);
            if i >= 0 then (k in r <==> !ps[i].isWithdraw) && (k in r ==> r[k].(timestamp := ps[i].timestamp) == ps[i])
            else if k.family in fs then k !in r
            else (k in r <==> k in m) && (k in m ==> r[k] == m[k])
  {
    LastWriterWins(StaleIn(m, fs), ps, k);
    var i := LastWriter(ps, k);
    if i >= 0 {
      assert ps[i] in ps;
    }
  }

  /** After the long-lived step no route of the families refuses it, and every one is marked. */
  lemma LlgrStepIsComplete(m: Routes, fs: seq<Family>, k: RouteKey)
    requires k.family in fs
    ensures var r := LlgrStaleOrGone(m, fs);
            && (k in r <==> k in m && !m[k].HasNoLlgr())
            && (k in r ==> !r[k].HasNoLlgr() && r[k].IsLlgrStale() && r[k].rejected == m[k].rejected)
  {
    if k in m {
      var c := m[k].attrs.communities;
      assert (c + [COMMUNITY_LLGR_STALE])[|c|] == COMMUNITY_LLGR_STALE;
    }
  }
}
