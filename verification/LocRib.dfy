/** What the Loc-RIB is told of a peer's routes, and when it knows exactly the routes in use. */
module LocRibs {
  import opened Common
  import opened AdjRibs
  import opened GracefulRestart

  /** What a list of paths says about each route it speaks about: gone, or as it is now. */
  type News = map<RouteKey, Option<RibPath>>

  function Says(p: RibPath): Option<RibPath> {
    if p.isWithdraw then None else Some(p)
  }

  function NewsOf(l: seq<RibPath>): News {
    if l == [] then map[]
    else
      var n := |l| - 1;
      if l[n].isEor then NewsOf(l[..n]) else NewsOf(l[..n])[l[n].Key() := Says(l[n])]
  }

  /** The peer's routes in the Loc-RIB after it has been told. */
  function Told(loc: Routes, n: News): Routes {
    map k | k in loc.Keys + n.Keys && (k in n ==> n[k].Some?) :: if k in n then n[k].value else loc[k]
  }

  /** What is held of one route after that. */
  function Heard(loc: Routes, n: News, k: RouteKey): Option<RibPath> {
    if k in n then n[k] else if k in loc then Some(loc[k]) else None
  }

  /** The routes in use. */
  function Used(m: Routes): Routes {
    map k | k in m && !m[k].rejected :: m[k]
  }

  // ----- Lists that say the same

  /** A list whose paths agree with `n` and that leaves out nothing says `n`. */
  lemma {:induction false} NewsIs(l: seq<RibPath>, n: News)
    requires forall p :: p in l ==> !p.isEor && p.Key() in n && n[p.Key()] == Says(p)
    requires forall k :: k in n ==> exists p :: p in l && p.Key() == k
    ensures NewsOf(l) == n
  {
    NewsAgree(l, n);
    forall k | k in n ensures k in NewsOf(l) {
      var p :| p in l && p.Key() == k;
      NewsMention(l, p);
    }
  }

  lemma {:induction false} NewsAgree(l: seq<RibPath>, n: News)
    requires forall p :: p in l ==> !p.isEor && p.Key() in n && n[p.Key()] == Says(p)
    ensures forall k :: k in NewsOf(l) ==> k in n && NewsOf(l)[k] == n[k]
  {
    if l != [] {
      assert forall p :: p in l[..|l| - 1] ==> p in l;
      NewsAgree(l[..|l| - 1], n);
    }
  }

  lemma {:induction false} NewsMention(l: seq<RibPath>, p: RibPath)
    requires p in l && !p.isEor
    ensures p.Key() in NewsOf(l)
  {
    if p != l[|l| - 1] {
      NewsMention(l[..|l| - 1], p);
    }
  }

  lemma {:induction false} NewsConcat(a: seq<RibPath>, b: seq<RibPath>)
    ensures NewsOf(a + b) == NewsOf(a) + NewsOf(b)
  {
    if b == [] {
      assert a + b == a;
    } else {
      var n := |b| - 1;
      assert (a + b)[..|a| + n] == a + b[..n];
      NewsConcat(a, b[..n]);
    }
  }

  /** The peer's routes in the Loc-RIB after the paths of a list have been applied one by one. */
  function Applied(loc: Routes, l: seq<RibPath>): Routes {
    if l == [] then loc
    else
      var n := |l| - 1;
      var before := Applied(loc, l[..n]);
      if l[n].isEor then before
      else if l[n].isWithdraw then before - {l[n].Key()}
      else before[l[n].Key() := l[n]]
  }

  /** Only what the list says in the end matters. */
  lemma {:induction false} AppliedIsTold(loc: Routes, l: seq<RibPath>)
    ensures Applied(loc, l) == Told(loc, NewsOf(l))
  {
    if l != [] {
      AppliedIsTold(loc, l[..|l| - 1]);
    }
  }

  // ----- What each event tells

  function Gone(m: Routes, fs: seq<Family>): News {
    map k | k in m && k.family in fs :: None
  }

  function UsedIn(m: Routes, fs: seq<Family>): News {
    map k | k in m && k.family in fs && !m[k].rejected :: Some(m[k])
  }

  function Swept(m: Routes, fs: seq<Family>): News {
    map k | k in m && k.family in fs && m[k].stale :: None
  }

  function LlgrNews(m: Routes, fs: seq<Family>): News {
    map k | k in m && k.family in fs && (m[k].HasNoLlgr() || !m[k].rejected) ::
      if m[k].HasNoLlgr() then None else Some(m[k].LlgrStale())
  }

  function LossNews(s: Peer, graceful: bool): News {
    var all := Families(s.afiSafis);
    if graceful then
      var preserved := Where(s.afiSafis, Preserved);
      var stale := StaleIn(s.routes, Members(all, preserved, true));
      UsedIn(stale, Members(all, preserved, true)) + Gone(stale, Members(all, preserved, false))
    else Gone(s.routes, all)
  }

  function RestartOverNews(s: Peer): News {
    var all := Families(s.afiSafis);
    if s.longLivedEnabled then
      var longLived := Where(s.afiSafis, LongLived);
      Gone(s.routes, Members(all, longLived, false)) +
      LlgrNews(Without(s.routes, Members(all, longLived, false)), Members(all, longLived, true))
    else Gone(s.routes, all)
  }

  /** The paths of an UPDATE that are handed on: neither markers nor rejected announcements, and
      with the age that the table gave them. */
  function Propagated(m: Routes, ps: seq<RibPath>): seq<RibPath> {
    if ps == [] then []
    else
      var n := |ps| - 1;
      Propagated(m, ps[..n]) +
      if ps[n].isEor || (ps[n].rejected && !ps[n].isWithdraw) then [] else [AsLeft(UpdatedByAll(m, ps[..n]), ps[n])]
  }

  /** An UPDATE that hits the prefix limit is stored, but nothing of it is handed on. */
  function UpdateNews(s: Peer, paths: seq<RibPath>, prefixLimitHit: bool): News {
    if s.session != Established || prefixLimitHit then map[]
    else NewsOf(Propagated(s.routes, paths)) + SweepNews(s, paths)
  }

  /** The withdrawals of stale routes if the markers of the UPDATE end the restart. */
  function SweepNews(s: Peer, paths: seq<RibPath>): News {
    if EndsRestart(s, paths) then Swept(UpdatedByAll(s.routes, paths), Families(s.afiSafis)) else map[]
  }

  function NewsAbout(s: Peer, e: Event): News {
    match e
    case StateChange(next, graceful) =>
      if s.session == Established then LossNews(s, graceful)
      else if s.peerRestarting && next == Idle then RestartOverNews(s)
      else map[]
    case Opened(_, _, _) => map[]
    case Received(paths, prefixLimitHit) => UpdateNews(s, paths, prefixLimitHit)
    case LlgrTimerExpired(f) => Gone(s.routes, [f])
  }

  /** The peer's routes in the Loc-RIB after a run. */
  function LocAfter(s: Peer, run: seq<Event>): Routes {
    if run == [] then map[]
    else
      var n := |run| - 1;
      Told(LocAfter(s, run[..n]), NewsAbout(After(s, run[..n]), run[n]))
  }

  // ----- Whether the Loc-RIB knows the routes in use

  /** The last path of the list about `k` that is handed on, or -1. */
  function LastHandedOn(ps: seq<RibPath>, k: RouteKey): (i: int)
    ensures -1 <= i < |ps|
    ensures i >= 0 ==> !ps[i].isEor && ps[i].Key() == k && (ps[i].rejected ==> ps[i].isWithdraw)
  {
    if ps == [] then -1
    else
      var n := |ps| - 1;
      if !ps[n].isEor && ps[n].Key() == k && (ps[n].rejected ==> ps[n].isWithdraw) then n else LastHandedOn(ps[..n], k)
  }

  /** What is handed on of the UPDATE leaves the route in use. */
  predicate LeftInUse(m: Routes, ps: seq<RibPath>, k: RouteKey) {
    var j := LastHandedOn(ps, k);
    if j >= 0 then !ps[j].isWithdraw else k in Used(m)
  }

  /** The UPDATE ends with a rejected path for a route that was in use before, or that the UPDATE
      announced earlier, and did not withdraw since. */
  predicate Hides(m: Routes, ps: seq<RibPath>, k: RouteKey) {
    var i := LastWriter(ps, k);
    i >= 0 && ps[i].rejected && !ps[i].isWithdraw && LeftInUse(m, ps, k)
  }

  /** The UPDATE changes what is in use without the Loc-RIB learning of it. */
  ghost predicate Withholds(s: Peer, e: Event) {
    e.Received? && s.session == Established &&
    if e.prefixLimitHit then Used(UpdatedByAll(s.routes, e.paths)) != Used(s.routes)
    else exists k :: Hides(s.routes, e.paths, k)
  }

  // ----- Event by event

  /** What the Loc-RIB holds after the paths of an UPDATE: the routes in use, and the hidden ones. */
  ghost predicate Tells(m: Routes, ps: seq<RibPath>, k: RouteKey) {
    var r, heard := UpdatedByAll(m, ps), Heard(Used(m), NewsOf(Propagated(m, ps)), k);
    && (k in r && !r[k].rejected ==> heard == Some(r[k]))
    && (heard.Some? && (k in r ==> r[k].rejected) <==> Hides(m, ps, k))
    && (heard.Some? <==> LeftInUse(m, ps, k))
  }

  lemma {:induction false} PropagatedTells(m: Routes, ps: seq<RibPath>, k: RouteKey)
    ensures Tells(m, ps, k)
  {
    if ps != [] {
      var n := |ps| - 1;
      PropagatedTells(m, ps[..n], k);
      assert ps == ps[..n] + [ps[n]];
      OnePathMore(m, ps[..n], ps[n], k);
    }
  }

  lemma LastOnes(m: Routes, ps: seq<RibPath>, p: RibPath, k: RouteKey)
    ensures var about, handedOn := !p.isEor && p.Key() == k, p.rejected ==> p.isWithdraw;
            && (LeftInUse(m, ps + [p], k) <==>
                  if about && handedOn then !p.isWithdraw else LeftInUse(m, ps, k))
            && (Hides(m, ps + [p], k) <==> if about then !handedOn && LeftInUse(m, ps, k) else Hides(m, ps, k))
  {
    assert (ps + [p])[..|ps|] == ps;
  }

  lemma OnePathMore(m: Routes, ps: seq<RibPath>, p: RibPath, k: RouteKey)
    requires Tells(m, ps, k)
    ensures Tells(m, ps + [p], k)
  {
    LastOnes(m, ps, p, k);
    HeardOneMore(m, ps, p, k);
    assert (ps + [p])[..|ps|] == ps;
    assert UpdatedByAll(m, ps + [p]) == UpdatedBy(UpdatedByAll(m, ps), p);
  }

  lemma HeardOneMore(m: Routes, ps: seq<RibPath>, p: RibPath, k: RouteKey)
    ensures Heard(Used(m), NewsOf(Propagated(m, ps + [p])), k) ==
              if p.isEor || (p.rejected && !p.isWithdraw) || p.Key() != k
              then Heard(Used(m), NewsOf(Propagated(m, ps)), k)
              else Says(AsLeft(UpdatedByAll(m, ps), p))
  {
    NewsOneMore(m, ps, p);
  }

  lemma NewsOneMore(m: Routes, ps: seq<RibPath>, p: RibPath)
    ensures NewsOf(Propagated(m, ps + [p])) ==
              if p.isEor || (p.rejected && !p.isWithdraw) then NewsOf(Propagated(m, ps))
              else NewsOf(Propagated(m, ps))[p.Key() := Says(AsLeft(UpdatedByAll(m, ps), p))]
  {
    assert (ps + [p])[..|ps|] == ps;
    var told, x := Propagated(m, ps), AsLeft(UpdatedByAll(m, ps), p);
    if p.isEor || (p.rejected && !p.isWithdraw) {
      assert Propagated(m, ps + [p]) == told + [] == told;
    } else {
      assert Propagated(m, ps + [p]) == told + [x] && (told + [x])[..|told|] == told;
      assert x.Key() == p.Key() && !x.isEor;
    }
  }

  lemma HiddenIsFresh(m: Routes, ps: seq<RibPath>, k: RouteKey)
    requires Hides(m, ps, k) && forall p :: p in ps ==> !p.stale
    ensures k in UpdatedByAll(m, ps) && !UpdatedByAll(m, ps)[k].stale && UpdatedByAll(m, ps)[k].rejected
  {
    LastWriterWins(m, ps, k);
    assert ps[LastWriter(ps, k)] in ps;
  }

  /** At `k` the news makes of the routes in use of `m` those of `r`. */
  predicate RightAt(m: Routes, n: News, r: Routes, k: RouteKey) {
    Heard(Used(m), n, k) == if k in r && !r[k].rejected then Some(r[k]) else None
  }

  lemma ToldIsUsedIff(m: Routes, n: News, r: Routes)
    ensures Told(Used(m), n) == Used(r) <==> forall k :: RightAt(m, n, r, k)
  {
    var a, b := Told(Used(m), n), Used(r);
    forall k
      ensures RightAt(m, n, r, k) <==> (k in a <==> k in b) && (k in a ==> k in b && a[k] == b[k])
    {
    }
    if forall k :: RightAt(m, n, r, k) {
      assert forall k :: k in a <==> k in b;
    }
  }

  /** The paths of an UPDATE are right at a route unless they hide it. */
  lemma PathsTellIff(m: Routes, ps: seq<RibPath>, k: RouteKey)
    ensures RightAt(m, NewsOf(Propagated(m, ps)), UpdatedByAll(m, ps), k) <==> !Hides(m, ps, k)
  {
    PropagatedTells(m, ps, k);
  }

  lemma RoutesAfterUpdate(s: Peer, ps: seq<RibPath>)
    requires s.session == Established
    ensures var r := UpdatedByAll(s.routes, ps);
            UpdateReceived(s, ps, false).routes ==
              if EndsRestart(s, ps) then WithoutStale(r, Families(s.afiSafis)) else r
  {
    var eors := EorsOf(ps);
    if ps == [] {
      assert eors == {} && UpdatedByAll(s.routes, ps) == s.routes;
    } else if eors == {} {
      assert !EndsRestart(s, ps);
    }
  }

  /** The sweep is right at every route that is not hidden and stale. */
  lemma SweepTellsIff(m: Routes, n: News, r: Routes, fs: seq<Family>, k: RouteKey)
    requires k in r && r[k].stale ==> RightAt(m, n, r, k)
    ensures RightAt(m, n + Swept(r, fs), WithoutStale(r, fs), k) <==> RightAt(m, n, r, k)
  {
  }

  lemma UpdateTellsIff(s: Peer, ps: seq<RibPath>, k: RouteKey)
    requires s.session == Established && forall p :: p in ps ==> !p.stale
    ensures RightAt(s.routes, UpdateNews(s, ps, false), UpdateReceived(s, ps, false).routes, k) <==>
            !Hides(s.routes, ps, k)
  {
    var m, n, r := s.routes, NewsOf(Propagated(s.routes, ps)), UpdatedByAll(s.routes, ps);
    PathsTellIff(m, ps, k);
    RoutesAfterUpdate(s, ps);
    if Hides(m, ps, k) {
      HiddenIsFresh(m, ps, k);
    }
    SweepTellsIff(m, n, r, Families(s.afiSafis), k);
    assert n + map[] == n;
  }

  lemma LossTells(s: Peer, graceful: bool, k: RouteKey)
    requires k in s.routes ==> k.family in Families(s.afiSafis)
    ensures RightAt(s.routes, LossNews(s, graceful), SessionLost(s, graceful).routes, k)
  {
  }

  lemma RestartOverTells(s: Peer, k: RouteKey)
    requires k in s.routes ==> k.family in Families(s.afiSafis)
    ensures RightAt(s.routes, RestartOverNews(s), RestartTimeOver(s).routes, k)
  {
  }

  /** At each route: a Loc-RIB that was right is right after the event unless that is an UPDATE that
      hides the route, or one that hits the prefix limit. */
  lemma EventTellsAt(s: Peer, e: Event, k: RouteKey)
    requires Inv(s) && Possible(s, e) && !(e.Received? && e.prefixLimitHit)
    ensures RightAt(s.routes, NewsAbout(s, e), Step(s, e).routes, k) <==>
            !(e.Received? && s.session == Established && Hides(s.routes, e.paths, k))
  {
    match e
    case StateChange(next, graceful) => StateChangeTells(s, next, graceful, k);
    case Opened(gr, longLived, bothRestarting) => OpenGrows(s, gr, longLived, bothRestarting);
    case Received(paths, _) => ReceivedTellsIff(s, paths, k);
    case LlgrTimerExpired(f) => ExpiryTells(s, f, k);
  }

  lemma ReceivedTellsIff(s: Peer, ps: seq<RibPath>, k: RouteKey)
    requires forall p :: p in ps ==> !p.stale
    ensures RightAt(s.routes, UpdateNews(s, ps, false), UpdateReceived(s, ps, false).routes, k) <==>
            !(s.session == Established && Hides(s.routes, ps, k))
  {
    if s.session == Established {
      UpdateTellsIff(s, ps, k);
    }
  }

  lemma ExpiryTells(s: Peer, f: Family, k: RouteKey)
    ensures RightAt(s.routes, Gone(s.routes, [f]), TimerExpired(s, f).routes, k)
  {
    GoneTells(s.routes, [f], k);
    ExpiryRoutes(s, f);
  }

  lemma ExpiryRoutes(s: Peer, f: Family)
    ensures TimerExpired(s, f).routes == Without(s.routes, [f])
  {
  }

  lemma GoneTells(m: Routes, fs: seq<Family>, k: RouteKey)
    ensures RightAt(m, Gone(m, fs), Without(m, fs), k)
  {
  }

  lemma StateChangeTells(s: Peer, next: Session, graceful: bool, k: RouteKey)
    requires k in s.routes ==> k.family in Families(s.afiSafis)
    ensures RightAt(s.routes, NewsAbout(s, StateChange(next, graceful)), StateChanged(s, next, graceful).routes, k)
  {
    var t := s.(session := next);
    if s.session == Established {
      LossTells(t, graceful, k);
      assert LossNews(t, graceful) == LossNews(s, graceful);
    } else if s.peerRestarting && next == Idle {
      RestartOverTells(t, k);
      assert RestartOverNews(t) == RestartOverNews(s);
    }
  }

  /** A Loc-RIB that was right is right after the event unless that withholds something. */
  lemma EventTellsIff(s: Peer, e: Event)
    requires Inv(s) && Possible(s, e)
    ensures Told(Used(s.routes), NewsAbout(s, e)) == Used(Step(s, e).routes) <==> !Withholds(s, e)
  {
    if e.Received? && e.prefixLimitHit {
      assert Told(Used(s.routes), map[]) == Used(s.routes);
      StoredOnly(s, e.paths);
    } else {
      ToldIsUsedIff(s.routes, NewsAbout(s, e), Step(s, e).routes);
      forall k
        ensures RightAt(s.routes, NewsAbout(s, e), Step(s, e).routes, k) <==>
                !(e.Received? && s.session == Established && Hides(s.routes, e.paths, k))
      {
        EventTellsAt(s, e, k);
      }
    }
  }

  lemma StoredOnly(s: Peer, ps: seq<RibPath>)
    ensures UpdateReceived(s, ps, true).routes ==
              if s.session == Established then UpdatedByAll(s.routes, ps) else s.routes
  {
  }

  // ----- Over runs

  /** After the run and after each part of it the Loc-RIB holds exactly the routes in use. */
  predicate RightThroughout(s: Peer, run: seq<Event>) {
    LocAfter(s, run) == Used(After(s, run).routes) && (run != [] ==> RightThroughout(s, run[..|run| - 1]))
  }

  /** No event of the run withholds a change from the Loc-RIB. */
  ghost predicate WithholdsNothing(s: Peer, run: seq<Event>) {
    run != [] ==>
      WithholdsNothing(s, run[..|run| - 1]) && !Withholds(After(s, run[..|run| - 1]), run[|run| - 1])
  }

  /** Over every run: the Loc-RIB holds exactly the peer's routes in use, after each event, if and only
      if no event withholds a change from it. */
  lemma {:induction false} LocRibIsRightIff(s: Peer, run: seq<Event>)
    requires Quiet(s) && PossibleRun(s, run)
    ensures RightThroughout(s, run) <==> WithholdsNothing(s, run)
  {
    if run != [] {
      LocRibIsRightIff(s, run[..|run| - 1]);
      assert run[..|run| - 1] + [run[|run| - 1]] == run;
      OneEventMore(s, run[..|run| - 1], run[|run| - 1]);
    }
  }

  lemma OneEventMore(s: Peer, run: seq<Event>, e: Event)
    requires Quiet(s) && PossibleRun(s, run + [e]) && (RightThroughout(s, run) <==> WithholdsNothing(s, run))
    ensures RightThroughout(s, run + [e]) <==> WithholdsNothing(s, run + [e])
  {
    assert (run + [e])[..|run|] == run;
    if RightThroughout(s, run) {
      RunKeepsInv(s, run);
      EventTellsIff(After(s, run), e);
    }
  }

  /** The Loc-RIB wrongly keeps a used route: the last path about it is a rejected one. */
  lemma RejectedPathHides(s: Peer) returns (run: seq<Event>)
    requires Quiet(s) && s.afiSafis != []
    ensures PossibleRun(s, run) && !RightThroughout(s, run)
  {
    var g := s.afiSafis[0].family;
    var p := RouteOf(g);
    var up, t := KnowsRoute(s);
    run := up + [Received([p.(rejected := true)], false)];
    RejectedHides(t.routes, p.(rejected := true));
    assert Families(t.afiSafis)[0] == g;
    Withheld(s, up, Received([p.(rejected := true)], false));
  }

  lemma Withheld(s: Peer, run: seq<Event>, e: Event)
    requires Quiet(s) && PossibleRun(s, run) && Possible(After(s, run), e) && Withholds(After(s, run), e)
    ensures PossibleRun(s, run + [e]) && !RightThroughout(s, run + [e])
  {
    OneMore(s, run, e);
    assert (run + [e])[..|run|] == run;
    LocRibIsRightIff(s, run + [e]);
  }

  lemma RejectedHides(m: Routes, p: RibPath)
    requires p.rejected && !p.isWithdraw && !p.isEor && p.Key() in Used(m)
    ensures Hides(m, [p], p.Key())
  {
    assert [p][..0] == [];
  }

  /** A session comes up and brings a route, which the Loc-RIB learns of. */
  lemma KnowsRoute(s: Peer) returns (run: seq<Event>, t: Peer)
    requires Quiet(s) && s.afiSafis != []
    ensures PossibleRun(s, run) && t == After(s, run) && t.session == Established && !t.peerRestarting
    ensures t.afiSafis == s.afiSafis
    ensures var k := RouteOf(s.afiSafis[0].family).Key();
            k in t.routes && !t.routes[k].rejected && k in LocAfter(s, run)
  {
    var g := s.afiSafis[0].family;
    var p, e := RouteOf(g), Received([RouteOf(g)], false);
    var up := ComesUp(s, []);
    var c := After(s, up);
    assert Families(c.afiSafis)[0] == g;
    run := up + [e];
    OneMore(s, up, e);
    t := After(s, run);
    assert run[..|up|] == up;
    RouteIsNews(c, p);
  }

  lemma RouteIsNews(s: Peer, p: RibPath)
    requires s.session == Established && !s.peerRestarting && !p.isEor && !p.isWithdraw && !p.rejected
    ensures var t, n := UpdateReceived(s, [p], false), UpdateNews(s, [p], false);
            && t == s.(routes := t.routes) && p.Key() in t.routes && !t.routes[p.Key()].rejected
            && p.Key() in n && n[p.Key()].Some?
  {
    assert [p][..0] == [] && [] + [p] == [p];
    assert UpdatedByAll(s.routes, [p]) == UpdatedBy(s.routes, p);
    assert EorsOf([p]) == {};
    NewsOneMore(s.routes, [], p);
    assert NewsOf(Propagated(s.routes, [])) == map[];
  }

  // ----- Whether the Loc-RIB keeps routes that the peer has no more

  /** An UPDATE that hits the prefix limit withdraws a route that the Loc-RIB holds. */
  ghost predicate Abandons(s: Peer, loc: Routes, e: Event) {
    && e.Received? && s.session == Established && e.prefixLimitHit
    && exists k :: k in loc && LastWriter(e.paths, k) >= 0 && e.paths[LastWriter(e.paths, k)].isWithdraw
  }

  /** At `k` the news leaves the Loc-RIB with a route only if `r` has one. */
  predicate KnownAt(loc: Routes, n: News, r: Routes, k: RouteKey) {
    Heard(loc, n, k).Some? ==> k in r
  }

  lemma {:induction false} PathsAreKnown(m: Routes, loc: Routes, ps: seq<RibPath>, k: RouteKey)
    requires k in loc ==> k in m
    ensures KnownAt(loc, NewsOf(Propagated(m, ps)), UpdatedByAll(m, ps), k)
  {
    if ps != [] {
      var n := |ps| - 1;
      PathsAreKnown(m, loc, ps[..n], k);
      assert ps == ps[..n] + [ps[n]];
      NewsOneMore(m, ps[..n], ps[n]);
    }
  }

  lemma UpdateIsKnown(s: Peer, loc: Routes, ps: seq<RibPath>, k: RouteKey)
    requires s.session == Established && (k in loc ==> k in s.routes)
    ensures KnownAt(loc, UpdateNews(s, ps, false), UpdateReceived(s, ps, false).routes, k)
  {
    PathsAreKnown(s.routes, loc, ps, k);
    RoutesAfterUpdate(s, ps);
  }

  lemma LossIsKnown(s: Peer, loc: Routes, graceful: bool, k: RouteKey)
    requires k in loc ==> k in s.routes && k.family in Families(s.afiSafis)
    ensures KnownAt(loc, LossNews(s, graceful), SessionLost(s, graceful).routes, k)
  {
  }

  lemma RestartOverIsKnown(s: Peer, loc: Routes, k: RouteKey)
    requires k in loc ==> k in s.routes && k.family in Families(s.afiSafis)
    ensures KnownAt(loc, RestartOverNews(s), RestartTimeOver(s).routes, k)
  {
  }

  lemma StateChangeIsKnown(s: Peer, loc: Routes, next: Session, graceful: bool, k: RouteKey)
    requires k in loc ==> k in s.routes && k.family in Families(s.afiSafis)
    ensures KnownAt(loc, NewsAbout(s, StateChange(next, graceful)), StateChanged(s, next, graceful).routes, k)
  {
    var t := s.(session := next);
    if s.session == Established {
      LossIsKnown(t, loc, graceful, k);
      assert LossNews(t, graceful) == LossNews(s, graceful);
    } else if s.peerRestarting && next == Idle {
      RestartOverIsKnown(t, loc, k);
      assert RestartOverNews(t) == RestartOverNews(s);
    }
  }

  lemma ExpiryIsKnown(s: Peer, loc: Routes, f: Family, k: RouteKey)
    requires k in loc ==> k in s.routes
    ensures KnownAt(loc, Gone(s.routes, [f]), TimerExpired(s, f).routes, k)
  {
    GoneIsKnown(s.routes, loc, [f], k);
    ExpiryRoutes(s, f);
  }

  lemma GoneIsKnown(m: Routes, loc: Routes, fs: seq<Family>, k: RouteKey)
    requires k in loc ==> k in m
    ensures KnownAt(loc, Gone(m, fs), Without(m, fs), k)
  {
  }

  lemma EventIsKnown(s: Peer, loc: Routes, e: Event, k: RouteKey)
    requires Inv(s) && Possible(s, e) && !(e.Received? && e.prefixLimitHit) && (k in loc ==> k in s.routes)
    ensures KnownAt(loc, NewsAbout(s, e), Step(s, e).routes, k)
  {
    match e
    case StateChange(next, graceful) => StateChangeIsKnown(s, loc, next, graceful, k);
    case Opened(gr, longLived, bothRestarting) => OpenGrows(s, gr, longLived, bothRestarting);
    case Received(paths, _) =>
      if s.session == Established {
        UpdateIsKnown(s, loc, paths, k);
      }
    case LlgrTimerExpired(f) => ExpiryIsKnown(s, loc, f, k);
  }

  lemma LimitIsKnownIff(m: Routes, loc: Routes, ps: seq<RibPath>)
    requires forall k :: k in loc ==> k in m
    ensures (forall k :: k in loc ==> k in UpdatedByAll(m, ps)) <==>
            !exists k :: k in loc && LastWriter(ps, k) >= 0 && ps[LastWriter(ps, k)].isWithdraw
  {
    forall k | k in loc
      ensures k in UpdatedByAll(m, ps) <==> !(LastWriter(ps, k) >= 0 && ps[LastWriter(ps, k)].isWithdraw)
    {
      LastWriterWins(m, ps, k);
    }
  }

  /** A Loc-RIB that holds only routes of the peer does so after the event unless that abandons one. */
  lemma EventKeepsKeysIff(s: Peer, loc: Routes, e: Event)
    requires Inv(s) && Possible(s, e) && loc.Keys <= s.routes.Keys
    ensures Told(loc, NewsAbout(s, e)).Keys <= Step(s, e).routes.Keys <==> !Abandons(s, loc, e)
  {
    var after := Told(loc, NewsAbout(s, e));
    if e.Received? && e.prefixLimitHit {
      assert after == loc;
      StoredOnly(s, e.paths);
      LimitIsKnownIff(s.routes, loc, e.paths);
    } else {
      forall k | k in after
        ensures k in Step(s, e).routes
      {
        EventIsKnown(s, loc, e, k);
      }
    }
  }

  /** After the run and after each part of it the Loc-RIB holds only routes that the peer has. */
  predicate NoneForeign(s: Peer, run: seq<Event>) {
    LocAfter(s, run).Keys <= After(s, run).routes.Keys && (run != [] ==> NoneForeign(s, run[..|run| - 1]))
  }

  /** No UPDATE of the run abandons a route. */
  ghost predicate AbandonsNothing(s: Peer, run: seq<Event>) {
    run != [] ==>
      var front := run[..|run| - 1];
      AbandonsNothing(s, front) && !Abandons(After(s, front), LocAfter(s, front), run[|run| - 1])
  }

  /** Over every run: the Loc-RIB never keeps a route that the peer has no more, if and only if no
      UPDATE that hits the prefix limit withdraws a route that the Loc-RIB holds. */
  lemma {:induction false} NothingAbandonedIff(s: Peer, run: seq<Event>)
    requires Quiet(s) && PossibleRun(s, run)
    ensures NoneForeign(s, run) <==> AbandonsNothing(s, run)
  {
    if run != [] {
      NothingAbandonedIff(s, run[..|run| - 1]);
      assert run[..|run| - 1] + [run[|run| - 1]] == run;
      OneEventMoreKnown(s, run[..|run| - 1], run[|run| - 1]);
    }
  }

  lemma OneEventMoreKnown(s: Peer, run: seq<Event>, e: Event)
    requires Quiet(s) && PossibleRun(s, run + [e]) && (NoneForeign(s, run) <==> AbandonsNothing(s, run))
    ensures NoneForeign(s, run + [e]) <==> AbandonsNothing(s, run + [e])
  {
    assert (run + [e])[..|run|] == run;
    if NoneForeign(s, run) {
      RunKeepsInv(s, run);
      EventKeepsKeysIff(After(s, run), LocAfter(s, run), e);
    }
  }

  /** A peer without session and without restart in progress has nothing in the Loc-RIB, under a
      configuration that excludes the hazard, if no UPDATE abandoned a route. */
  lemma NothingIsLeftBehind(s: Peer, run: seq<Event>)
    requires Initial(s) && PossibleRun(s, run) && !MayBecomeHazardous(s) && AbandonsNothing(s, run)
    requires After(s, run).session != Established && !After(s, run).peerRestarting
    ensures LocAfter(s, run) == map[]
  {
    AlwaysSafeIff(s);
    NothingAbandonedIff(s, run);
    assert Safe(After(s, run));
  }

  /** An UPDATE that withdraws the path's route and announces two others. */
  function Swap(p: RibPath): seq<RibPath> {
    [p.Clone(true), p.(nlri := RibPrefix(1)), p.(nlri := RibPrefix(2))]
  }

  lemma SwapRemoves(m: Routes, p: RibPath)
    requires p.nlri == RibPrefix(0) && !p.isEor
    ensures p.Key() !in UpdatedByAll(m, Swap(p))
  {
    var ps, k := Swap(p), p.Key();
    assert ps[0].Key() == k && ps[0].isWithdraw && !ps[0].isEor;
    assert ps[1].Key().nlri == RibPrefix(1) && ps[2].Key().nlri == RibPrefix(2);
    LastWriterWins(m, ps, k);
  }

  lemma LossForgets(s: Peer, loc: Routes, k: RouteKey)
    requires k in loc && k !in s.routes
    ensures k in Told(loc, LossNews(s, false))
  {
  }

  /** Otherwise a route stays in the Loc-RIB after the peer is gone: an UPDATE withdraws it and
      announces two others, which is one too many, and the session is closed. */
  lemma RouteIsLeftBehind(s: Peer) returns (run: seq<Event>)
    requires Quiet(s) && s.afiSafis != []
    ensures PossibleRun(s, run)
    ensures var t := After(s, run); t.session == Idle && !t.peerRestarting && t.routes == map[]
    ensures LocAfter(s, run) != map[]
  {
    var p := RouteOf(s.afiSafis[0].family);
    var up, t := KnowsRoute(s);
    assert Families(t.afiSafis)[0] == p.family;
    var ps := SwapFits(t, p);
    HitsLimit(s, up, t, ps, p.Key());
    run := Closes(s, up + [Received(ps, true)], p.Key());
  }

  lemma SwapFits(t: Peer, p: RibPath) returns (ps: seq<RibPath>)
    requires p.nlri == RibPrefix(0) && !p.isEor && !p.stale && !p.dropped && p.family in Families(t.afiSafis)
    ensures Possible(t, Received(ps, true)) && p.Key() !in UpdatedByAll(t.routes, ps)
  {
    ps := Swap(p);
    SwapRemoves(t.routes, p);
  }

  lemma HitsLimit(s: Peer, run: seq<Event>, t: Peer, ps: seq<RibPath>, k: RouteKey)
    requires PossibleRun(s, run) && t == After(s, run) && t.session == Established
    requires Possible(t, Received(ps, true)) && k !in UpdatedByAll(t.routes, ps) && k in LocAfter(s, run)
    ensures var longer := run + [Received(ps, true)];
            && PossibleRun(s, longer) && After(s, longer) == t.(routes := UpdatedByAll(t.routes, ps))
            && k in LocAfter(s, longer)
  {
    OneMore(s, run, Received(ps, true));
    assert (run + [Received(ps, true)])[..|run|] == run;
    if ps == [] {
      assert UpdatedByAll(t.routes, ps) == t.routes;
    }
  }

  lemma Closes(s: Peer, run: seq<Event>, k: RouteKey) returns (longer: seq<Event>)
    requires Quiet(s) && PossibleRun(s, run)
    requires var t := After(s, run); t.session == Established && !t.peerRestarting && k !in t.routes
    requires k in LocAfter(s, run)
    ensures PossibleRun(s, longer) && k in LocAfter(s, longer)
    ensures var t := After(s, longer); t.session == Idle && !t.peerRestarting && t.routes == map[]
  {
    var t, e := After(s, run), StateChange(Idle, false);
    longer := run + [e];
    OneMore(s, run, e);
    assert longer[..|run|] == run;
    RunKeepsInv(s, run);
    LossForgets(t, LocAfter(s, run), k);
    assert Without(t.routes, Families(t.afiSafis)) == map[];
  }
}
