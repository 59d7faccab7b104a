/** A peer's session, its graceful restart and its received routes: which states can be reached,
    and which of them are safe. Timer expiries and messages are events handled one at a time. */
module GracefulRestart {
  import opened Common
  import opened BestPath
  import opened AdjRibs

  datatype Session = Idle | Active | OpenSent | OpenConfirm | Established

  /** What is configured and negotiated for one family. `eor` tells whether its End-of-RIB marker
      has come since the last graceful restart began. */
  datatype AfiSafi = AfiSafi(
    family: Family, grEnabled: bool, grReceived: bool, llgrEnabled: bool, llgrReceived: bool, eor: bool)

  /** The first two flags are configured, the next two are negotiated. */
  datatype Peer = Peer(
    grConfigured: bool, longLivedConfigured: bool, grEnabled: bool, longLivedEnabled: bool, afiSafis: seq<AfiSafi>,
    session: Session, peerRestarting: bool, routes: Routes, llgrTimers: multiset<Family>)

  /** `Opened` is an OPEN message with capabilities for graceful restart or long-lived graceful
      restart. An OPEN message without them has no effect other than the state change it leads to.
      `bothRestarting` tells that the peer flags a restart while the local speaker restarts too. */
  datatype Event =
    | StateChange(next: Session, graceful: bool)
    | Opened(gr: Option<seq<Family>>, longLived: Option<seq<Family>>, bothRestarting: bool)
    | Received(paths: seq<RibPath>, prefixLimitHit: bool)
    | LlgrTimerExpired(family: Family)

  // ----- Questions about the families

  function Families(fs: seq<AfiSafi>): (r: seq<Family>)
    ensures |r| == |fs| && forall i :: 0 <= i < |fs| ==> r[i] == fs[i].family
  {
    seq(|fs|, i requires 0 <= i < |fs| => fs[i].family)
  }

  predicate Preserved(a: AfiSafi) {
    a.grEnabled && a.grReceived
  }

  predicate LongLived(a: AfiSafi) {
    a.llgrEnabled
  }

  /** The families whose record satisfies `p`. */
  function Where(fs: seq<AfiSafi>, p: AfiSafi -> bool): (r: seq<Family>)
    ensures forall f :: f in r <==> exists i :: 0 <= i < |fs| && p(fs[i]) && fs[i].family == f
  {
    if fs == [] then []
    else
      var n := |fs| - 1;
      var r := Where(fs[..n], p);
      if p(fs[n]) then r + [fs[n].family] else r
  }

  /** The members of `all` that are in `part`, or those that are not, in order. */
  function Members(all: seq<Family>, part: seq<Family>, inside: bool): (r: seq<Family>)
    ensures forall f :: f in r <==> f in all && (f in part <==> inside)
    ensures DistinctFamilies(all) ==> DistinctFamilies(r)
  {
    if all == [] then []
    else
      var n := |all| - 1;
      var r := Members(all[..n], part, inside);
      if all[n] in part <==> inside then r + [all[n]] else r
  }

  predicate RecvedAllEor(fs: seq<AfiSafi>) {
    forall i :: 0 <= i < |fs| && fs[i].grEnabled ==> fs[i].eor
  }

  /** Whether the expiry for `f` counts as the last one. The flag that would remember earlier
      expiries is written to a copy, so only the other families' capabilities matter. */
  predicate AllExpired(fs: seq<AfiSafi>, f: Family) {
    forall i :: 0 <= i < |fs| && fs[i].llgrReceived ==> fs[i].family == f
  }

  function WithEor(fs: seq<AfiSafi>, eors: set<Family>): (r: seq<AfiSafi>)
    ensures |r| == |fs|
  {
    seq(|fs|, i requires 0 <= i < |fs| => if fs[i].family in eors then fs[i].(eor := true) else fs[i])
  }

  function WithoutEor(fs: seq<AfiSafi>): (r: seq<AfiSafi>)
    ensures |r| == |fs|
  {
    seq(|fs|, i requires 0 <= i < |fs| => fs[i].(eor := false))
  }

  function AllEor(fs: seq<AfiSafi>): (r: seq<AfiSafi>)
    ensures |r| == |fs|
  {
    seq(|fs|, i requires 0 <= i < |fs| => fs[i].(eor := true))
  }

  function GrNegotiated(a: AfiSafi): AfiSafi {
    a.(grEnabled := true, grReceived := true)
  }

  function LongLivedNegotiated(a: AfiSafi): AfiSafi {
    a.(llgrEnabled := true, llgrReceived := true)
  }

  /** `f` applied to the records of the families. */
  function Raised(fs: seq<AfiSafi>, families: seq<Family>, f: AfiSafi -> AfiSafi): (r: seq<AfiSafi>)
    ensures |r| == |fs|
  {
    seq(|fs|, i requires 0 <= i < |fs| => if fs[i].family in families then f(fs[i]) else fs[i])
  }

  // ----- What each event does

  /** What has been negotiated once stays so, whatever later OPEN messages say. */
  function OpenReceived(s: Peer, gr: Option<seq<Family>>, longLived: Option<seq<Family>>, bothRestarting: bool): Peer {
    var t := if s.grConfigured && gr.Some? then
               var fs := Raised(s.afiSafis, gr.value, GrNegotiated);
               s.(grEnabled := true, afiSafis := if bothRestarting then AllEor(fs) else fs)
             else s;
    if s.longLivedConfigured && gr.Some? && longLived.Some? then
      t.(longLivedEnabled := true, afiSafis := Raised(t.afiSafis, longLived.value, LongLivedNegotiated))
    else t
  }

  /** The session is lost: preserved families go stale if that was graceful, the others go. */
  function SessionLost(s: Peer, graceful: bool): Peer {
    var all := Families(s.afiSafis);
    if graceful then
      var preserved := Where(s.afiSafis, Preserved);
      s.(peerRestarting := true, afiSafis := WithoutEor(s.afiSafis),
         routes := Without(StaleIn(s.routes, Members(all, preserved, true)), Members(all, preserved, false)))
    else s.(routes := Without(s.routes, all))
  }

  /** The peer has not come back in time: the long-lived restart begins, or everything goes. */
  function RestartTimeOver(s: Peer): Peer {
    var all := Families(s.afiSafis);
    if s.longLivedEnabled then
      var longLived := Where(s.afiSafis, LongLived);
      s.(routes := LlgrStaleOrGone(Without(s.routes, Members(all, longLived, false)), Members(all, longLived, true)),
         llgrTimers := s.llgrTimers + multiset(Members(all, longLived, true)))
    else s.(peerRestarting := false, routes := Without(s.routes, all))
  }

  function StateChanged(s: Peer, next: Session, graceful: bool): Peer {
    var t := s.(session := next);
    if s.session == Established then SessionLost(t, graceful)
    else if s.peerRestarting && next == Idle then RestartTimeOver(t)
    else t
  }

  /** The families with an End-of-RIB marker. */
  function EorsOf(paths: seq<RibPath>): set<Family> {
    set p | p in paths && p.isEor :: p.family
  }

  /** The End-of-RIB markers of the UPDATE are the last ones. */
  predicate EndsRestart(s: Peer, paths: seq<RibPath>) {
    var eors := EorsOf(paths);
    eors != {} && s.peerRestarting && RecvedAllEor(WithEor(s.afiSafis, eors))
  }

  /** An UPDATE outside an established session is ignored; one that hits the prefix limit is
      stored, but its markers are not looked at. */
  function UpdateReceived(s: Peer, paths: seq<RibPath>, prefixLimitHit: bool): Peer {
    if s.session != Established || paths == [] then s
    else
      var t := s.(routes := UpdatedByAll(s.routes, paths));
      var eors := EorsOf(paths);
      if prefixLimitHit || eors == {} then t
      else
        var u := t.(afiSafis := WithEor(s.afiSafis, eors));
        if EndsRestart(s, paths) then
          u.(peerRestarting := false, llgrTimers := multiset{}, routes := WithoutStale(t.routes, Families(s.afiSafis)))
        else u
  }

  function TimerExpired(s: Peer, f: Family): Peer {
    var all := AllExpired(s.afiSafis, f);
    s.(routes := Without(s.routes, [f]), peerRestarting := s.peerRestarting && !all,
       llgrTimers := if all then multiset{} else s.llgrTimers - multiset{f})
  }

  function Step(s: Peer, e: Event): Peer {
    match e
    case StateChange(next, graceful) => StateChanged(s, next, graceful)
    case Opened(gr, longLived, bothRestarting) => OpenReceived(s, gr, longLived, bothRestarting)
    case Received(paths, prefixLimitHit) => UpdateReceived(s, paths, prefixLimitHit)
    case LlgrTimerExpired(f) => TimerExpired(s, f)
  }

  // ----- Which events can happen

  /** The outcomes of the state handlers. */
  predicate Transition(from: Session, to: Session) {
    match from
    case Idle => to == Idle || to == Active
    case Active => to == OpenSent || to == Idle
    case OpenSent => to == OpenConfirm || to == Idle
    case OpenConfirm => to == Established || to == Idle
    case Established => to == Idle
  }

  /** Routes come in unmarked, for configured families; a timer expires only while it runs. */
  predicate Possible(s: Peer, e: Event) {
    match e
    case StateChange(next, graceful) =>
      Transition(s.session, next) && (graceful ==> s.session == Established && s.grEnabled)
    case Opened(_, _, _) => s.session == OpenSent
    case Received(paths, _) =>
      forall p :: p in paths ==> !p.stale && !p.dropped && (p.isEor || p.family in Families(s.afiSafis))
    case LlgrTimerExpired(f) => f in s.llgrTimers
  }

  function After(s: Peer, run: seq<Event>): Peer {
    if run == [] then s else Step(After(s, run[..|run| - 1]), run[|run| - 1])
  }

  predicate PossibleRun(s: Peer, run: seq<Event>) {
    run == [] || (PossibleRun(s, run[..|run| - 1]) && Possible(After(s, run[..|run| - 1]), run[|run| - 1]))
  }

  predicate NoOpen(run: seq<Event>) {
    forall e :: e in run ==> !e.Opened?
  }

  /** No session, no restart and no route, whatever has been negotiated before. */
  predicate Quiet(s: Peer) {
    && DistinctFamilies(Families(s.afiSafis))
    && s.session == Idle && !s.peerRestarting && s.routes == map[] && s.llgrTimers == multiset{}
    && forall i :: 0 <= i < |s.afiSafis| ==> s.afiSafis[i].llgrEnabled == s.afiSafis[i].llgrReceived
  }

  /** A peer that has never sent an OPEN message, under any configuration. The configuration of a
      family may enable graceful restart beforehand, but nothing has been received. */
  predicate Initial(s: Peer) {
    && Quiet(s) && !s.grEnabled && !s.longLivedEnabled
    && forall i :: 0 <= i < |s.afiSafis| ==> !s.afiSafis[i].grReceived && !s.afiSafis[i].llgrReceived
  }

  /** Without a session or a restart in progress no route is kept, and without a restart in
      progress no stale one. */
  predicate Safe(s: Peer) {
    && (s.session != Established && !s.peerRestarting ==> s.routes == map[])
    && (!s.peerRestarting ==> forall k :: k in s.routes ==> !s.routes[k].stale)
  }

  // ----- When every run is safe

  /** Exactly one family has long-lived restart, and another one is preserved over a restart. */
  predicate Hazard(s: Peer) {
    && s.grEnabled && s.longLivedEnabled
    && exists i, j :: 0 <= i < |s.afiSafis| && 0 <= j < |s.afiSafis| && i != j &&
         s.afiSafis[i].llgrEnabled && AllExpired(s.afiSafis, s.afiSafis[i].family) && Preserved(s.afiSafis[j])
  }

  /** What holds in every reachable state besides safety. */
  predicate Inv(s: Peer) {
    && DistinctFamilies(Families(s.afiSafis))
    && (forall k :: k in s.routes ==> k.family in Families(s.afiSafis))
    && (s.session != Established ==> forall k :: k in s.routes ==> k.family in Where(s.afiSafis, Preserved))
    && (forall k :: k in s.routes && s.routes[k].stale ==> k.family in Where(s.afiSafis, Preserved))
    && (s.peerRestarting || s.llgrTimers != multiset{} ==> s.grEnabled)
    && (forall f :: f in s.llgrTimers ==> s.longLivedEnabled && f in Where(s.afiSafis, LongLived))
    && (forall i :: 0 <= i < |s.afiSafis| ==> s.afiSafis[i].llgrEnabled == s.afiSafis[i].llgrReceived)
  }

  lemma {:induction false} UpdatesStayFresh(m: Routes, ps: seq<RibPath>, k: RouteKey)
    requires forall p :: p in ps ==> !p.stale
    ensures var r := UpdatedByAll(m, ps);
            && (k in r && k !in m ==> exists p :: p in ps && !p.isEor && p.family == k.family)
            && (k in r && r[k].stale ==> k in m && m[k].stale)
  {
    if ps != [] {
      var n := |ps| - 1;
      assert ps[n] in ps;
      UpdatesStayFresh(m, ps[..n], k);
    }
  }

  predicate SameButEor(fs: seq<AfiSafi>, gs: seq<AfiSafi>) {
    |gs| == |fs| && forall i :: 0 <= i < |fs| ==> gs[i] == fs[i].(eor := gs[i].eor)
  }

  lemma FamiliesKept(fs: seq<AfiSafi>, gs: seq<AfiSafi>)
    requires SameButEor(fs, gs)
    ensures Families(gs) == Families(fs)
    ensures Where(gs, Preserved) == Where(fs, Preserved) && Where(gs, LongLived) == Where(fs, LongLived)
  {
    if fs != [] {
      FamiliesKept(fs[..|fs| - 1], gs[..|gs| - 1]);
    }
  }

  lemma GracefulLossKeepsInv(s: Peer)
    requires Inv(s) && s.grEnabled
    ensures Inv(SessionLost(s.(session := Idle), true))
  {
    var t := SessionLost(s.(session := Idle), true);
    FamiliesKept(s.afiSafis, t.afiSafis);
    forall k | k in t.routes ensures k.family in Where(s.afiSafis, Preserved) {
      assert k in s.routes && k.family in Families(s.afiSafis);
    }
    assert t.afiSafis == WithoutEor(s.afiSafis) && t.llgrTimers == s.llgrTimers;
  }

  lemma SessionLostKeepsInv(s: Peer, graceful: bool)
    requires Inv(s) && (graceful ==> s.grEnabled)
    ensures Inv(SessionLost(s.(session := Idle), graceful))
  {
    if graceful {
      GracefulLossKeepsInv(s);
    } else {
      assert SessionLost(s.(session := Idle), false).routes == map[];
    }
  }

  lemma RestartTimeOverKeepsInv(s: Peer)
    requires Inv(s) && s.session != Established && s.peerRestarting
    ensures Inv(RestartTimeOver(s.(session := Idle)))
  {
    var t := RestartTimeOver(s.(session := Idle));
    assert forall k :: k in t.routes ==> k in s.routes;
    assert forall f :: f in t.llgrTimers ==> f in s.llgrTimers || f in Where(s.afiSafis, LongLived);
  }

  lemma StateChangeKeepsInv(s: Peer, next: Session, graceful: bool)
    requires Inv(s) && Possible(s, StateChange(next, graceful))
    ensures Inv(StateChanged(s, next, graceful))
  {
    if s.session == Established {
      SessionLostKeepsInv(s, graceful);
    } else if s.peerRestarting && next == Idle {
      RestartTimeOverKeepsInv(s);
    }
  }

  lemma StateChangeKeepsSafe(s: Peer, next: Session, graceful: bool)
    requires Inv(s) && Possible(s, StateChange(next, graceful)) && Safe(s)
    ensures Safe(StateChanged(s, next, graceful))
  {
    assert Without(s.routes, Families(s.afiSafis)) == map[];
  }

  lemma ReceivedRoutes(s: Peer, paths: seq<RibPath>)
    requires Inv(s) && Possible(s, Received(paths, false))
    ensures var r := UpdatedByAll(s.routes, paths);
            forall k :: k in r ==>
              k.family in Families(s.afiSafis) && (r[k].stale ==> k in s.routes && s.routes[k].stale)
  {
    var r := UpdatedByAll(s.routes, paths);
    forall k | k in r ensures k.family in Families(s.afiSafis) && (r[k].stale ==> k in s.routes && s.routes[k].stale) {
      UpdatesStayFresh(s.routes, paths, k);
    }
  }

  /** Within a session it is enough to look at the routes and the timers. */
  lemma SessionKeepsInv(s: Peer, t: Peer)
    requires Inv(s) && s.session == Established == t.session && SameButEor(s.afiSafis, t.afiSafis)
    requires t.grEnabled == s.grEnabled && t.longLivedEnabled == s.longLivedEnabled
    requires t.peerRestarting ==> s.peerRestarting
    requires t.llgrTimers == s.llgrTimers || t.llgrTimers == multiset{}
    requires forall k :: k in t.routes ==> k.family in Families(s.afiSafis)
    requires forall k :: k in t.routes && t.routes[k].stale ==> k in s.routes && s.routes[k].stale
    ensures Inv(t)
  {
    FamiliesKept(s.afiSafis, t.afiSafis);
  }

  lemma ReceivedShape(s: Peer, paths: seq<RibPath>, prefixLimitHit: bool)
    requires s.session == Established
    ensures var t, r := UpdateReceived(s, paths, prefixLimitHit), UpdatedByAll(s.routes, paths);
            && t.session == Established && SameConfiguration(s, t)
            && (t.peerRestarting ==> s.peerRestarting)
            && (t.llgrTimers == s.llgrTimers || t.llgrTimers == multiset{})
            && forall k :: k in t.routes ==> k in r && t.routes[k] == r[k]
  {
    UpdateKeepsConfiguration(s, paths, prefixLimitHit);
  }

  lemma ReceivedKeepsInv(s: Peer, paths: seq<RibPath>, prefixLimitHit: bool)
    requires Inv(s) && Possible(s, Received(paths, prefixLimitHit))
    ensures Inv(UpdateReceived(s, paths, prefixLimitHit))
  {
    if s.session == Established && paths != [] {
      ReceivedRoutes(s, paths);
      ReceivedShape(s, paths, prefixLimitHit);
      SessionKeepsInv(s, UpdateReceived(s, paths, prefixLimitHit));
    }
  }

  lemma ReceivedKeepsSafe(s: Peer, paths: seq<RibPath>, prefixLimitHit: bool)
    requires Inv(s) && Possible(s, Received(paths, prefixLimitHit)) && Safe(s)
    ensures Safe(UpdateReceived(s, paths, prefixLimitHit))
  {
    if s.session == Established && paths != [] {
      ReceivedRoutes(s, paths);
      if EndsRestart(s, paths) && !prefixLimitHit {
        assert UpdateReceived(s, paths, prefixLimitHit).routes ==
               WithoutStale(UpdatedByAll(s.routes, paths), Families(s.afiSafis));
      } else {
        ReceivedQuietly(s, paths, prefixLimitHit);
      }
    }
  }

  /** An UPDATE that does not end the restart leaves it as it is. */
  lemma ReceivedQuietly(s: Peer, paths: seq<RibPath>, prefixLimitHit: bool)
    requires s.session == Established && paths != [] && (prefixLimitHit || !EndsRestart(s, paths))
    ensures var t := UpdateReceived(s, paths, prefixLimitHit);
            t == s.(afiSafis := t.afiSafis, routes := UpdatedByAll(s.routes, paths))
  {
  }

  lemma ExpiryKeepsInv(s: Peer, f: Family)
    requires Inv(s) && Possible(s, LlgrTimerExpired(f))
    ensures Inv(TimerExpired(s, f))
  {
    var t := TimerExpired(s, f);
    assert t.afiSafis == s.afiSafis && t.session == s.session;
    assert forall k :: k in t.routes ==> k in s.routes && t.routes[k] == s.routes[k];
    assert forall g :: g in t.llgrTimers ==> g in s.llgrTimers;
    assert t.peerRestarting || t.llgrTimers != multiset{} ==> s.grEnabled;
  }

  /** What a family has negotiated in `a` it still has in `b`. */
  predicate Grows(a: AfiSafi, b: AfiSafi) {
    && b.family == a.family && (a.grEnabled ==> b.grEnabled) && (a.grReceived ==> b.grReceived)
    && (a.llgrEnabled ==> b.llgrEnabled) && (a.llgrEnabled == a.llgrReceived ==> b.llgrEnabled == b.llgrReceived)
  }

  predicate AllGrow(fs: seq<AfiSafi>, gs: seq<AfiSafi>) {
    |gs| == |fs| && forall i :: 0 <= i < |fs| ==> Grows(fs[i], gs[i])
  }

  lemma WhereGrows(fs: seq<AfiSafi>, gs: seq<AfiSafi>)
    requires AllGrow(fs, gs)
    ensures Families(gs) == Families(fs)
    ensures forall f :: f in Where(fs, Preserved) ==> f in Where(gs, Preserved)
    ensures forall f :: f in Where(fs, LongLived) ==> f in Where(gs, LongLived)
  {
    forall f | f in Where(fs, Preserved) ensures f in Where(gs, Preserved) {
      var i :| 0 <= i < |fs| && Preserved(fs[i]) && fs[i].family == f;
      assert Preserved(gs[i]) && gs[i].family == f;
    }
    forall f | f in Where(fs, LongLived) ensures f in Where(gs, LongLived) {
      var i :| 0 <= i < |fs| && LongLived(fs[i]) && fs[i].family == f;
      assert LongLived(gs[i]) && gs[i].family == f;
    }
  }

  /** An OPEN message only adds to what has been negotiated, within the configuration. */
  lemma OpenGrows(s: Peer, gr: Option<seq<Family>>, longLived: Option<seq<Family>>, bothRestarting: bool)
    ensures var t := OpenReceived(s, gr, longLived, bothRestarting);
            && t == s.(grEnabled := t.grEnabled, longLivedEnabled := t.longLivedEnabled, afiSafis := t.afiSafis)
            && (s.grEnabled ==> t.grEnabled) && (s.longLivedEnabled ==> t.longLivedEnabled)
            && AllGrow(s.afiSafis, t.afiSafis)
            && (t.grEnabled ==> s.grEnabled || s.grConfigured)
            && (t.longLivedEnabled ==> s.longLivedEnabled || s.longLivedConfigured)
  {
    var fs := s.afiSafis;
    if s.grConfigured && gr.Some? {
      fs := Raised(fs, gr.value, GrNegotiated);
      RaisedGrows(s.afiSafis, gr.value, GrNegotiated);
      if bothRestarting {
        fs := AllEor(fs);
      }
      assert AllGrow(s.afiSafis, fs);
    }
    if s.longLivedConfigured && gr.Some? && longLived.Some? {
      RaisedGrows(fs, longLived.value, LongLivedNegotiated);
    }
  }

  lemma RaisedGrows(fs: seq<AfiSafi>, families: seq<Family>, f: AfiSafi -> AfiSafi)
    requires forall a :: Grows(a, f(a))
    ensures AllGrow(fs, Raised(fs, families, f))
  {
    forall i | 0 <= i < |fs| ensures Grows(fs[i], Raised(fs, families, f)[i]) {
      assert Grows(fs[i], f(fs[i]));
    }
  }

  lemma OpenKeepsInv(s: Peer, gr: Option<seq<Family>>, longLived: Option<seq<Family>>, bothRestarting: bool)
    requires Inv(s) && s.session == OpenSent
    ensures Inv(OpenReceived(s, gr, longLived, bothRestarting))
  {
    OpenGrows(s, gr, longLived, bothRestarting);
    WhereGrows(s.afiSafis, OpenReceived(s, gr, longLived, bothRestarting).afiSafis);
  }

  /** Without the hazard, a family whose expiry ends the restart is the only one preserved. */
  lemma OnlyOnePreserved(s: Peer, f: Family, g: Family)
    requires Inv(s) && f in s.llgrTimers && AllExpired(s.afiSafis, f) && !Hazard(s)
    requires g in Where(s.afiSafis, Preserved)
    ensures g == f
  {
    var i :| 0 <= i < |s.afiSafis| && LongLived(s.afiSafis[i]) && s.afiSafis[i].family == f;
    var j :| 0 <= j < |s.afiSafis| && Preserved(s.afiSafis[j]) && s.afiSafis[j].family == g;
  }

  lemma ExpiryKeepsSafe(s: Peer, f: Family)
    requires Inv(s) && Possible(s, LlgrTimerExpired(f)) && !Hazard(s) && Safe(s)
    ensures Safe(TimerExpired(s, f))
  {
    var t := TimerExpired(s, f);
    assert forall k :: k in t.routes ==> k in s.routes && t.routes[k] == s.routes[k] && k.family != f;
    if AllExpired(s.afiSafis, f) {
      forall k | k in t.routes ensures !t.routes[k].stale && s.session == Established {
        if t.routes[k].stale || s.session != Established {
          OnlyOnePreserved(s, f, k.family);
        }
      }
    }
  }

  lemma EorIrrelevant(s: Peer, t: Peer)
    requires t.grEnabled == s.grEnabled && t.longLivedEnabled == s.longLivedEnabled
    requires SameButEor(s.afiSafis, t.afiSafis) && Hazard(s)
    ensures Hazard(t)
  {
    var i, j :| 0 <= i < |s.afiSafis| && 0 <= j < |s.afiSafis| && i != j &&
      s.afiSafis[i].llgrEnabled && AllExpired(s.afiSafis, s.afiSafis[i].family) && Preserved(s.afiSafis[j]);
    assert AllExpired(t.afiSafis, t.afiSafis[i].family) && Preserved(t.afiSafis[j]) && t.afiSafis[i].llgrEnabled;
  }

  /** Events other than OPEN messages change neither the configuration nor what was negotiated. */
  lemma HazardKept(s: Peer, e: Event)
    requires !e.Opened?
    ensures Hazard(Step(s, e)) <==> Hazard(s)
  {
    ConfigurationKept(s, e);
    HazardOfConfiguration(s, Step(s, e));
  }

  /** The configuration and what was negotiated, apart from the markers received. */
  predicate SameConfiguration(s: Peer, t: Peer) {
    && t.grConfigured == s.grConfigured && t.longLivedConfigured == s.longLivedConfigured
    && t.grEnabled == s.grEnabled && t.longLivedEnabled == s.longLivedEnabled && SameButEor(s.afiSafis, t.afiSafis)
  }

  lemma ConfigurationKept(s: Peer, e: Event)
    requires !e.Opened?
    ensures SameConfiguration(s, Step(s, e))
  {
    match e
    case StateChange(next, graceful) => StateChangeKeepsConfiguration(s, next, graceful);
    case Received(paths, prefixLimitHit) => UpdateKeepsConfiguration(s, paths, prefixLimitHit);
    case LlgrTimerExpired(f) =>
  }

  lemma StateChangeKeepsConfiguration(s: Peer, next: Session, graceful: bool)
    ensures SameConfiguration(s, StateChanged(s, next, graceful))
  {
    var t := s.(session := next);
    LossKeepsConfiguration(t, graceful);
  }

  lemma LossKeepsConfiguration(s: Peer, graceful: bool)
    ensures SameConfiguration(s, SessionLost(s, graceful)) && SameConfiguration(s, RestartTimeOver(s))
  {
    assert SameButEor(s.afiSafis, WithoutEor(s.afiSafis));
  }

  lemma UpdateKeepsConfiguration(s: Peer, paths: seq<RibPath>, prefixLimitHit: bool)
    ensures SameConfiguration(s, UpdateReceived(s, paths, prefixLimitHit))
  {
    var t, eors := UpdateReceived(s, paths, prefixLimitHit), EorsOf(paths);
    assert SameButEor(s.afiSafis, WithEor(s.afiSafis, eors));
    assert t.afiSafis == s.afiSafis || t.afiSafis == WithEor(s.afiSafis, eors);
  }

  lemma HazardOfConfiguration(s: Peer, t: Peer)
    requires SameConfiguration(s, t)
    ensures Hazard(t) <==> Hazard(s)
  {
    if Hazard(s) {
      EorIrrelevant(s, t);
    }
    if Hazard(t) {
      EorIrrelevant(t, s);
    }
  }

  lemma StepKeepsInv(s: Peer, e: Event)
    requires Inv(s) && Possible(s, e)
    ensures Inv(Step(s, e))
    ensures Safe(s) && !Hazard(s) ==> Safe(Step(s, e))
  {
    match e
    case StateChange(next, graceful) =>
      StateChangeKeepsInv(s, next, graceful);
      if Safe(s) {
        StateChangeKeepsSafe(s, next, graceful);
      }
    case Opened(gr, longLived, bothRestarting) =>
      OpenKeepsInv(s, gr, longLived, bothRestarting);
      OpenGrows(s, gr, longLived, bothRestarting);
    case Received(paths, prefixLimitHit) =>
      ReceivedKeepsInv(s, paths, prefixLimitHit);
      if Safe(s) {
        ReceivedKeepsSafe(s, paths, prefixLimitHit);
      }
    case LlgrTimerExpired(f) =>
      ExpiryKeepsInv(s, f);
      if Safe(s) && !Hazard(s) {
        ExpiryKeepsSafe(s, f);
      }
  }

  /** The hazard is met in some state of the run. */
  predicate MeetsHazard(s: Peer, run: seq<Event>) {
    Hazard(After(s, run)) || (run != [] && MeetsHazard(s, run[..|run| - 1]))
  }

  lemma {:induction false} RunKeepsInv(s: Peer, run: seq<Event>)
    requires Quiet(s) && PossibleRun(s, run)
    ensures Inv(After(s, run))
    ensures !MeetsHazard(s, run) ==> Safe(After(s, run))
  {
    if run != [] {
      var n := |run| - 1;
      RunKeepsInv(s, run[..n]);
      StepKeepsInv(After(s, run[..n]), run[n]);
    }
  }

  lemma {:induction false} HazardFixed(s: Peer, run: seq<Event>)
    requires NoOpen(run)
    ensures (Hazard(After(s, run)) <==> Hazard(s)) && (MeetsHazard(s, run) <==> Hazard(s))
  {
    if run != [] {
      var n := |run| - 1;
      assert forall e :: e in run[..n] ==> e in run;
      HazardFixed(s, run[..n]);
      HazardKept(After(s, run[..n]), run[n]);
    }
  }

  /** What has been negotiated was configured. */
  predicate WithinConfiguration(s: Peer) {
    (s.grEnabled ==> s.grConfigured) && (s.longLivedEnabled ==> s.longLivedConfigured)
  }

  /** Both kinds of restart are configured, and there are two families to negotiate them for. */
  predicate MayBecomeHazardous(s: Peer) {
    s.grConfigured && s.longLivedConfigured && |s.afiSafis| >= 2
  }

  lemma StepKeepsConfiguration(s: Peer, e: Event)
    requires WithinConfiguration(s)
    ensures WithinConfiguration(Step(s, e)) && (MayBecomeHazardous(Step(s, e)) <==> MayBecomeHazardous(s))
  {
    match e
    case Opened(gr, longLived, bothRestarting) => OpenGrows(s, gr, longLived, bothRestarting);
    case _ => ConfigurationKept(s, e);
  }

  /** The hazard cannot be negotiated unless the configuration allows it. */
  lemma {:induction false} ConfigurationExcludesHazard(s: Peer, run: seq<Event>)
    requires WithinConfiguration(s)
    ensures WithinConfiguration(After(s, run)) && (MayBecomeHazardous(After(s, run)) <==> MayBecomeHazardous(s))
    ensures !MayBecomeHazardous(s) ==> !MeetsHazard(s, run)
  {
    if run != [] {
      var n := |run| - 1;
      ConfigurationExcludesHazard(s, run[..n]);
      StepKeepsConfiguration(After(s, run[..n]), run[n]);
    }
  }

  // ----- The hazard is real

  lemma OneMore(s: Peer, run: seq<Event>, e: Event)
    ensures After(s, run + [e]) == Step(After(s, run), e)
    ensures PossibleRun(s, run + [e]) <==> PossibleRun(s, run) && Possible(After(s, run), e)
  {
    assert (run + [e])[..|run|] == run;
  }

  /** `run` is possible and leads to the state `t`, whose configuration and negotiated capabilities
      are those of `c`. */
  predicate Leads(s: Peer, run: seq<Event>, c: Peer, t: Peer) {
    PossibleRun(s, run) && After(s, run) == t && SameConfiguration(c, t)
  }

  predicate HasStaleRoute(t: Peer, g: Family) {
    exists k :: k in t.routes && k.family == g && t.routes[k].stale
  }

  /** `longer` goes on from `run` without OPEN messages that bring capabilities. */
  predicate Extends(run: seq<Event>, longer: seq<Event>) {
    run <= longer && NoOpen(longer[|run|..])
  }

  lemma ExtendsFurther(run: seq<Event>, longer: seq<Event>, more: seq<Event>)
    requires Extends(run, longer) && NoOpen(more)
    ensures Extends(run, longer + more)
  {
    assert (longer + more)[|run|..] == longer[|run|..] + more;
  }

  lemma ExtendsNoOpen(run: seq<Event>, longer: seq<Event>)
    requires Extends(run, longer) && NoOpen(run)
    ensures NoOpen(longer)
  {
    assert longer == run + longer[|run|..];
  }

  predicate HasRoute(t: Peer, g: Family) {
    exists k :: k in t.routes && k.family == g
  }

  function Advance(a: Session, b: Session): seq<Event> {
    [StateChange(a, false), StateChange(b, false)]
  }

  /** Two steps on the way to a session touch nothing else. */
  lemma Advances(s: Peer, run: seq<Event>, a: Session, b: Session)
    requires PossibleRun(s, run) && a != Idle && a != Established && b != Idle
    requires var x := After(s, run).session; x != Established && Transition(x, a) && Transition(a, b)
    ensures PossibleRun(s, run + Advance(a, b)) && After(s, run + Advance(a, b)) == After(s, run).(session := b)
  {
    var e1, e2 := StateChange(a, false), StateChange(b, false);
    OneMore(s, run, e1);
    OneMore(s, run + [e1], e2);
    assert run + [e1] + [e2] == run + Advance(a, b);
  }

  /** A session comes up without bringing capabilities. */
  lemma ComesUp(s: Peer, run: seq<Event>) returns (longer: seq<Event>)
    requires PossibleRun(s, run) && After(s, run).session == Idle
    ensures Extends(run, longer)
    ensures PossibleRun(s, longer) && After(s, longer) == After(s, run).(session := Established)
  {
    var half := run + Advance(Active, OpenSent);
    Advances(s, run, Active, OpenSent);
    ExtendsFurther(run, run, Advance(Active, OpenSent));
    longer := half + Advance(OpenConfirm, Established);
    Advances(s, half, OpenConfirm, Established);
    ExtendsFurther(run, half, Advance(OpenConfirm, Established));
  }

  /** The session is lost gracefully: routes of a preserved family stay. */
  lemma Falls(s: Peer, run: seq<Event>, c: Peer, t: Peer, g: Family) returns (u: Peer)
    requires Leads(s, run, c, t) && t.session == Established && c.grEnabled
    requires g in Where(c.afiSafis, Preserved)
    ensures Leads(s, run + [StateChange(Idle, true)], c, u)
    ensures u.session == Idle && u.peerRestarting && u.llgrTimers == t.llgrTimers
    ensures HasRoute(t, g) ==> HasStaleRoute(u, g)
  {
    var e := StateChange(Idle, true);
    OneMore(s, run, e);
    u := Step(t, e);
    FamiliesKept(c.afiSafis, t.afiSafis);
    LossKeepsConfiguration(t.(session := Idle), true);
    if HasRoute(t, g) {
      RouteGoesStale(t.(session := Idle), g);
    }
  }

  lemma RouteGoesStale(t: Peer, g: Family)
    requires g in Where(t.afiSafis, Preserved) && HasRoute(t, g)
    ensures HasStaleRoute(SessionLost(t, true), g)
  {
    var k :| k in t.routes && k.family == g;
    var i :| 0 <= i < |t.afiSafis| && Preserved(t.afiSafis[i]) && t.afiSafis[i].family == g;
    assert Families(t.afiSafis)[i] == g;
    var u := SessionLost(t, true);
    assert k in u.routes && u.routes[k].stale;
  }

  /** The restart time runs out and the long-lived timer of `f` is armed. */
  lemma RestartTimeRunsOut(s: Peer, run: seq<Event>, c: Peer, t: Peer, f: Family) returns (u: Peer)
    requires Leads(s, run, c, t) && t.session == Idle && t.peerRestarting && c.longLivedEnabled
    requires f in Where(c.afiSafis, LongLived)
    ensures Leads(s, run + [StateChange(Idle, false)], c, u)
    ensures u.session == Idle && f in u.llgrTimers
  {
    var e := StateChange(Idle, false);
    OneMore(s, run, e);
    u := Step(t, e);
    FamiliesKept(c.afiSafis, t.afiSafis);
    var i :| 0 <= i < |c.afiSafis| && LongLived(c.afiSafis[i]) && c.afiSafis[i].family == f;
    assert Families(t.afiSafis)[i] == f;
    assert f in Members(Families(t.afiSafis), Where(t.afiSafis, LongLived), true);
  }

  function RouteOf(g: Family): RibPath {
    RibPath(g, RibPrefix(0), 0, PeerInfo(1, 1, 2, 2, Some(1), false), Attributes(None, None, Some(0), None, [], 0),
            0, false, false, false, false, false)
  }

  lemma OneRoute(t: Peer, g: Family)
    requires t.session == Established
    ensures var u := UpdateReceived(t, [RouteOf(g)], false);
            u == t.(routes := u.routes) && HasRoute(u, g)
  {
    var p := RouteOf(g);
    assert [p][..0] == [];
    assert UpdatedByAll(t.routes, [p]) == UpdatedBy(UpdatedByAll(t.routes, []), p);
    assert EorsOf([p]) == {};
    assert p.Key() in UpdatedByAll(t.routes, [p]) && p.Key().family == g;
  }

  /** A route of `g` is received. */
  lemma Learns(s: Peer, run: seq<Event>, c: Peer, t: Peer, g: Family) returns (u: Peer)
    requires Leads(s, run, c, t) && t.session == Established && g in Families(c.afiSafis)
    ensures Leads(s, run + [Received([RouteOf(g)], false)], c, u)
    ensures u.session == Established && u.llgrTimers == t.llgrTimers && HasRoute(u, g)
  {
    FamiliesKept(c.afiSafis, t.afiSafis);
    OneMore(s, run, Received([RouteOf(g)], false));
    OneRoute(t, g);
    u := UpdateReceived(t, [RouteOf(g)], false);
  }

  /** The long-lived timer of `f` expires while a stale route of `g` waits for the peer. */
  lemma LastTimer(s: Peer, run: seq<Event>, c: Peer, t: Peer, f: Family, g: Family)
    requires Leads(s, run, c, t) && t.session == Idle && f in t.llgrTimers && f != g
    requires AllExpired(c.afiSafis, f)
    requires HasStaleRoute(t, g)
    ensures PossibleRun(s, run + [LlgrTimerExpired(f)]) && !Safe(After(s, run + [LlgrTimerExpired(f)]))
  {
    OneMore(s, run, LlgrTimerExpired(f));
    var u := Step(t, LlgrTimerExpired(f));
    var k :| k in t.routes && k.family == g && t.routes[k].stale;
    assert AllExpired(t.afiSafis, f);
    assert k in u.routes;
  }

  /** Under the hazard a run goes on so that it ends with a stale route, no session and no restart in
      progress: the timer armed by a first restart expires during a second one. */
  lemma HazardIsReached(s: Peer, up: seq<Event>, c: Peer) returns (run: seq<Event>)
    requires PossibleRun(s, up) && After(s, up) == c && c.session == Established
    requires DistinctFamilies(Families(c.afiSafis)) && Hazard(c)
    ensures Extends(up, run) && PossibleRun(s, run) && !Safe(After(s, run))
  {
    var i, j :| 0 <= i < |c.afiSafis| && 0 <= j < |c.afiSafis| && i != j &&
      c.afiSafis[i].llgrEnabled && AllExpired(c.afiSafis, c.afiSafis[i].family) && Preserved(c.afiSafis[j]);
    var f, g := c.afiSafis[i].family, c.afiSafis[j].family;
    assert LongLived(c.afiSafis[i]);
    assert Families(c.afiSafis)[i] == f && Families(c.afiSafis)[j] == g;
    var t;
    run, t := TimerIsArmed(s, up, c, f, g);
    run := SecondRestartEnds(s, run, c, t, f, g);
  }

  /** A first restart arms the timer of `f`. */
  lemma TimerIsArmed(s: Peer, up: seq<Event>, c: Peer, f: Family, g: Family) returns (run: seq<Event>, t: Peer)
    requires Leads(s, up, c, c) && c.session == Established && c.grEnabled && c.longLivedEnabled
    requires f in Where(c.afiSafis, LongLived) && g in Where(c.afiSafis, Preserved)
    ensures Extends(up, run)
    ensures Leads(s, run, c, t) && t.session == Idle && f in t.llgrTimers
  {
    var down := up + [StateChange(Idle, true)];
    var u := Falls(s, up, c, c, g);
    ExtendsFurther(up, up, [StateChange(Idle, true)]);
    t := RestartTimeRunsOut(s, down, c, u, f);
    ExtendsFurther(up, down, [StateChange(Idle, false)]);
    run := down + [StateChange(Idle, false)];
  }

  /** The timer of `f` expires during a second restart. */
  lemma SecondRestartEnds(s: Peer, before: seq<Event>, c: Peer, t: Peer, f: Family, g: Family) returns (run: seq<Event>)
    requires Leads(s, before, c, t) && t.session == Idle && f in t.llgrTimers && c.grEnabled
    requires g in Where(c.afiSafis, Preserved) && g in Families(c.afiSafis) && f != g && AllExpired(c.afiSafis, f)
    ensures Extends(before, run) && PossibleRun(s, run) && !Safe(After(s, run))
  {
    run := ComesUp(s, before);
    var u;
    run, u := FallsWithRoute(s, run, c, After(s, run), g);
    LastTimer(s, run, c, u, f, g);
    run := run + [LlgrTimerExpired(f)];
  }

  lemma FallsWithRoute(s: Peer, before: seq<Event>, c: Peer, t: Peer, g: Family) returns (run: seq<Event>, u: Peer)
    requires Leads(s, before, c, t) && t.session == Established && c.grEnabled
    requires g in Where(c.afiSafis, Preserved) && g in Families(c.afiSafis)
    ensures Extends(before, run)
    ensures Leads(s, run, c, u) && u.session == Idle && u.llgrTimers == t.llgrTimers
    ensures HasStaleRoute(u, g)
  {
    var learnt := before + [Received([RouteOf(g)], false)];
    var v := Learns(s, before, c, t, g);
    assert HasRoute(v, g) && v.llgrTimers == t.llgrTimers;
    ExtendsFurther(before, before, [Received([RouteOf(g)], false)]);
    ExtendsFurther(before, learnt, [StateChange(Idle, true)]);
    u := Falls(s, learnt, c, v, g);
    run := learnt + [StateChange(Idle, true)];
  }

  lemma UnsafeRun(s: Peer) returns (run: seq<Event>)
    requires Quiet(s) && Hazard(s)
    ensures PossibleRun(s, run) && NoOpen(run) && !Safe(After(s, run))
  {
    var up := ComesUp(s, []);
    ExtendsNoOpen([], up);
    HazardFixed(s, up);
    run := HazardIsReached(s, up, After(s, up));
    ExtendsNoOpen(up, run);
  }

  /** With the capabilities negotiated so far: every state of every run without another OPEN message
      that brings some is safe if and only if they are not hazardous. */
  lemma SafeIffNoHazard(s: Peer)
    requires Quiet(s)
    ensures (forall run :: PossibleRun(s, run) && NoOpen(run) ==> Safe(After(s, run))) <==> !Hazard(s)
  {
    if Hazard(s) {
      var run := UnsafeRun(s);
    } else {
      forall run | PossibleRun(s, run) && NoOpen(run) ensures Safe(After(s, run)) {
        HazardFixed(s, run);
        RunKeepsInv(s, run);
      }
    }
  }

  lemma NegotiatesHazard(s: Peer, f: Family, g: Family)
    requires DistinctFamilies(Families(s.afiSafis)) && MayBecomeHazardous(s)
    requires f == s.afiSafis[0].family && g == s.afiSafis[1].family
    requires forall i :: 0 <= i < |s.afiSafis| ==> !s.afiSafis[i].llgrReceived
    ensures var t := OpenReceived(s, Some([f, g]), Some([f]), false);
            Hazard(t) && Families(t.afiSafis) == Families(s.afiSafis)
  {
    var fs := Raised(s.afiSafis, [f, g], GrNegotiated);
    var gs := Raised(fs, [f], LongLivedNegotiated);
    assert Families(s.afiSafis)[0] != Families(s.afiSafis)[1];
    assert [f, g][0] == f && fs[0] == GrNegotiated(s.afiSafis[0]);
    assert [f, g][1] == g && fs[1] == GrNegotiated(s.afiSafis[1]) && gs[1] == fs[1];
    assert fs[0].family == f && [f][0] == f && gs[0] == LongLivedNegotiated(fs[0]);
    assert gs[0].llgrEnabled && Preserved(gs[1]) && AllExpired(gs, f);
  }

  /** The first OPEN message brings graceful restart for the first two families, and long-lived
      restart for one of them. */
  lemma HazardIsNegotiated(s: Peer) returns (up: seq<Event>)
    requires Initial(s) && MayBecomeHazardous(s)
    ensures PossibleRun(s, up) && After(s, up).session == Established && Hazard(After(s, up))
    ensures Families(After(s, up).afiSafis) == Families(s.afiSafis)
  {
    var f, g := s.afiSafis[0].family, s.afiSafis[1].family;
    var e := Opened(Some([f, g]), Some([f]), false);
    Advances(s, [], Active, OpenSent);
    up := [] + Advance(Active, OpenSent);
    OneMore(s, up, e);
    up := up + [e];
    NegotiatesHazard(s.(session := OpenSent), f, g);
    Advances(s, up, OpenConfirm, Established);
    up := up + Advance(OpenConfirm, Established);
  }

  /** Graceful-restart safety: every state of every run of a peer is safe, whatever its OPEN messages
      negotiate, if and only if graceful restart, long-lived graceful restart and two families are
      not configured together. */
  lemma AlwaysSafeIff(s: Peer)
    requires Initial(s)
    ensures (forall run :: PossibleRun(s, run) ==> Safe(After(s, run))) <==> !MayBecomeHazardous(s)
  {
    if MayBecomeHazardous(s) {
      var up := HazardIsNegotiated(s);
      var run := HazardIsReached(s, up, After(s, up));
    } else {
      forall run | PossibleRun(s, run) ensures Safe(After(s, run)) {
        ConfigurationExcludesHazard(s, run);
        RunKeepsInv(s, run);
      }
    }
  }
}
