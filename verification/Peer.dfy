/** A peer as the server works on it: the state that events take from one abstract value to the next,
    and the lists of paths that are handed on to the Loc-RIB. */
module Peers {
  import opened Common
  import opened AdjRibs
  import opened GracefulRestart
  import opened LocRibs

  class PeerState {
    const grConfigured: bool
    const longLivedConfigured: bool
    var grEnabled: bool
    var longLivedEnabled: bool
    var afiSafis: seq<AfiSafi>
    var session: Session
    var peerRestarting: bool
    const adjRibIn: AdjRib
    var llgrEndChs: multiset<Family>  // the long-lived timers that have neither expired nor been stopped

    ghost predicate Valid()
      reads this, adjRibIn
    {
      && adjRibIn.Valid() && DistinctFamilies(Families(afiSafis))
      && forall f :: f in Families(afiSafis) ==> f in adjRibIn.table
    }

    /** The abstract value of the peer. */
    ghost function Value(): Peer
      reads this, adjRibIn
    {
      Peer(grConfigured, longLivedConfigured, grEnabled, longLivedEnabled, afiSafis,
           session, peerRestarting, adjRibIn.routes, llgrEndChs)
    }

    constructor (grConfigured: bool, longLivedConfigured: bool, afiSafis: seq<AfiSafi>)
      requires DistinctFamilies(Families(afiSafis))
      requires forall i :: 0 <= i < |afiSafis| ==>
                 !afiSafis[i].grReceived && !afiSafis[i].llgrEnabled && !afiSafis[i].llgrReceived
      ensures Valid() && Initial(Value()) && fresh(adjRibIn)
      ensures Value() == Peer(grConfigured, longLivedConfigured, false, false, afiSafis, Idle, false, map[], multiset{})
    {
      this.grConfigured, this.longLivedConfigured, this.afiSafis := grConfigured, longLivedConfigured, afiSafis;
      grEnabled, longLivedEnabled := false, false;
      session, peerRestarting, llgrEndChs := Idle, false, multiset{};
      adjRibIn := new AdjRib(Families(afiSafis));
    }

    /** The capabilities of an OPEN message. */
    method HandleOpen(gr: Option<seq<Family>>, longLived: Option<seq<Family>>, bothRestarting: bool)
      requires Valid()
      modifies this`grEnabled, this`longLivedEnabled, this`afiSafis
      ensures Valid() && Value() == Step(old(Value()), Opened(gr, longLived, bothRestarting))
    {
      if grConfigured && gr.Some? {
        grEnabled := true;
        Raise(gr.value, GrNegotiated);
        if bothRestarting {
          SkipEor();
        }
      }
      if longLivedConfigured && gr.Some? && longLived.Some? {
        longLivedEnabled := true;
        Raise(longLived.value, LongLivedNegotiated);
      }
    }

    /** Applies `f` to the record of each of the families. */
    method Raise(families: seq<Family>, f: AfiSafi -> AfiSafi)
      requires DistinctFamilies(Families(afiSafis))
      requires forall a :: f(a).family == a.family && f(f(a)) == f(a)
      modifies this`afiSafis
      ensures afiSafis == Raised(old(afiSafis), families, f) && Families(afiSafis) == Families(old(afiSafis))
    {
      for k := 0 to |families|
        invariant afiSafis == Raised(old(afiSafis), families[..k], f)
      {
        RaiseOne(families[k], f);
      }
    }

    method RaiseOne(family: Family, f: AfiSafi -> AfiSafi)
      requires DistinctFamilies(Families(afiSafis))
      modifies this`afiSafis
      ensures afiSafis == Raised(old(afiSafis), [family], f)
    {
      for i := 0 to |afiSafis|
        invariant afiSafis == old(afiSafis)
        invariant forall j :: 0 <= j < i ==> afiSafis[j].family != family
      {
        if afiSafis[i].family == family {
          assert forall j :: i < j < |afiSafis| ==> Families(afiSafis)[j] != Families(afiSafis)[i];
          afiSafis := afiSafis[i := f(afiSafis[i])];
          break;
        }
      }
    }

    method SkipEor()
      modifies this`afiSafis
      ensures afiSafis == AllEor(old(afiSafis))
    {
      for i := 0 to |afiSafis|
        invariant |afiSafis| == |old(afiSafis)|
        invariant forall j :: 0 <= j < |afiSafis| ==>
                    afiSafis[j] == if j < i then old(afiSafis)[j].(eor := true) else old(afiSafis)[j]
      {
        afiSafis := afiSafis[i := afiSafis[i].(eor := true)];
      }
    }

    method ClassifyFamilies(all: seq<Family>, part: seq<Family>) returns (a: seq<Family>, b: seq<Family>)
      ensures a == Members(all, part, true) && b == Members(all, part, false)
    {
      a, b := [], [];
      for i := 0 to |all|
        invariant a == Members(all[..i], part, true) && b == Members(all[..i], part, false)
      {
        assert all[..i + 1][..i] == all[..i];
        var found := IsAmong(all[i], part);
        if found {
          a := a + [all[i]];
        } else {
          b := b + [all[i]];
        }
      }
      assert all[..|all|] == all;
    }

    method IsAmong(f: Family, part: seq<Family>) returns (found: bool)
      ensures found <==> f in part
    {
      for j := 0 to |part|
        invariant f !in part[..j]
      {
        if f == part[j] {
          return true;
        }
      }
      return false;
    }

    /** The families whose record satisfies `p`, and the other configured ones. */
    method FamiliesWhere(p: AfiSafi -> bool) returns (a: seq<Family>, b: seq<Family>)
      ensures a == Members(Families(afiSafis), Where(afiSafis, p), true)
      ensures b == Members(Families(afiSafis), Where(afiSafis, p), false)
    {
      var list := [];
      for i := 0 to |afiSafis|
        invariant list == Where(afiSafis[..i], p)
      {
        assert afiSafis[..i + 1][..i] == afiSafis[..i];
        if p(afiSafis[i]) {
          list := list + [afiSafis[i].family];
        }
      }
      assert afiSafis[..|afiSafis|] == afiSafis;
      a, b := ClassifyFamilies(Families(afiSafis), list);
    }

    method RecvedAllEOR() returns (all: bool)
      requires Valid()
      ensures all <==> RecvedAllEor(afiSafis)
      ensures Valid() && Value() == old(Value())
    {
      for i := 0 to |afiSafis|
        invariant forall j :: 0 <= j < i && afiSafis[j].grEnabled ==> afiSafis[j].eor
      {
        if afiSafis[i].grEnabled && !afiSafis[i].eor {
          return false;
        }
      }
      return true;
    }

    method StopPeerRestarting()
      requires Valid()
      modifies this`peerRestarting, this`llgrEndChs
      ensures Valid() && Value() == old(Value()).(peerRestarting := false, llgrTimers := multiset{})
    {
      peerRestarting := false;
      llgrEndChs := multiset{};
    }

    /** What follows hands on, in the Loc-RIB's direction, the lists that the table returns. */
    method DropAll(rfList: seq<Family>) returns (told: seq<RibPath>)
      requires adjRibIn.Valid()
      modifies adjRibIn
      ensures adjRibIn.Valid() && adjRibIn.table.Keys >= old(adjRibIn.table.Keys)
      ensures adjRibIn.routes == Without(old(adjRibIn.routes), rfList)
      ensures NewsOf(told) == Gone(old(adjRibIn.routes), rfList)
    {
      ghost var m := adjRibIn.routes;
      assert WellKeyed(m);
      told := adjRibIn.Drop(rfList);
      WithdrawalsAreNews(told, m, Gone(m, rfList));
    }

    method StaleAll(rfList: seq<Family>) returns (told: seq<RibPath>)
      requires adjRibIn.Valid()
      modifies adjRibIn
      ensures adjRibIn.Valid() && adjRibIn.table.Keys == old(adjRibIn.table.Keys)
      ensures adjRibIn.routes == StaleIn(old(adjRibIn.routes), rfList)
      ensures NewsOf(told) == UsedIn(adjRibIn.routes, rfList)
    {
      told := adjRibIn.StaleAll(rfList);
      assert WellKeyed(adjRibIn.routes);
      UsedAreNews(told, adjRibIn.routes, rfList);
    }

    method MarkLlgrStale(rfList: seq<Family>) returns (told: seq<RibPath>)
      requires adjRibIn.Valid()
      modifies adjRibIn
      ensures adjRibIn.Valid() && adjRibIn.table.Keys == old(adjRibIn.table.Keys)
      ensures adjRibIn.routes == LlgrStaleOrGone(old(adjRibIn.routes), rfList)
      ensures NewsOf(told) == LlgrNews(old(adjRibIn.routes), rfList)
    {
      ghost var m := adjRibIn.routes;
      assert WellKeyed(m);
      told := adjRibIn.MarkLlgrStaleOrDrop(rfList);
      LlgrAreNews(told, m, rfList);
    }

    method DropStale() returns (told: seq<RibPath>)
      requires adjRibIn.Valid()
      modifies adjRibIn
      ensures adjRibIn.Valid() && adjRibIn.table.Keys == old(adjRibIn.table.Keys)
      ensures adjRibIn.routes == WithoutStale(old(adjRibIn.routes), Families(afiSafis))
      ensures NewsOf(told) == Swept(old(adjRibIn.routes), Families(afiSafis))
    {
      ghost var m := adjRibIn.routes;
      assert WellKeyed(m);
      told := adjRibIn.DropStale(Families(afiSafis));
      WithdrawalsAreNews(told, m, Swept(m, Families(afiSafis)));
    }

    /** The branch taken when an established session is lost. */
    method PeerDown(graceful: bool) returns (told: seq<RibPath>)
      requires Valid()
      modifies this`peerRestarting, this`afiSafis, adjRibIn
      ensures Valid()
      ensures Value() == SessionLost(old(Value()), graceful) && NewsOf(told) == LossNews(old(Value()), graceful)
    {
      if !graceful {
        told := DropAll(Families(afiSafis));
      } else {
        var drop, stale := StalePreserved();
        var gone := DropAll(drop);
        told := stale + gone;
        NewsConcat(stale, gone);
      }
    }

    /** The restart begins: preserved families go stale. The other ones are returned as well. */
    method StalePreserved() returns (drop: seq<Family>, told: seq<RibPath>)
      requires Valid()
      modifies this`peerRestarting, this`afiSafis, adjRibIn
      ensures Valid() && drop == Members(Families(old(afiSafis)), Where(old(afiSafis), Preserved), false)
      ensures var s := old(Value());
              var preserved := Members(Families(s.afiSafis), Where(s.afiSafis, Preserved), true);
              && Value() == s.(peerRestarting := true, afiSafis := WithoutEor(s.afiSafis),
                               routes := StaleIn(s.routes, preserved))
              && NewsOf(told) == UsedIn(StaleIn(s.routes, preserved), preserved)
    {
      peerRestarting := true;
      var preserved;
      preserved, drop := FamiliesWhere(Preserved);
      ClearEor();
      told := StaleAll(preserved);
    }

    method ClearEor()
      modifies this`afiSafis
      ensures afiSafis == WithoutEor(old(afiSafis))
      ensures Families(afiSafis) == Families(old(afiSafis))
    {
      for i := 0 to |afiSafis|
        invariant |afiSafis| == |old(afiSafis)|
        invariant forall j :: 0 <= j < |afiSafis| ==>
                    afiSafis[j] == if j < i then old(afiSafis)[j].(eor := false) else old(afiSafis)[j]
      {
        afiSafis := afiSafis[i := afiSafis[i].(eor := false)];
      }
    }

    method HandleStateChange(next: Session, graceful: bool) returns (told: seq<RibPath>)
      requires Valid()
      modifies this, adjRibIn
      ensures Valid() && Value() == Step(old(Value()), StateChange(next, graceful))
      ensures NewsOf(told) == NewsAbout(old(Value()), StateChange(next, graceful))
    {
      var oldState := session;
      session := next;
      told := [];
      if oldState == Established {
        told := PeerDown(graceful);
      } else if peerRestarting && next == Idle {
        told := RestartTimeExpired();
      }
    }

    /** The branch taken when the restart time is over. */
    method RestartTimeExpired() returns (told: seq<RibPath>)
      requires Valid()
      modifies this`peerRestarting, this`llgrEndChs, adjRibIn
      ensures Valid() && Value() == RestartTimeOver(old(Value())) && NewsOf(told) == RestartOverNews(old(Value()))
    {
      if longLivedEnabled {
        var llgr, noLlgr := FamiliesWhere(LongLived);
        var gone := DropAll(noLlgr);
        var marked := MarkLlgrStale(llgr);
        llgrEndChs := llgrEndChs + multiset(llgr);
        told := gone + marked;
        NewsConcat(gone, marked);
      } else {
        peerRestarting := false;
        told := DropAll(Families(afiSafis));
      }
    }

    method HandleUpdate(paths: seq<RibPath>, prefixLimitHit: bool) returns (told: seq<RibPath>)
      requires Valid() && Possible(Value(), Received(paths, prefixLimitHit))
      modifies this`afiSafis, this`peerRestarting, this`llgrEndChs, adjRibIn
      ensures Valid() && Value() == Step(old(Value()), Received(paths, prefixLimitHit))
      ensures NewsOf(told) == NewsAbout(old(Value()), Received(paths, prefixLimitHit))
    {
      ghost var m := adjRibIn.routes;
      told := [];
      if session != Established || |paths| == 0 {
        assert EorsOf(paths) == {} || session != Established;
        return;
      }
      var left := adjRibIn.Update(paths);
      if prefixLimitHit {
        return;
      }
      ghost var s := old(Value());
      var handedOn, eor := Sort(paths, left, m);
      var gone := FollowMarkers(eor, s, paths);
      told := handedOn + gone;
      NewsConcat(handedOn, gone);
    }

    /** What the markers of an UPDATE do once its paths have been stored. */
    method FollowMarkers(eor: seq<Family>, ghost s: Peer, ghost paths: seq<RibPath>) returns (gone: seq<RibPath>)
      requires Valid() && s.session == Established && paths != []
      requires Value() == s.(routes := UpdatedByAll(s.routes, paths)) && forall f :: f in eor <==> f in EorsOf(paths)
      modifies this`afiSafis, this`peerRestarting, this`llgrEndChs, adjRibIn
      ensures Valid() && Value() == UpdateReceived(s, paths, false) && NewsOf(gone) == SweepNews(s, paths)
    {
      ghost var t := Value();
      gone := [];
      assert eor != [] ==> eor[0] in EorsOf(paths);
      if |eor| > 0 {
        gone := HandleEor(eor, EorsOf(paths));
      }
      UpdateIs(s, paths, t, Value());
    }

    /** The paths that are handed on, as the table left them, and the families with a marker. */
    method Sort(paths: seq<RibPath>, left: seq<RibPath>, ghost m: Routes)
      returns (handedOn: seq<RibPath>, eor: seq<Family>)
      requires Valid()
      requires left == AllAsLeft(m, paths)
      ensures Valid() && Value() == old(Value())
      ensures handedOn == Propagated(m, paths) && forall f :: f in eor <==> f in EorsOf(paths)
    {
      handedOn, eor := [], [];
      for i := 0 to |paths|
        invariant handedOn == Propagated(m, paths[..i])
        invariant forall f :: f in eor <==> f in EorsOf(paths[..i])
      {
        EorsOneMore(paths, i);
        LeftAt(m, paths, i);
        assert paths[..i + 1][..i] == paths[..i];
        if paths[i].isEor {
          eor := eor + [paths[i].family];
        } else if paths[i].isWithdraw || !paths[i].rejected {
          handedOn := handedOn + [left[i]];
        }
      }
      assert paths[..|paths|] == paths;
    }

    /** End-of-RIB markers have come; the last one ends the restart and sweeps the stale routes. */
    method HandleEor(eor: seq<Family>, ghost eors: set<Family>) returns (told: seq<RibPath>)
      requires Valid() && forall f :: f in eor <==> f in eors
      modifies this`afiSafis, this`peerRestarting, this`llgrEndChs, adjRibIn
      ensures var s := old(Value());
              var u := s.(afiSafis := WithEor(s.afiSafis, eors));
              if s.peerRestarting && RecvedAllEor(u.afiSafis)
              then Value() == u.(peerRestarting := false, llgrTimers := multiset{},
                                 routes := WithoutStale(s.routes, Families(s.afiSafis))) &&
                   NewsOf(told) == Swept(s.routes, Families(s.afiSafis))
              else Value() == u && told == []
      ensures Valid()
    {
      MarkEor(eor, eors);
      told := [];
      if peerRestarting {
        var all := RecvedAllEOR();
        if all {
          StopPeerRestarting();
          told := DropStale();
        }
      }
    }

    method MarkEor(eor: seq<Family>, ghost eors: set<Family>)
      requires forall f :: f in eor <==> f in eors
      modifies this`afiSafis
      ensures afiSafis == WithEor(old(afiSafis), eors)
      ensures Families(afiSafis) == Families(old(afiSafis))
    {
      for k := 0 to |eor|
        invariant |afiSafis| == |old(afiSafis)|
        invariant forall j :: 0 <= j < |afiSafis| ==>
                    afiSafis[j] ==
                      if afiSafis[j].family in eor[..k] then old(afiSafis)[j].(eor := true) else old(afiSafis)[j]
      {
        ghost var before := afiSafis;
        for i := 0 to |afiSafis|
          invariant |afiSafis| == |before|
          invariant forall j :: 0 <= j < |afiSafis| ==>
                      afiSafis[j] == if j < i && before[j].family == eor[k] then before[j].(eor := true) else before[j]
        {
          if afiSafis[i].family == eor[k] {
            afiSafis := afiSafis[i := afiSafis[i].(eor := true)];
          }
        }
      }
    }

    method LlgrRestartTimerExpired(f: Family) returns (all: bool)
      requires Valid()
      ensures all <==> AllExpired(afiSafis, f)
      ensures Valid() && Value() == old(Value())
    {
      all := true;
      for i := 0 to |afiSafis|
        invariant all <==> forall j :: 0 <= j < i && afiSafis[j].llgrReceived ==> afiSafis[j].family == f
      {
        var expired := afiSafis[i].family == f;  // set on a copy of the record, forgotten after this turn
        if afiSafis[i].llgrReceived && !expired {
          all := false;
        }
      }
    }

    method HandleLlgrTimer(f: Family) returns (told: seq<RibPath>)
      requires Valid() && f in llgrEndChs
      modifies this`peerRestarting, this`llgrEndChs, adjRibIn
      ensures Valid() && Value() == Step(old(Value()), LlgrTimerExpired(f))
      ensures NewsOf(told) == NewsAbout(old(Value()), LlgrTimerExpired(f))
    {
      told := DropFamily(f);
      EndRestartIfLast(f, old(Value()));
    }

    method EndRestartIfLast(f: Family, ghost s: Peer)
      requires Valid()
      requires Value() == s.(routes := Without(s.routes, [f]), llgrTimers := s.llgrTimers - multiset{f})
      modifies this`peerRestarting, this`llgrEndChs
      ensures Valid() && Value() == TimerExpired(s, f)
    {
      ghost var t := Value();
      var all := LlgrRestartTimerExpired(f);
      if all {
        StopPeerRestarting();
      }
      ExpiryIs(s, t, f, all);
    }

    method DropFamily(f: Family) returns (told: seq<RibPath>)
      requires Valid() && f in llgrEndChs
      modifies this`llgrEndChs, adjRibIn
      ensures Valid() && NewsOf(told) == Gone(old(adjRibIn.routes), [f])
      ensures var s := old(Value());
              Value() == s.(routes := Without(s.routes, [f]), llgrTimers := s.llgrTimers - multiset{f})
    {
      llgrEndChs := llgrEndChs - multiset{f};
      told := DropAll([f]);
    }
  }

  lemma ExpiryIs(s: Peer, t: Peer, f: Family, all: bool)
    requires t == s.(routes := Without(s.routes, [f]), llgrTimers := s.llgrTimers - multiset{f})
    requires all <==> AllExpired(s.afiSafis, f)
    ensures TimerExpired(s, f) == if all then t.(peerRestarting := false, llgrTimers := multiset{}) else t
  {
  }

  /** An UPDATE takes the peer from `s` to `t`, the paths stored, or to `u` if there were markers. */
  lemma UpdateIs(s: Peer, paths: seq<RibPath>, t: Peer, u: Peer)
    requires s.session == Established && paths != [] && t == s.(routes := UpdatedByAll(s.routes, paths))
    requires if EorsOf(paths) == {} then u == t else
               var v := t.(afiSafis := WithEor(t.afiSafis, EorsOf(paths)));
               u == if t.peerRestarting && RecvedAllEor(v.afiSafis)
                    then v.(peerRestarting := false, llgrTimers := multiset{},
                            routes := WithoutStale(t.routes, Families(t.afiSafis)))
                    else v
    ensures UpdateReceived(s, paths, false) == u
  {
  }

  lemma {:induction false} LeftAt(m: Routes, ps: seq<RibPath>, i: nat)
    requires i < |ps|
    ensures AllAsLeft(m, ps)[i] == AsLeft(UpdatedByAll(m, ps[..i]), ps[i])
  {
    var n := |ps| - 1;
    if i < n {
      LeftAt(m, ps[..n], i);
      assert ps[..n][..i] == ps[..i];
    }
  }

  lemma EorsOneMore(paths: seq<RibPath>, i: nat)
    requires i < |paths|
    ensures EorsOf(paths[..i + 1]) == EorsOf(paths[..i]) + if paths[i].isEor then {paths[i].family} else {}
  {
    assert paths[..i + 1] == paths[..i] + [paths[i]];
  }

  // ----- What the lists of the table say

  lemma WithdrawalsAreNews(l: seq<RibPath>, m: Routes, n: News)
    requires WellKeyed(m) && Withdrawals(l, m, n.Keys) && forall k :: k in n ==> n[k] == None
    ensures NewsOf(l) == n
  {
    forall k | k in n ensures exists p :: p in l && p.Key() == k {
      assert m[k].Gone() in l && m[k].Gone().Key() == k;
    }
    NewsIs(l, n);
  }

  lemma UsedAreNews(l: seq<RibPath>, m: Routes, fs: seq<Family>)
    requires WellKeyed(m)
    requires forall p :: p in l ==> p.family in fs && !p.rejected && p.Key() in m && m[p.Key()] == p
    requires forall k :: k in m && k.family in fs && !m[k].rejected ==> m[k] in l
    ensures NewsOf(l) == UsedIn(m, fs)
  {
    forall k | k in UsedIn(m, fs) ensures exists p :: p in l && p.Key() == k {
      assert m[k] in l && m[k].Key() == k;
    }
    NewsIs(l, UsedIn(m, fs));
  }

  lemma LlgrAreNews(l: seq<RibPath>, m: Routes, fs: seq<Family>)
    requires WellKeyed(m) && forall w :: w in l <==> LlgrReturned(m, fs, w)
    ensures NewsOf(l) == LlgrNews(m, fs)
  {
    var n := LlgrNews(m, fs);
    forall w | w in l ensures !w.isEor && w.Key() in n && n[w.Key()] == Says(w) {
      var k :| k in m && k.family in fs && (m[k].HasNoLlgr() || !m[k].rejected) && w == Llgr(m[k]);
      assert w.Key() == k;
    }
    forall k | k in n ensures exists p :: p in l && p.Key() == k {
      assert LlgrReturned(m, fs, Llgr(m[k])) && Llgr(m[k]).Key() == k;
    }
    NewsIs(l, n);
  }
}
