/** What an ADD-PATH neighbour learns. It keys the paths of a prefix by the local id they were
    sent with; after any run of recalculations it must hold exactly the known paths. */
module AddPath {
  import opened Common
  import opened BestPath
  import opened Destinations

  /** The paths known before and not after, by object; nothing when the numbers are equal. */
  function WithdrawnPaths(u: Update): seq<Path> {
    if |u.known| == |u.previous| then [] else Missing(u.previous, u.known)
  }

  function Missing(previous: seq<Path>, known: seq<Path>): (l: seq<Path>)
    ensures forall p :: p in l ==> p in previous && p !in known
    ensures forall p :: p in previous && p !in known ==> p in l
  {
    if previous == [] then []
    else
      var n := |previous| - 1;
      Missing(previous[..n], known) + if previous[n] in known then [] else [previous[n]]
  }

  /** The paths whose withdrawal is sent; each clone shares the prefix object of the original. */
  method GetWithdrawnPath(u: Update) returns (l: seq<Path>)
    ensures l == WithdrawnPaths(u)
  {
    if |u.known| == |u.previous| {
      return [];
    }
    l := [];
    for i := 0 to |u.previous|
      invariant l == Missing(u.previous[..i], u.known)
    {
      MissingOneMore(u.previous, i, u.known);
      var y := Among(u.previous[i], u.known);
      if !y {
        l := l + [u.previous[i]];
      }
    }
    assert u.previous[..|u.previous|] == u.previous;
  }

  method Among(p: Path, ps: seq<Path>) returns (y: bool)
    ensures y <==> p in ps
  {
    for j := 0 to |ps|
      invariant p !in ps[..j]
    {
      if p == ps[j] {
        return true;
      }
    }
    return false;
  }

  lemma MissingOneMore(previous: seq<Path>, i: nat, known: seq<Path>)
    requires i < |previous|
    ensures Missing(previous[..i + 1], known) ==
              Missing(previous[..i], known) + if previous[i] in known then [] else [previous[i]]
  {
    assert previous[..i + 1][..i] == previous[..i];
  }

  /** Nothing is sent for a new route-target membership while a local one is known. */
  predicate Silent(rtc: bool, s: State, p: Path) {
    rtc && !p.isWithdraw && exists q :: q in s.known && q.route.IsLocal()
  }

  /** The neighbour's table after a recalculation for `p`: the new path under its id, or the
      withdrawals under the ids that the withdrawn paths carry by then. */
  ghost function Emit(rtc: bool, view: map<nat, Path>, s: State, p: Path, t: State): map<nat, Path>
    requires p.nlri in t.ids
    requires forall q :: q in s.known ==> q.nlri in t.ids
  {
    if p.isWithdraw then view - (set q | q in WithdrawnPaths(Update(t.known, s.known)) :: t.ids[q.nlri])
    else if Silent(rtc, s, p) then view
    else view[t.ids[p.nlri] := p]
  }

  /** Known paths carry ids that are not zero. This holds in every reachable state. */
  ghost predicate Numbered(s: State) {
    0 in s.taken && forall p :: p in s.known ==> p.nlri in s.ids && s.ids[p.nlri] != 0
  }

  /** Known paths occur once, and carry nonzero, taken ids that are pairwise distinct. */
  ghost predicate Sound(s: State) {
    && Numbered(s)
    && (forall p :: p in s.known ==> s.ids[p.nlri] in s.taken && multiset(s.known)[p] == 1)
    && (forall p, q :: p in s.known && q in s.known && p != q ==> s.ids[p.nlri] != s.ids[q.nlri])
  }

  /** The neighbour holds exactly the known paths, each under its local id. */
  ghost predicate Mirrors(view: map<nat, Path>, s: State)
    requires forall p :: p in s.known ==> p.nlri in s.ids
  {
    && (forall p :: p in s.known ==> s.ids[p.nlri] in view && view[s.ids[p.nlri]] == p)
    && (forall k :: k in view ==> view[k] in s.known && s.ids[view[k].nlri] == k)
  }

  /** The index of the known path that an announcement replaces, or -1. */
  function Replaced(s: State, p: Path): (i: int)
    ensures -1 <= i < |s.known|
  {
    if p.noImplicitWithdraw then -1 else FirstMatch(s.known, p)
  }

  /** The id that an announced path ends up with. */
  ghost function NewId(s: State, p: Path): nat
    requires s.Complete() && p.nlri in s.ids
  {
    if Replaced(s, p) >= 0 then s.IdAt(Replaced(s, p))
    else if s.ids[p.nlri] != 0 then s.ids[p.nlri]
    else LeastFree(s.taken)
  }

  /** A withdrawal whose prefix object belongs to a known path matches no other path. */
  ghost predicate KeepsOthers(s: State, w: Path) {
    (exists q :: q in s.known && q.nlri == w.nlri) ==>
      forall q :: q in s.known && q.SameOrigin(w) ==> q.nlri == w.nlri
  }

  /** What an exact copy needs of the path handed in. A withdrawal must leave the ids of the other
      paths alone. A known path may be announced again unless that replaces another one. A new path
      must be sent at all; it must not share its prefix object with a known path that it does not
      replace, and the one it replaces must be known once; and if it replaces none, its id, which
      may be allocated, must not be that of a known path. */
  ghost predicate CopyAdmissible(rtc: bool, s: State, p: Path)
    requires s.Complete() && p.nlri in s.ids
  {
    if p.isWithdraw then KeepsOthers(s, p)
    else
      var i := Replaced(s, p);
      if p in s.known then i < 0 || s.known[i] == p
      else if Silent(rtc, s, p) then false
      else if i >= 0 then forall q :: q in RemoveAt(s.known, i) ==> q != s.known[i] && q.nlri != p.nlri
      else forall q :: q in s.known ==> s.ids[q.nlri] != NewId(s, p)
  }

  /** What it takes, besides, for the ids to stay distinct and taken: an added path has no id or a
      taken one, and is not known. */
  ghost predicate Admissible(rtc: bool, s: State, p: Path)
    requires s.Complete() && p.nlri in s.ids
  {
    && CopyAdmissible(rtc, s, p)
    && (!p.isWithdraw && Replaced(s, p) < 0 ==>
          p !in s.known && (s.ids[p.nlri] == 0 || s.ids[p.nlri] in s.taken))
  }

  /** One recalculation whose outcome is sent to neighbours, which it is while best-path selection
      is not disabled. */
  ghost predicate Step(opts: SelectionOptions, s: State, p: Path, t: State) {
    && !opts.disableBestPathSelection && s.Complete() && p.nlri in s.ids && p.nlri in t.ids
    && t.ids == s.ids[p.nlri := t.ids[p.nlri]]
    && Calculates(opts, s, p, t.known, t.ids[p.nlri], t.taken)
  }

  // ----- What one recalculation does to the state

  lemma {:induction false} TakenOverIdOf(s: State, w: Path, n: nat)
    requires s.Complete() && w.nlri in s.ids && n <= |s.known|
    ensures var id := TakenOverId(s.known, s.ids, w, n);
            || id == s.ids[w.nlri]
            || exists i ::
                 0 <= i < n && s.known[i].SameOrigin(w) && s.known[i].nlri != w.nlri && id == s.ids[s.known[i].nlri]
    ensures (exists i :: 0 <= i < n && s.known[i].SameOrigin(w) && s.known[i].nlri != w.nlri) ==>
              exists i :: 0 <= i < n && s.known[i].SameOrigin(w) && s.known[i].nlri != w.nlri &&
                TakenOverId(s.known, s.ids, w, n) == s.ids[s.known[i].nlri]
  {
    if n > 0 {
      TakenOverIdOf(s, w, n - 1);
    }
  }

  lemma TakenOverIdIsNotZero(s: State, p: Path, q: Path)
    requires s.Complete() && p.nlri in s.ids && Numbered(s) && q in s.known && q.nlri == p.nlri
    ensures TakenOverId(s.known, s.ids, p, |s.known|) != 0
  {
    TakenOverIdOf(s, p, |s.known|);
    assert forall i :: 0 <= i < |s.known| ==> s.known[i] in s.known;
  }

  lemma StillKnown(s: State, p: Path)
    requires s.Complete() && p.nlri in s.ids
    ensures forall q :: q in AfterWithdraw(s, p).known ==> q in s.known
  {
    var known := AfterWithdraw(s, p).known;
    assert forall q :: q in known ==> q in multiset(known);
    assert multiset(known) <= multiset(s.known);
  }

  /** Known ids are not zero, so a withdrawal makes none be allocated. */
  lemma NothingAllocated(s: State, p: Path)
    requires p.isWithdraw && s.Complete() && p.nlri in s.ids && Numbered(s)
    ensures Recalculated(s, p) == AfterWithdraw(s, p)
  {
    var u := AfterWithdraw(s, p);
    StillKnown(s, p);
    if q :| q in u.known && q.nlri == p.nlri {
      TakenOverIdIsNotZero(s, p, q);
    }
  }

  lemma WithdrawLeaves(opts: SelectionOptions, s: State, p: Path, t: State)
    requires Step(opts, s, p, t) && p.isWithdraw && Numbered(s)
    ensures var i := LastMatch(s.known, p);
            && t.ids == s.ids[p.nlri := TakenOverId(s.known, s.ids, p, |s.known|)]
            && multiset(t.known) == multiset(if i < 0 then s.known else RemoveAt(s.known, i))
            && (i >= 0 ==> s.known[i].nlri in t.ids && t.ids[s.known[i].nlri] != 0)
            && t.taken == if i >= 0 && p.dropped then s.taken - {t.ids[s.known[i].nlri]} else s.taken
  {
    WithdrawRecalculated(s, p);
  }

  lemma WithdrawRecalculated(s: State, p: Path)
    requires p.isWithdraw && s.Complete() && p.nlri in s.ids && Numbered(s)
    ensures var i, u := LastMatch(s.known, p), Recalculated(s, p);
            && u.ids == s.ids[p.nlri := TakenOverId(s.known, s.ids, p, |s.known|)]
            && u.known == (if i < 0 then s.known else RemoveAt(s.known, i))
            && (i >= 0 ==> s.known[i].nlri in u.ids && u.ids[s.known[i].nlri] != 0)
            && u.taken == if i >= 0 && p.dropped then s.taken - {u.ids[s.known[i].nlri]} else s.taken
  {
    NothingAllocated(s, p);
    var i := LastMatch(s.known, p);
    if i >= 0 {
      assert s.known[i] in s.known;
      if s.known[i].nlri == p.nlri {
        TakenOverIdIsNotZero(s, p, s.known[i]);
      }
    }
  }

  lemma AnnounceLeaves(opts: SelectionOptions, s: State, p: Path, t: State)
    requires Step(opts, s, p, t) && !p.isWithdraw && Numbered(s)
    ensures var i := Replaced(s, p);
            && t.ids == s.ids[p.nlri := NewId(s, p)] && NewId(s, p) != 0
            && multiset(t.known) == multiset((if i < 0 then s.known else RemoveAt(s.known, i)) + [p])
            && t.taken == if i < 0 && s.ids[p.nlri] == 0 then s.taken + {NewId(s, p)} else s.taken
  {
    AnnounceRecalculated(s, p);
  }

  lemma AnnounceRecalculated(s: State, p: Path)
    requires !p.isWithdraw && s.Complete() && p.nlri in s.ids && Numbered(s)
    ensures var i, u := Replaced(s, p), Recalculated(s, p);
            && u.ids == s.ids[p.nlri := NewId(s, p)] && NewId(s, p) != 0
            && u.known == (if i < 0 then s.known else RemoveAt(s.known, i)) + [p]
            && u.taken == if i < 0 && s.ids[p.nlri] == 0 then s.taken + {NewId(s, p)} else s.taken
  {
    var i := Replaced(s, p);
    var u := AfterReplace(s, p);
    assert u.known[|u.known| - 1] == p && p in u.known;
    assert i >= 0 ==> s.known[i] in s.known;
  }

  lemma MembersOf(a: seq<Path>, b: seq<Path>)
    requires multiset(a) == multiset(b)
    ensures |a| == |b| && forall q :: q in a <==> q in b
  {
    SameMembers(a, b);
    assert |multiset(a)| == |a| && |multiset(b)| == |b|;
  }

  /** The members of a list without one element, which may be in it more often. */
  lemma MembersWithout(l: seq<Path>, i: nat)
    requires i < |l|
    ensures forall q :: q in RemoveAt(l, i) ==> q in l
    ensures forall q :: q in l && q != l[i] ==> q in RemoveAt(l, i)
  {
    var r := RemoveAt(l, i);
    assert forall q :: q in r <==> q in multiset(r);
    assert forall q :: q in l <==> q in multiset(l);
  }

  // ----- Withdrawals

  /** The members of `t.known` are those of `s.known`, where `gone` was removed once. */
  ghost predicate Removes(s: State, p: Path, t: State, gone: Option<Path>) {
    && p.isWithdraw && Numbered(s) && p.nlri in s.ids && p.nlri in t.ids
    && t.ids == s.ids[p.nlri := t.ids[p.nlri]]
    && (gone.Some? ==> gone.value in s.known)
    && (forall q :: q in t.known ==> q in s.known)
    && (forall q :: q in s.known && gone != Some(q) ==> q in t.known)
    && |t.known| == |s.known| - if gone.Some? then 1 else 0
  }

  lemma WithdrawRemoves(opts: SelectionOptions, s: State, p: Path, t: State) returns (gone: Option<Path>)
    requires Step(opts, s, p, t) && p.isWithdraw && Numbered(s)
    ensures Removes(s, p, t, gone) && t.ids[p.nlri] == TakenOverId(s.known, s.ids, p, |s.known|)
    ensures gone == var i := LastMatch(s.known, p); if i < 0 then None else Some(s.known[i])
  {
    var i := LastMatch(s.known, p);
    WithdrawLeaves(opts, s, p, t);
    if i < 0 {
      MembersOf(t.known, s.known);
      gone := None;
    } else {
      MembersOf(t.known, RemoveAt(s.known, i));
      MembersWithout(s.known, i);
      gone := Some(s.known[i]);
      assert s.known[i] in s.known;
    }
  }

  /** The removed path goes from the table unless it is still known. */
  lemma WithdrawEmitted(rtc: bool, s: State, p: Path, t: State, view: map<nat, Path>, gone: Option<Path>)
    requires Removes(s, p, t, gone)
    ensures forall q :: q in s.known ==> q.nlri in t.ids
    ensures Emit(rtc, view, s, p, t) ==
            if gone.Some? && gone.value !in t.known then view - {t.ids[gone.value.nlri]} else view
  {
    var l := WithdrawnPaths(Update(t.known, s.known));
    if gone.Some? {
      assert gone.value in l <==> gone.value !in t.known;
      assert forall q :: q in l ==> q == gone.value;
      assert (set q | q in l :: t.ids[q.nlri]) == if gone.value in t.known then {} else {t.ids[gone.value.nlri]};
    }
  }

  lemma KeptIds(s: State, p: Path)
    requires p.isWithdraw && s.Complete() && p.nlri in s.ids && Numbered(s) && KeepsOthers(s, p)
    ensures var ids := s.ids[p.nlri := TakenOverId(s.known, s.ids, p, |s.known|)];
            forall q :: q in s.known ==> ids[q.nlri] == s.ids[q.nlri]
  {
    TakenOverIdOf(s, p, |s.known|);
    assert forall i :: 0 <= i < |s.known| ==> s.known[i] in s.known;
  }

  /** Otherwise the withdrawal takes over the id of another path `n`, which `r` then has as well. */
  lemma TakesOver(s: State, p: Path) returns (r: Path, n: Path)
    requires p.isWithdraw && s.Complete() && p.nlri in s.ids && Numbered(s) && !KeepsOthers(s, p)
    ensures r in s.known && n in s.known && r.nlri == p.nlri && n.nlri != p.nlri
    ensures TakenOverId(s.known, s.ids, p, |s.known|) == s.ids[n.nlri]
  {
    TakenOverIdOf(s, p, |s.known|);
    r :| r in s.known && r.nlri == p.nlri;
    var m :| m in s.known && m.SameOrigin(p) && m.nlri != p.nlri;
    var j :| 0 <= j < |s.known| && s.known[j] == m;
    var i :| 0 <= i < |s.known| && s.known[i].SameOrigin(p) && s.known[i].nlri != p.nlri &&
             TakenOverId(s.known, s.ids, p, |s.known|) == s.ids[s.known[i].nlri];
    n := s.known[i];
  }

  lemma WithdrawIsNumbered(opts: SelectionOptions, s: State, p: Path, t: State)
    requires Step(opts, s, p, t) && p.isWithdraw && Numbered(s)
    ensures Numbered(t)
  {
    WithdrawLeaves(opts, s, p, t);
    var gone := WithdrawRemoves(opts, s, p, t);
    forall q | q in t.known ensures q.nlri in t.ids && t.ids[q.nlri] != 0 {
      if q.nlri == p.nlri {
        TakenOverIdIsNotZero(s, p, q);
      }
    }
  }

  lemma WithdrawKeeps(rtc: bool, s: State, p: Path, t: State, view: map<nat, Path>, gone: Option<Path>)
    requires Removes(s, p, t, gone) && Numbered(t) && Mirrors(view, s)
    requires forall q :: q in s.known ==> q.nlri in t.ids && t.ids[q.nlri] == s.ids[q.nlri]
    ensures Mirrors(Emit(rtc, view, s, p, t), t)
  {
    WithdrawEmitted(rtc, s, p, t, view, gone);
  }

  lemma WithdrawBreaks(rtc: bool, s: State, p: Path, t: State, view: map<nat, Path>,
                       gone: Option<Path>, r: Path, n: Path)
    requires Removes(s, p, t, gone) && Numbered(t) && Mirrors(view, s)
    requires r in s.known && n in s.known && r.nlri == p.nlri && n.nlri != p.nlri
    requires t.ids[p.nlri] == s.ids[n.nlri] && forall q :: q in s.known ==> q.nlri in t.ids
    ensures !Mirrors(Emit(rtc, view, s, p, t), t)
  {
    WithdrawEmitted(rtc, s, p, t, view, gone);
    if r in t.known {
      assert view[s.ids[n.nlri]] == n;
    } else {
      assert gone == Some(r) && n in t.known && t.ids[n.nlri] !in Emit(rtc, view, s, p, t);
    }
  }

  lemma WithdrawCopyIff(opts: SelectionOptions, rtc: bool, s: State, p: Path, t: State, view: map<nat, Path>)
    requires Step(opts, s, p, t) && p.isWithdraw && Numbered(s) && Mirrors(view, s)
    ensures Numbered(t) && (forall q :: q in s.known ==> q.nlri in t.ids)
    ensures Mirrors(Emit(rtc, view, s, p, t), t) <==> KeepsOthers(s, p)
  {
    var gone := WithdrawRemoves(opts, s, p, t);
    WithdrawIsNumbered(opts, s, p, t);
    WithdrawEmitted(rtc, s, p, t, view, gone);
    if KeepsOthers(s, p) {
      KeptIds(s, p);
      WithdrawKeeps(rtc, s, p, t, view, gone);
    } else {
      var r, n := TakesOver(s, p);
      WithdrawBreaks(rtc, s, p, t, view, gone, r, n);
    }
  }

  // ----- Announcements

  /** The members of `t.known` are `p` and those of `s.known`, where `gone` was removed once; it may
      still be there. */
  ghost predicate Adds(s: State, p: Path, t: State, gone: Option<Path>) {
    && !p.isWithdraw && Numbered(s) && p.nlri in s.ids && p.nlri in t.ids && p in t.known
    && t.ids == s.ids[p.nlri := t.ids[p.nlri]] && t.ids[p.nlri] != 0
    && (gone.Some? ==> gone.value in s.known && t.ids[p.nlri] == s.ids[gone.value.nlri])
    && (gone.None? && s.ids[p.nlri] != 0 ==> t.ids[p.nlri] == s.ids[p.nlri])
    && (forall q :: q in t.known ==> q == p || q in s.known)
    && (forall q :: q in s.known && gone != Some(q) ==> q in t.known)
  }

  lemma AnnounceAdds(opts: SelectionOptions, s: State, p: Path, t: State) returns (gone: Option<Path>)
    requires Step(opts, s, p, t) && !p.isWithdraw && Numbered(s)
    ensures Adds(s, p, t, gone) && t.ids[p.nlri] == NewId(s, p) && 0 in t.taken
    ensures gone == var i := Replaced(s, p); if i < 0 then None else Some(s.known[i])
    ensures gone.Some? ==>
              (gone.value in t.known <==> gone.value == p || gone.value in RemoveAt(s.known, Replaced(s, p)))
  {
    AnnounceLeaves(opts, s, p, t);
    var i := Replaced(s, p);
    if i < 0 {
      MembersOf(t.known, s.known + [p]);
      gone := None;
    } else {
      MembersOf(t.known, RemoveAt(s.known, i) + [p]);
      MembersWithout(s.known, i);
      gone := Some(s.known[i]);
      assert s.known[i] in s.known;
    }
  }

  lemma AddsIsNumbered(s: State, p: Path, t: State, gone: Option<Path>)
    requires Adds(s, p, t, gone) && 0 in t.taken
    ensures Numbered(t) && forall q :: q in s.known ==> q.nlri in t.ids
  {
  }

  /** A known path is announced again. */
  lemma AgainCopyIff(rtc: bool, s: State, p: Path, t: State, view: map<nat, Path>, gone: Option<Path>)
    requires Adds(s, p, t, gone) && Numbered(t) && Mirrors(view, s) && p in s.known
    requires forall q :: q in s.known ==> q.nlri in t.ids
    ensures Mirrors(Emit(rtc, view, s, p, t), t) <==> gone.None? || gone.value == p
  {
    if gone.None? || gone.value == p {
      assert t.ids == s.ids && Emit(rtc, view, s, p, t) == view;
    } else {
      assert view[s.ids[p.nlri]] == p && view[s.ids[gone.value.nlri]] == gone.value;
      assert s.ids[p.nlri] in Emit(rtc, view, s, p, t) && t.ids[p.nlri] != s.ids[p.nlri];
    }
  }

  /** A new path replaces a known one. */
  lemma ReplacingCopyIff(s: State, p: Path, t: State, view: map<nat, Path>, g: Path)
    requires Adds(s, p, t, Some(g)) && Numbered(t) && Mirrors(view, s) && p !in s.known
    ensures Mirrors(view[t.ids[p.nlri] := p], t) <==>
            g !in t.known && forall q :: q in s.known && q != g ==> q.nlri != p.nlri
  {
    var after := view[t.ids[p.nlri] := p];
    if q :| q in s.known && (if q == g then g in t.known else q.nlri == p.nlri) {
      assert q in t.known && t.ids[q.nlri] == t.ids[p.nlri] && after[t.ids[q.nlri]] != q;
    } else {
      forall k | k in after ensures after[k] in t.known && t.ids[after[k].nlri] == k {
        if k != t.ids[p.nlri] {
          assert view[k] in s.known && view[k] != g;
        }
      }
    }
  }

  /** A new path is added. */
  lemma AddingCopyIff(s: State, p: Path, t: State, view: map<nat, Path>)
    requires Adds(s, p, t, None) && Numbered(t) && Mirrors(view, s) && p !in s.known
    ensures Mirrors(view[t.ids[p.nlri] := p], t) <==> forall q :: q in s.known ==> s.ids[q.nlri] != t.ids[p.nlri]
  {
    if q :| q in s.known && s.ids[q.nlri] == t.ids[p.nlri] {
      assert q in t.known && t.ids[q.nlri] == t.ids[p.nlri];
    } else {
      assert forall q :: q in s.known ==> q.nlri != p.nlri;
    }
  }

  lemma AnnounceCopyIff(opts: SelectionOptions, rtc: bool, s: State, p: Path, t: State, view: map<nat, Path>)
    requires Step(opts, s, p, t) && !p.isWithdraw && Numbered(s) && Mirrors(view, s)
    ensures Numbered(t) && (forall q :: q in s.known ==> q.nlri in t.ids)
    ensures Mirrors(Emit(rtc, view, s, p, t), t) <==> CopyAdmissible(rtc, s, p)
  {
    var gone := AnnounceAdds(opts, s, p, t);
    AddsIsNumbered(s, p, t, gone);
    if p in s.known {
      AgainCopyIff(rtc, s, p, t, view, gone);
    } else if Silent(rtc, s, p) {
      assert forall k :: k in view ==> view[k] != p;
    } else if gone.Some? {
      MembersWithout(s.known, Replaced(s, p));
      ReplacingCopyIff(s, p, t, view, gone.value);
    } else {
      AddingCopyIff(s, p, t, view);
    }
  }

  // ----- One recalculation

  /** An exact copy stays exact over one recalculation if and only if the path handed in meets the
      conditions for that. */
  lemma CopyExactIff(opts: SelectionOptions, rtc: bool, s: State, p: Path, t: State, view: map<nat, Path>)
    requires Step(opts, s, p, t) && Numbered(s) && Mirrors(view, s)
    ensures Numbered(t) && (forall q :: q in s.known ==> q.nlri in t.ids)
    ensures Mirrors(Emit(rtc, view, s, p, t), t) <==> CopyAdmissible(rtc, s, p)
  {
    if p.isWithdraw {
      WithdrawCopyIff(opts, rtc, s, p, t, view);
    } else {
      AnnounceCopyIff(opts, rtc, s, p, t, view);
    }
  }

  /** Known paths stay known once, and their ids taken, if an added path is new and has no id or a
      taken one. */
  lemma SoundIff(opts: SelectionOptions, rtc: bool, s: State, p: Path, t: State, view: map<nat, Path>)
    requires Step(opts, s, p, t) && Sound(s) && Numbered(t) && Mirrors(view, t) && CopyAdmissible(rtc, s, p)
    ensures Sound(t) <==> Admissible(rtc, s, p)
  {
    if p.isWithdraw {
      WithdrawStaysSound(opts, s, p, t);
    } else {
      AnnounceIsSoundIff(opts, rtc, s, p, t);
    }
  }

  lemma WithdrawStaysSound(opts: SelectionOptions, s: State, p: Path, t: State)
    requires Step(opts, s, p, t) && Sound(s) && p.isWithdraw && KeepsOthers(s, p)
    ensures Sound(t)
  {
    WithdrawLeaves(opts, s, p, t);
    var gone := WithdrawRemoves(opts, s, p, t);
    KeptIds(s, p);
    var i := LastMatch(s.known, p);
    forall q | q in t.known
      ensures t.ids[q.nlri] in t.taken && multiset(t.known)[q] == 1
    {
      assert multiset(t.known)[q] <= multiset(s.known)[q] && multiset(t.known)[q] > 0;
      assert i >= 0 ==> s.known[i] in s.known && multiset(s.known)[s.known[i]] == 1;
    }
  }

  lemma AnnounceIsSoundIff(opts: SelectionOptions, rtc: bool, s: State, p: Path, t: State)
    requires Step(opts, s, p, t) && Sound(s) && Numbered(t) && !p.isWithdraw && CopyAdmissible(rtc, s, p)
    requires forall q, r :: q in t.known && r in t.known && q != r ==> t.ids[q.nlri] != t.ids[r.nlri]
    ensures Sound(t) <==> Admissible(rtc, s, p)
  {
    AnnounceLeaves(opts, s, p, t);
    var gone := AnnounceAdds(opts, s, p, t);
    AddsIsSoundIff(rtc, s, p, t, gone);
  }

  lemma AddsIsSoundIff(rtc: bool, s: State, p: Path, t: State, gone: Option<Path>)
    requires Adds(s, p, t, gone) && Numbered(t) && Sound(s) && s.Complete() && CopyAdmissible(rtc, s, p)
    requires t.ids[p.nlri] == NewId(s, p) && (gone.Some? <==> Replaced(s, p) >= 0)
    requires t.taken == if gone.None? && s.ids[p.nlri] == 0 then s.taken + {NewId(s, p)} else s.taken
    requires var i := Replaced(s, p);
             multiset(t.known) == multiset((if i < 0 then s.known else RemoveAt(s.known, i)) + [p])
    requires forall q, r :: q in t.known && r in t.known && q != r ==> t.ids[q.nlri] != t.ids[r.nlri]
    ensures Sound(t) <==> Admissible(rtc, s, p)
  {
    OnceIff(s.known, Replaced(s, p), p, t.known);
    TakenIff(s, p, t, gone);
  }

  /** Paths that are known once still are, unless a known one has been added. */
  lemma OnceIff(known: seq<Path>, i: int, p: Path, after: seq<Path>)
    requires -1 <= i < |known| && forall q :: q in known ==> multiset(known)[q] == 1
    requires multiset(after) == multiset((if i < 0 then known else RemoveAt(known, i)) + [p])
    requires p in known && i >= 0 ==> known[i] == p
    ensures (forall q :: q in after ==> multiset(after)[q] == 1) <==> i >= 0 || p !in known
  {
    var rest: seq<Path> := if i < 0 then known else RemoveAt(known, i);
    assert multiset(after) == multiset(rest) + multiset{p};
    assert i >= 0 ==> known[i] in known;
    assert forall q :: q in known <==> multiset(known)[q] > 0;
    assert forall q :: q in after <==> multiset(after)[q] > 0;
    forall q | q in after && (i >= 0 || p !in known) ensures multiset(after)[q] == 1 {
      assert multiset(rest)[q] <= multiset(known)[q] <= 1;
    }
    assert multiset(after)[p] == multiset(rest)[p] + 1;
  }

  lemma TakenIff(s: State, p: Path, t: State, gone: Option<Path>)
    requires Adds(s, p, t, gone) && Numbered(t) && Sound(s) && s.Complete()
    requires t.ids[p.nlri] == NewId(s, p) && (gone.Some? <==> Replaced(s, p) >= 0)
    requires t.taken == if gone.None? && s.ids[p.nlri] == 0 then s.taken + {NewId(s, p)} else s.taken
    ensures (forall q :: q in t.known ==> t.ids[q.nlri] in t.taken) <==>
            gone.Some? || s.ids[p.nlri] == 0 || s.ids[p.nlri] in s.taken
  {
  }

  /** The neighbour's table stays exact over one recalculation, and the ids stay sound, if and
      only if the path handed in is admissible. */
  lemma MirrorIffAdmissible(opts: SelectionOptions, rtc: bool, s: State, p: Path, t: State, view: map<nat, Path>)
    requires Step(opts, s, p, t) && Sound(s) && Mirrors(view, s)
    ensures (forall q :: q in s.known ==> q.nlri in t.ids)
    ensures Sound(t) && Mirrors(Emit(rtc, view, s, p, t), t) <==> Admissible(rtc, s, p)
  {
    CopyExactIff(opts, rtc, s, p, t, view);
    if CopyAdmissible(rtc, s, p) {
      SoundIff(opts, rtc, s, p, t, Emit(rtc, view, s, p, t));
    }
  }

  // ----- Runs

  datatype Recalculation = Recalculation(s: State, p: Path, t: State)

  /** Recalculations of one destination from its creation on. Between two of them nothing touches
      the known paths, their ids or the taken ids. */
  ghost predicate IsRun(opts: SelectionOptions, run: seq<Recalculation>) {
    && (forall i :: 0 <= i < |run| ==> Step(opts, run[i].s, run[i].p, run[i].t))
    && (run != [] ==> run[0].s.known == [] && run[0].s.taken == {0})
    && (forall i :: 0 < i < |run| ==> Follows(run[i - 1].t, run[i].s))
  }

  ghost predicate Follows(t: State, s: State) {
    && s.known == t.known && s.taken == t.taken
    && forall q :: q in s.known ==> q.nlri in s.ids && q.nlri in t.ids && s.ids[q.nlri] == t.ids[q.nlri]
  }

  /** The table of a neighbour that was told of the first `n` recalculations. */
  ghost function ViewAfter(opts: SelectionOptions, rtc: bool, run: seq<Recalculation>, n: nat): map<nat, Path>
    requires IsRun(opts, run) && n <= |run|
  {
    if n == 0 then map[]
    else
      assert Step(opts, run[n - 1].s, run[n - 1].p, run[n - 1].t);
      Emit(rtc, ViewAfter(opts, rtc, run, n - 1), run[n - 1].s, run[n - 1].p, run[n - 1].t)
  }

  /** After `n` recalculations the neighbour's table is exact. */
  ghost predicate CopiedAfter(opts: SelectionOptions, rtc: bool, run: seq<Recalculation>, n: nat)
    requires IsRun(opts, run) && n <= |run|
  {
    n > 0 ==>
      var t := run[n - 1].t;
      (forall p :: p in t.known ==> p.nlri in t.ids) && Mirrors(ViewAfter(opts, rtc, run, n), t)
  }

  /** After `n` recalculations the ids are sound and the neighbour's table is exact. */
  ghost predicate ExactAfter(opts: SelectionOptions, rtc: bool, run: seq<Recalculation>, n: nat)
    requires IsRun(opts, run) && n <= |run|
  {
    n == 0 || (Sound(run[n - 1].t) && Mirrors(ViewAfter(opts, rtc, run, n), run[n - 1].t))
  }

  lemma StaysNumbered(opts: SelectionOptions, s: State, p: Path, t: State)
    requires Step(opts, s, p, t) && Numbered(s)
    ensures Numbered(t)
  {
    if p.isWithdraw {
      WithdrawIsNumbered(opts, s, p, t);
    } else {
      var gone := AnnounceAdds(opts, s, p, t);
      AddsIsNumbered(s, p, t, gone);
    }
  }

  /** Known ids are never zero. */
  lemma {:induction false} NumberedBefore(opts: SelectionOptions, run: seq<Recalculation>, n: nat)
    requires IsRun(opts, run) && n < |run|
    ensures Numbered(run[n].s)
  {
    if n > 0 {
      NumberedBefore(opts, run, n - 1);
      StaysNumbered(opts, run[n - 1].s, run[n - 1].p, run[n - 1].t);
      assert Follows(run[n - 1].t, run[n].s);
    }
  }

  lemma CopyStep(opts: SelectionOptions, rtc: bool, run: seq<Recalculation>, n: nat)
    requires IsRun(opts, run) && n < |run| && CopiedAfter(opts, rtc, run, n)
    ensures CopiedAfter(opts, rtc, run, n + 1) <==> CopyAdmissible(rtc, run[n].s, run[n].p)
  {
    NumberedBefore(opts, run, n);
    MirrorsBefore(opts, rtc, run, n);
    CopyStepFrom(opts, rtc, run[n], ViewAfter(opts, rtc, run, n), ViewAfter(opts, rtc, run, n + 1));
  }

  lemma CopyStepFrom(opts: SelectionOptions, rtc: bool, r: Recalculation, view: map<nat, Path>, after: map<nat, Path>)
    requires Step(opts, r.s, r.p, r.t) && Numbered(r.s) && Mirrors(view, r.s)
    requires after == Emit(rtc, view, r.s, r.p, r.t)
    ensures Numbered(r.t) && (Mirrors(after, r.t) <==> CopyAdmissible(rtc, r.s, r.p))
  {
    CopyExactIff(opts, rtc, r.s, r.p, r.t, view);
  }

  lemma MirrorsBefore(opts: SelectionOptions, rtc: bool, run: seq<Recalculation>, n: nat)
    requires IsRun(opts, run) && n < |run| && CopiedAfter(opts, rtc, run, n) && Numbered(run[n].s)
    ensures Mirrors(ViewAfter(opts, rtc, run, n), run[n].s)
  {
    assert n > 0 ==> Follows(run[n - 1].t, run[n].s);
  }

  lemma {:induction false} CopiedIf(opts: SelectionOptions, rtc: bool, run: seq<Recalculation>, n: nat)
    requires IsRun(opts, run) && n <= |run|
    requires forall i :: 0 <= i < n ==> CopyAdmissible(rtc, run[i].s, run[i].p)
    ensures CopiedAfter(opts, rtc, run, n)
  {
    if n > 0 {
      CopiedIf(opts, rtc, run, n - 1);
      CopyStep(opts, rtc, run, n - 1);
    }
  }

  /** Over every run of recalculations: the neighbour's table is exact after each of them if and only
      if every path handed in met the conditions for that. */
  lemma CopyOverRuns(opts: SelectionOptions, rtc: bool, run: seq<Recalculation>)
    requires IsRun(opts, run)
    ensures (forall n :: 0 <= n <= |run| ==> CopiedAfter(opts, rtc, run, n)) <==>
            (forall i :: 0 <= i < |run| ==> CopyAdmissible(rtc, run[i].s, run[i].p))
  {
    if forall n :: 0 <= n <= |run| ==> CopiedAfter(opts, rtc, run, n) {
      forall i | 0 <= i < |run| ensures CopyAdmissible(rtc, run[i].s, run[i].p) {
        assert CopiedAfter(opts, rtc, run, i) && CopiedAfter(opts, rtc, run, i + 1);
        CopyStep(opts, rtc, run, i);
      }
    }
    if forall i :: 0 <= i < |run| ==> CopyAdmissible(rtc, run[i].s, run[i].p) {
      forall n | 0 <= n <= |run| ensures CopiedAfter(opts, rtc, run, n) {
        CopiedIf(opts, rtc, run, n);
      }
    }
  }

  lemma RunStep(opts: SelectionOptions, rtc: bool, run: seq<Recalculation>, n: nat)
    requires IsRun(opts, run) && n < |run| && ExactAfter(opts, rtc, run, n)
    ensures ExactAfter(opts, rtc, run, n + 1) <==> Admissible(rtc, run[n].s, run[n].p)
  {
    assert n > 0 ==> Follows(run[n - 1].t, run[n].s);
    MirrorIffAdmissible(opts, rtc, run[n].s, run[n].p, run[n].t, ViewAfter(opts, rtc, run, n));
  }

  lemma {:induction false} AdmissibleRunIsExact(opts: SelectionOptions, rtc: bool, run: seq<Recalculation>, n: nat)
    requires IsRun(opts, run) && n <= |run|
    requires forall i :: 0 <= i < n ==> Admissible(rtc, run[i].s, run[i].p)
    ensures ExactAfter(opts, rtc, run, n)
  {
    if n > 0 {
      AdmissibleRunIsExact(opts, rtc, run, n - 1);
      RunStep(opts, rtc, run, n - 1);
    }
  }

  /** Over every run of recalculations: the neighbour's table is exact, and the local ids are
      nonzero, taken and distinct, after each of them if and only if every path handed in was
      admissible. */
  lemma MirrorOverRuns(opts: SelectionOptions, rtc: bool, run: seq<Recalculation>)
    requires IsRun(opts, run)
    ensures (forall n :: 0 <= n <= |run| ==> ExactAfter(opts, rtc, run, n)) <==>
            (forall i :: 0 <= i < |run| ==> Admissible(rtc, run[i].s, run[i].p))
  {
    if forall n :: 0 <= n <= |run| ==> ExactAfter(opts, rtc, run, n) {
      forall i | 0 <= i < |run| ensures Admissible(rtc, run[i].s, run[i].p) {
        assert ExactAfter(opts, rtc, run, i) && ExactAfter(opts, rtc, run, i + 1);
        RunStep(opts, rtc, run, i);
      }
    }
    if forall i :: 0 <= i < |run| ==> Admissible(rtc, run[i].s, run[i].p) {
      forall n | 0 <= n <= |run| ensures ExactAfter(opts, rtc, run, n) {
        AdmissibleRunIsExact(opts, rtc, run, n);
      }
    }
  }

  // ----- The condition is missed

  /** Two paths of different origin are announced, and the second one arrives with the id that the
      first one has been given. */
  function SameIdTwice(opts: SelectionOptions, p: Path, q: Path): seq<Recalculation> {
    var ids := map[p.nlri := 1, q.nlri := 1];
    var both := if Less(opts, p.route, q.route) then [p, q] else [q, p];
    [Recalculation(State([], map[p.nlri := 0], {0}), p, State([p], map[p.nlri := 1], {0, 1})),
     Recalculation(State([p], ids, {0, 1}), q, State(both, ids, {0, 1}))]
  }

  lemma FirstIsAdded(opts: SelectionOptions, p: Path)
    requires !opts.disableBestPathSelection && !p.isWithdraw
    ensures Step(opts, State([], map[p.nlri := 0], {0}), p, State([p], map[p.nlri := 1], {0, 1}))
  {
    var s := State([], map[p.nlri := 0], {0});
    assert LeastFreeFrom({0}, 1) == 1 && LeastFree({0}) == 1;
    assert AfterReplace(s, p).known == [p];
    assert Recalculated(s, p) == State([p], map[p.nlri := 1], {0, 1});
  }

  lemma SecondIsAdded(opts: SelectionOptions, s: State, p: Path, q: Path, both: seq<Path>)
    requires !opts.disableBestPathSelection && !q.isWithdraw && !p.SameOrigin(q)
    requires s == State([p], map[p.nlri := 1, q.nlri := 1], {0, 1})
    requires both == if Less(opts, p.route, q.route) then [p, q] else [q, p]
    ensures Step(opts, s, q, State(both, s.ids, s.taken))
  {
    SecondIsAppended(s, p, q);
    assert multiset([p, q]) == multiset{p, q} == multiset([q, p]);
    LessIsTotal(opts, p.route, q.route);
  }

  lemma SecondIsAppended(s: State, p: Path, q: Path)
    requires !q.isWithdraw && !p.SameOrigin(q) && s == State([p], map[p.nlri := 1, q.nlri := 1], {0, 1})
    ensures s.Complete() && Recalculated(s, q) == State([p, q], s.ids, s.taken) && s.ids[q.nlri := 1] == s.ids
  {
    assert FirstMatch([p], q) == -1;
    assert AfterReplace(s, q).known == [p, q];
  }

  lemma SameIdIsRun(opts: SelectionOptions, p: Path, q: Path)
    requires !opts.disableBestPathSelection && !p.isWithdraw && !q.isWithdraw
    requires !p.SameOrigin(q) && p.nlri != q.nlri
    ensures IsRun(opts, SameIdTwice(opts, p, q))
  {
    var run := SameIdTwice(opts, p, q);
    var a, b := run[0], run[1];
    FirstIsAdded(opts, p);
    SecondIsAdded(opts, b.s, p, q, b.t.known);
    assert Step(opts, a.s, a.p, a.t) && Step(opts, b.s, b.p, b.t);
    assert Follows(a.t, b.s);
  }

  /** The neighbour then loses one of the two. */
  lemma SameIdLosesPath(opts: SelectionOptions, rtc: bool, p: Path, q: Path)
    requires !opts.disableBestPathSelection && !p.isWithdraw && !q.isWithdraw
    requires !p.SameOrigin(q) && p.nlri != q.nlri
    ensures var run := SameIdTwice(opts, p, q);
            IsRun(opts, run) && CopiedAfter(opts, rtc, run, 1) && !CopiedAfter(opts, rtc, run, 2)
  {
    var run := SameIdTwice(opts, p, q);
    SameIdIsRun(opts, p, q);
    CopyStep(opts, rtc, run, 0);
    assert !CopyAdmissible(rtc, run[1].s, q);
    CopyStep(opts, rtc, run, 1);
  }
}
