/** The best-path decision: the comparison cascade, the conditions under which it is an order,
    and what sorting by it guarantees. */
module BestPath {
  import opened Common
  import opened AsPaths

  const DEFAULT_LOCAL_PREF := 100
  const COMMUNITY_LLGR_STALE := 0xFFFF_0006

  /** The peer a route was learned from. A local route has no address. */
  datatype PeerInfo = PeerInfo(
    asn: nat, id: nat, localAs: nat, localId: nat, address: Option<nat>, confederation: bool)
  {
    predicate Equal(other: PeerInfo) {
      asn == other.asn && id == other.id && localId == other.localId && address == other.address
    }
  }

  /** The path attributes that the decision reads; `other` stands for all the rest. */
  datatype Attributes = Attributes(
    localPref: Option<nat>, asPath: Option<AsPath>, origin: Option<nat>, med: Option<nat>,
    communities: seq<nat>, other: nat)

  datatype Route = Route(source: PeerInfo, attrs: Attributes, timestamp: int, nexthopInvalid: bool) {

    predicate IsLocal() {
      source.address == None
    }

    predicate IsIbgp() {
      source.asn == source.localAs && source.asn != 0
    }

    predicate IsLlgrStale() {
      COMMUNITY_LLGR_STALE in attrs.communities
    }

    function LocalPref(): nat {
      if attrs.localPref.Some? then attrs.localPref.value else DEFAULT_LOCAL_PREF
    }

    function Path(): AsPath {
      if attrs.asPath.Some? then attrs.asPath.value else []
    }

    function Med(): nat {
      if attrs.med.Some? then attrs.med.value else 0
    }

    /** Same source and same attributes: nothing new to tell a neighbour. */
    predicate Equal(other: Route) {
      source.Equal(other.source) && attrs == other.attrs
    }
  }

  datatype SelectionOptions = SelectionOptions(
    alwaysCompareMed: bool, ignoreAsPathLength: bool, externalCompareRouterId: bool,
    disableBestPathSelection: bool)

  /** The outcome of comparing two routes. */
  datatype Verdict = First | Second | Tie

  function Smaller(a: int, b: int): Verdict {
    if a < b then First else if a > b then Second else Tie
  }

  function Prefer(a: bool, b: bool): Verdict {
    if a == b then Tie else if a then First else Second
  }

  function Then(v: Verdict, next: Verdict): Verdict {
    if v == Tie then next else v
  }

  function CompareByLocalOrigin(a: Route, b: Route): Verdict {
    if a.source.Equal(b.source) then Tie
    else if a.IsLocal() then First
    else if b.IsLocal() then Second
    else Tie
  }

  function CompareByAsPath(opts: SelectionOptions, a: Route, b: Route): Verdict {
    if opts.ignoreAsPathLength then Tie else Smaller(AsPathLen(a.Path()), AsPathLen(b.Path()))
  }

  function CompareByOrigin(a: Route, b: Route): Verdict {
    if a.attrs.origin == None || b.attrs.origin == None then Tie
    else Smaller(a.attrs.origin.value, b.attrs.origin.value)
  }

  function CompareByMed(opts: SelectionOptions, a: Route, b: Route): Verdict {
    var isInternal := AsPathLen(a.Path()) == 0 && AsPathLen(b.Path()) == 0;
    var isSameAs := FirstAs(a.Path()) != 0 && FirstAs(a.Path()) == FirstAs(b.Path());
    if opts.alwaysCompareMed || isInternal || isSameAs then Smaller(a.Med(), b.Med()) else Tie
  }

  function CompareByAsNumber(a: Route, b: Route): Verdict {
    var ibgpA := a.source.confederation || a.IsIbgp();
    var ibgpB := b.source.confederation || b.IsIbgp();
    Prefer(!ibgpA, !ibgpB)
  }

  function CompareByAge(opts: SelectionOptions, a: Route, b: Route): Verdict {
    if !a.IsIbgp() && !b.IsIbgp() && !opts.externalCompareRouterId then Smaller(a.timestamp, b.timestamp)
    else Tie
  }

  /** The error the source logs when only one route is internal is a tie. */
  function CompareByRouterId(opts: SelectionOptions, a: Route, b: Route): Verdict {
    if a.IsLocal() && b.IsLocal() then Tie
    else if !opts.externalCompareRouterId && !a.IsIbgp() && !b.IsIbgp() then Tie
    else if !opts.externalCompareRouterId && a.IsIbgp() != b.IsIbgp() then Tie
    else Smaller(a.source.id, b.source.id)
  }

  /** The cascade. Weight and IGP cost never decide, as in the source. */
  function Compare(opts: SelectionOptions, a: Route, b: Route): Verdict {
    Then(Prefer(!a.IsLlgrStale(), !b.IsLlgrStale()),
    Then(Prefer(!a.nexthopInvalid, !b.nexthopInvalid),
    Then(Smaller(b.LocalPref(), a.LocalPref()),
    Then(CompareByLocalOrigin(a, b),
    Then(CompareByAsPath(opts, a, b),
    Then(CompareByOrigin(a, b),
    Then(CompareByMed(opts, a, b),
    Then(CompareByAsNumber(a, b),
    Then(CompareByAge(opts, a, b),
         CompareByRouterId(opts, a, b))))))))))
  }

  /** The predicate handed to the sort: true unless the second route is strictly better. */
  predicate Less(opts: SelectionOptions, a: Route, b: Route) {
    Compare(opts, a, b) != Second
  }

  /** No two routes are each worse than the other. */
  lemma LessIsTotal(opts: SelectionOptions, a: Route, b: Route)
    ensures Less(opts, a, b) || Less(opts, b, a)
  {
  }

  // ----- The order the cascade amounts to

  datatype Key = Key(
    stale: int, unreachable: int, localPref: int, foreign: int, asPathLen: int, origin: int,
    med: int, internal: int, last: int)

  function Flag(b: bool): int {
    if b then 1 else 0
  }

  function KeyOf(opts: SelectionOptions, r: Route): Key {
    Key(Flag(r.IsLlgrStale()),
        Flag(r.nexthopInvalid),
        0 - r.LocalPref(),
        Flag(!r.IsLocal()),
        if opts.ignoreAsPathLength then 0 else AsPathLen(r.Path()),
        if r.attrs.origin.Some? then r.attrs.origin.value else 0,
        r.Med(),
        Flag(r.IsIbgp()),
        if opts.externalCompareRouterId || r.IsIbgp() then (if r.IsLocal() then 0 else r.source.id)
        else r.timestamp)
  }

  /** Lexicographic comparison of two keys. */
  function CompareKeys(a: Key, b: Key): Verdict {
    Then(Smaller(a.stale, b.stale),
    Then(Smaller(a.unreachable, b.unreachable),
    Then(Smaller(a.localPref, b.localPref),
    Then(Smaller(a.foreign, b.foreign),
    Then(Smaller(a.asPathLen, b.asPathLen),
    Then(Smaller(a.origin, b.origin),
    Then(Smaller(a.med, b.med),
    Then(Smaller(a.internal, b.internal),
         Smaller(a.last, b.last)))))))))
  }

  /** The conditions under which two routes compare by their keys: MEDs are always compared,
      both carry ORIGIN, neither peer is a confederation member, and local routes share one source. */
  predicate Comparable(opts: SelectionOptions, a: Route, b: Route) {
    && opts.alwaysCompareMed
    && a.attrs.origin.Some? && b.attrs.origin.Some?
    && !a.source.confederation && !b.source.confederation
    && (a.IsLocal() && b.IsLocal() ==> a.source.Equal(b.source))
  }

  /** Under those conditions the twelve steps are exactly one lexicographic comparison. */
  lemma CascadeIsLexicographic(opts: SelectionOptions, a: Route, b: Route)
    requires Comparable(opts, a, b)
    ensures Compare(opts, a, b) == CompareKeys(KeyOf(opts, a), KeyOf(opts, b))
  {
  }

  /** Comparing keys is antisymmetric, transitive and decided by every component. */
  lemma KeysAreOrdered(a: Key, b: Key, c: Key)
    ensures CompareKeys(a, b) == Second <==> CompareKeys(b, a) == First
    ensures CompareKeys(a, b) == Tie <==> a == b
    ensures CompareKeys(a, b) != Second && CompareKeys(b, c) != Second ==> CompareKeys(a, c) != Second
  {
  }

  lemma CascadeIsTotalPreorder(opts: SelectionOptions, a: Route, b: Route, c: Route)
    requires Comparable(opts, a, b) && Comparable(opts, b, c) && Comparable(opts, a, c)
    ensures Less(opts, a, b) || Less(opts, b, a)
    ensures Less(opts, a, b) && Less(opts, b, c) ==> Less(opts, a, c)
    ensures Less(opts, a, b) && Less(opts, b, a) <==> KeyOf(opts, a) == KeyOf(opts, b)
  {
    CascadeIsLexicographic(opts, a, b);
    CascadeIsLexicographic(opts, b, a);
    CascadeIsLexicographic(opts, b, c);
    CascadeIsLexicographic(opts, a, c);
    var ka, kb, kc := KeyOf(opts, a), KeyOf(opts, b), KeyOf(opts, c);
    KeysAreOrdered(ka, kb, kc);
    KeysAreOrdered(kb, ka, kc);
  }

  // ----- Lists sorted by the cascade

  /** Every path is at least as good as the one after it: all that any sort by `Less` can promise. */
  predicate Chained(opts: SelectionOptions, rs: seq<Route>) {
    forall i {:trigger rs[i]} :: 0 < i < |rs| ==> Less(opts, rs[i - 1], rs[i])
  }

  predicate Ordered(opts: SelectionOptions, rs: seq<Route>) {
    forall i, j :: 0 <= i < j < |rs| ==> Less(opts, rs[i], rs[j])
  }

  predicate Uniform(opts: SelectionOptions, rs: seq<Route>) {
    forall i, j :: 0 <= i < |rs| && 0 <= j < |rs| ==> Comparable(opts, rs[i], rs[j])
  }

  /** A chain of a relation that is transitive on the list reaches from any element to any later one. */
  lemma {:induction false} ChainReaches<T>(le: (T, T) -> bool, s: seq<T>, i: nat, j: nat)
    requires forall a, b, c :: a in s && b in s && c in s && le(a, b) && le(b, c) ==> le(a, c)
    requires forall k {:trigger s[k]} :: 0 < k < |s| ==> le(s[k - 1], s[k])
    requires i < j < |s|
    ensures le(s[i], s[j])
  {
    if i + 1 < j {
      ChainReaches(le, s, i, j - 1);
      assert s[i] in s && s[j - 1] in s && s[j] in s;
    }
    assert le(s[j - 1], s[j]);
  }

  /** A sorted list of comparable routes is ordered throughout, and none beats its head. */
  lemma ChainedIsOrdered(opts: SelectionOptions, rs: seq<Route>)
    requires Uniform(opts, rs) && Chained(opts, rs)
    ensures Ordered(opts, rs)
    ensures forall i :: 0 <= i < |rs| ==> Compare(opts, rs[i], rs[0]) != First
  {
    var le := (a: Route, b: Route) => Less(opts, a, b);
    forall a, b, c | a in rs && b in rs && c in rs && le(a, b) && le(b, c)
      ensures le(a, c)
    {
      CascadeIsTotalPreorder(opts, a, b, c);
    }
    forall i, j | 0 <= i < j < |rs| ensures Less(opts, rs[i], rs[j]) {
      ChainReaches(le, rs, i, j);
    }
    forall i | 0 <= i < |rs| ensures Compare(opts, rs[i], rs[0]) != First {
      CascadeIsLexicographic(opts, rs[i], rs[0]);
      CascadeIsLexicographic(opts, rs[0], rs[i]);
      KeysAreOrdered(KeyOf(opts, rs[0]), KeyOf(opts, rs[i]), KeyOf(opts, rs[0]));
    }
  }

  /** Whatever order the routes arrived in, the winner belongs to the same preference class. */
  lemma WinnerDoesNotDependOnArrival(opts: SelectionOptions, xs: seq<Route>, ys: seq<Route>)
    requires xs != [] && multiset(xs) == multiset(ys)
    requires Uniform(opts, xs) && Chained(opts, xs) && Chained(opts, ys)
    ensures ys != [] && KeyOf(opts, xs[0]) == KeyOf(opts, ys[0])
  {
    assert xs[0] in multiset(xs);
    assert ys != [];
    assert ys[0] in multiset(ys);
    assert forall k :: 0 <= k < |ys| ==> ys[k] in multiset(ys);
    assert forall k :: 0 <= k < |ys| ==> ys[k] in xs;
    assert Uniform(opts, ys);
    var i :| 0 <= i < |xs| && xs[i] == ys[0];
    var j :| 0 <= j < |ys| && ys[j] == xs[0];
    ChainedIsOrdered(opts, xs);
    ChainedIsOrdered(opts, ys);
    CascadeIsTotalPreorder(opts, xs[0], ys[0], xs[0]);
  }

  // ----- None of the four conditions can be dropped

  /** The conditions on the two routes other than on the options and on confederations. */
  predicate OnSameTerms(a: Route, b: Route) {
    a.attrs.origin.Some? && b.attrs.origin.Some? && (a.IsLocal() && b.IsLocal() ==> a.source.Equal(b.source))
  }

  /** All three routes meet the conditions, two by two, and maybe none is from a confederation member. */
  predicate Contenders(a: Route, b: Route, c: Route, confederations: bool) {
    && OnSameTerms(a, b) && OnSameTerms(b, c) && OnSameTerms(a, c)
    && (confederations || !(a.source.confederation || b.source.confederation || c.source.confederation))
  }

  predicate Transitive(opts: SelectionOptions, a: Route, b: Route, c: Route) {
    Less(opts, a, b) && Less(opts, b, c) ==> Less(opts, a, c)
  }

  ghost predicate AlwaysTransitive(opts: SelectionOptions, confederations: bool) {
    forall a, b, c :: Contenders(a, b, c, confederations) ==> Transitive(opts, a, b, c)
  }

  function Plain(source: PeerInfo, asn: nat, med: nat, timestamp: int): Route {
    Route(source, Attributes(None, Some([Segment(AsSequence, [asn])]), Some(0), Some(med), [], 0), timestamp, false)
  }

  function Peer(asn: nat, id: nat): PeerInfo {
    PeerInfo(asn, id, 9, 9, Some(id), false)
  }

  lemma PlainLength(source: PeerInfo, asn: nat, med: nat, timestamp: int)
    ensures AsPathLen(Plain(source, asn, med, timestamp).Path()) == 1
  {
    var path := Plain(source, asn, med, timestamp).Path();
    assert path[1..] == [];
  }

  /** MEDs compared only between routes of one neighbour AS: whatever the other options, three routes
      beat each other in a circle, so the best one depends on the order of arrival. */
  lemma MedCycle(opts: SelectionOptions) returns (a: Route, b: Route, c: Route)
    requires !opts.alwaysCompareMed
    ensures Contenders(a, b, c, false) && Contenders(a, c, b, false) && Contenders(a, c, b, true)
    ensures Compare(opts, a, c) == First && Compare(opts, c, b) == First && Compare(opts, b, a) == First
    ensures !Transitive(opts, a, c, b)
  {
    a, b, c := Plain(Peer(1, 1), 1, 10, 1), Plain(Peer(1, 3), 1, 5, 3), Plain(Peer(2, 2), 2, 0, 2);
    PlainLength(Peer(1, 1), 1, 10, 1);
    PlainLength(Peer(1, 3), 1, 5, 3);
    PlainLength(Peer(2, 2), 2, 0, 2);
  }

  /** A confederation member counts as internal at one step and as external at the next, unless
      router ids are compared for external peers too. */
  lemma ConfederationNotTransitive(opts: SelectionOptions) returns (a: Route, b: Route, c: Route)
    requires !opts.externalCompareRouterId
    ensures Contenders(c, b, a, true) && !Transitive(opts, c, b, a)
  {
    var member := PeerInfo(5, 1, 9, 9, Some(1), true);
    a, b, c := Plain(member, 1, 1, 1), Plain(Peer(9, 2), 1, 1, 1), Plain(member, 1, 1, 2);
    PlainLength(member, 1, 1, 1);
    PlainLength(Peer(9, 2), 1, 1, 1);
    PlainLength(member, 1, 1, 2);
  }

  /** Among routes that carry ORIGIN, have one local source and come from no confederation member,
      the comparison is transitive exactly if MEDs are always compared. */
  lemma TransitiveIff(opts: SelectionOptions)
    ensures AlwaysTransitive(opts, false) <==> opts.alwaysCompareMed
  {
    if opts.alwaysCompareMed {
      forall a, b, c | Contenders(a, b, c, false)
        ensures Transitive(opts, a, b, c)
      {
        MedMakesTransitive(opts, a, b, c);
      }
    } else {
      var a, b, c := MedCycle(opts);
    }
  }

  lemma MedMakesTransitive(opts: SelectionOptions, a: Route, b: Route, c: Route)
    requires opts.alwaysCompareMed && Contenders(a, b, c, false)
    ensures Transitive(opts, a, b, c)
  {
    assert Comparable(opts, a, b) && Comparable(opts, b, c) && Comparable(opts, a, c);
    CascadeIsTotalPreorder(opts, a, b, c);
  }

  /** The key when router ids are compared for external peers too. */
  function KeyByRouterId(opts: SelectionOptions, r: Route): Key {
    KeyOf(opts, r).(internal := Flag(r.source.confederation || r.IsIbgp()),
                    last := if r.IsLocal() then 0 else r.source.id)
  }

  lemma CascadeByRouterId(opts: SelectionOptions, a: Route, b: Route)
    requires opts.alwaysCompareMed && opts.externalCompareRouterId && OnSameTerms(a, b)
    ensures Compare(opts, a, b) == CompareKeys(KeyByRouterId(opts, a), KeyByRouterId(opts, b))
  {
  }

  /** With confederation members among them it is so exactly if, besides, router ids are compared for
      external peers too. */
  lemma TransitiveWithConfederationsIff(opts: SelectionOptions)
    ensures AlwaysTransitive(opts, true) <==> opts.alwaysCompareMed && opts.externalCompareRouterId
  {
    if !opts.alwaysCompareMed {
      var a, b, c := MedCycle(opts);
    } else if !opts.externalCompareRouterId {
      var a, b, c := ConfederationNotTransitive(opts);
    } else {
      forall a, b, c | Contenders(a, b, c, true)
        ensures Transitive(opts, a, b, c)
      {
        RouterIdsMakeTransitive(opts, a, b, c);
      }
    }
  }

  lemma RouterIdsMakeTransitive(opts: SelectionOptions, a: Route, b: Route, c: Route)
    requires opts.alwaysCompareMed && opts.externalCompareRouterId && Contenders(a, b, c, true)
    ensures Transitive(opts, a, b, c)
  {
    CascadeByRouterId(opts, a, b);
    CascadeByRouterId(opts, b, c);
    CascadeByRouterId(opts, a, c);
    KeysAreOrdered(KeyByRouterId(opts, a), KeyByRouterId(opts, b), KeyByRouterId(opts, c));
  }

  /** A route without ORIGIN skips that step, which closes a circle under every option. */
  lemma MissingOriginCycle(opts: SelectionOptions) returns (a: Route, b: Route, c: Route)
    ensures b.attrs.origin == None && OnSameTerms(a, c) && !a.IsLocal() && !b.IsLocal() && !c.IsLocal()
    ensures !(a.source.confederation || b.source.confederation || c.source.confederation)
    ensures Compare(opts, a, b) == First && Compare(opts, b, c) == First && Compare(opts, c, a) == First
  {
    a, b, c := Plain(Peer(1, 1), 1, 1, 1), Plain(Peer(2, 2), 2, 2, 2), Plain(Peer(3, 3), 3, 3, 3);
    PlainLength(Peer(1, 1), 1, 1, 1);
    PlainLength(Peer(2, 2), 2, 2, 2);
    PlainLength(Peer(3, 3), 3, 3, 3);
    a := a.(attrs := a.attrs.(origin := Some(2)));
    b := b.(attrs := b.attrs.(origin := None));
    c := c.(attrs := c.attrs.(origin := Some(1)));
  }

  /** With two local sources each local route is preferred to the other, which hides the later steps,
      under every option. */
  lemma TwoLocalSourcesNotTransitive(opts: SelectionOptions) returns (a: Route, b: Route, c: Route)
    ensures OnSameTerms(a, c) && a.IsLocal() && b.IsLocal() && c.IsLocal()
    ensures a.attrs.origin.Some? && b.attrs.origin.Some? && c.attrs.origin.Some?
    ensures !(a.source.confederation || b.source.confederation || c.source.confederation)
    ensures !Transitive(opts, c, b, a)
  {
    var s1, s2 := PeerInfo(0, 1, 9, 9, None, false), PeerInfo(0, 2, 9, 9, None, false);
    a, b, c := Plain(s1, 1, 1, 1), Plain(s2, 1, 1, 1), Plain(s1, 1, 2, 1);
    PlainLength(s1, 1, 1, 1);
    PlainLength(s2, 1, 1, 1);
    PlainLength(s1, 1, 2, 1);
  }
}
