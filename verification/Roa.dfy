/** The table of route origin authorisations and the validation of a path's origin against it. */
module RoaTables {
  import opened Common
  import opened AsPaths

  /** An address prefix, as the bits that it fixes. It covers every prefix that extends it. */
  type Prefix = seq<bool>

  /** What an authorisation is filed under: the cache server's address with its port. A bare
      address is the name of no server. */
  datatype Source = HostPort(address: string, port: string) | Bare(address: string)

  datatype Roa = Roa(ip6: bool, network: Prefix, maxLen: nat, asn: nat, src: Source) {
    /** Compares two authorisations of one network. */
    predicate Equal(that: Roa) {
      maxLen == that.maxLen && src == that.src && asn == that.asn
    }

    function Tree(): Family {
      if ip6 then IPv6Unicast else IPv4Unicast
    }
  }

  predicate Less(a: Roa, b: Roa) {
    a.maxLen < b.maxLen || (a.maxLen == b.maxLen && a.asn < b.asn)
  }

  /** One bucket per network. A bucket may have become empty. */
  type Tree = map<Prefix, seq<Roa>>

  predicate Sorted(s: seq<Roa>) {
    forall i, j :: 0 <= i < j < |s| ==> !Less(s[j], s[i])
  }

  predicate WellPlaced(s: seq<Roa>, f: Family, network: Prefix) {
    (forall r :: r in s ==> r.Tree() == f && r.network == network) && NoDuplicates(s) && Sorted(s)
  }

  ghost predicate WellFormed(tree: Tree, f: Family) {
    forall n :: n in tree ==> WellPlaced(tree[n], f, n)
  }

  function InTree(tree: Tree): set<Roa> {
    set n, r | n in tree && r in tree[n] :: r
  }

  function InTrees(trees: map<Family, Tree>): set<Roa> {
    set f, r | f in trees && r in InTree(trees[f]) :: r
  }

  // ----- What edits do to the stored set

  datatype Edit = Added(roa: Roa) | Deleted(roa: Roa) | DeletedAll(src: Source) {
    predicate Concerns(r: Roa) {
      match this
      case Added(x) => x == r
      case Deleted(x) => x == r
      case DeletedAll(s) => r.src == s
    }
  }

  function Edited(stored: set<Roa>, e: Edit): set<Roa> {
    match e
    case Added(r) => stored + {r}
    case Deleted(r) => stored - {r}
    case DeletedAll(s) => set r | r in stored && r.src != s
  }

  function EditedByAll(stored: set<Roa>, es: seq<Edit>): set<Roa> {
    if es == [] then stored else Edited(EditedByAll(stored, es[..|es| - 1]), es[|es| - 1])
  }

  /** After any run, an authorisation is stored exactly if the last edit that concerns it added it,
      or none concerns it and it was there. */
  lemma {:induction false} StoredIffLastEditAdded(stored: set<Roa>, es: seq<Edit>, r: Roa)
    ensures r in EditedByAll(stored, es) <==>
              (exists i :: 0 <= i < |es| && es[i] == Added(r) && forall j :: i < j < |es| ==> !es[j].Concerns(r)) ||
              (r in stored && forall j :: 0 <= j < |es| ==> !es[j].Concerns(r))
  {
    if es != [] {
      var n := |es| - 1;
      var front := es[..n];
      StoredIffLastEditAdded(stored, front, r);
      if es[n].Concerns(r) {
        assert es[n] == Added(r) <==> r in EditedByAll(stored, es);
      } else {
        assert r in EditedByAll(stored, es) <==> r in EditedByAll(stored, front);
        assert forall j :: 0 <= j < n ==> front[j] == es[j];
        if i :| 0 <= i < n && front[i] == Added(r) && forall j :: i < j < n ==> !front[j].Concerns(r) {
          assert forall j :: i < j < |es| ==> !es[j].Concerns(r);
        }
      }
    }
  }

  // ----- Buckets

  lemma {:induction false} AdjacentIsSorted(s: seq<Roa>)
    requires forall k {:trigger s[k]} :: 0 < k < |s| ==> InOrder(Less, s[k - 1], s[k])
    ensures Sorted(s)
  {
    forall i, j | 0 <= i < j < |s|
      ensures !Less(s[j], s[i])
    {
      NeverLess(s, i, j);
    }
  }

  lemma {:induction false} NeverLess(s: seq<Roa>, i: nat, j: nat)
    requires forall k {:trigger s[k]} :: 0 < k < |s| ==> InOrder(Less, s[k - 1], s[k])
    requires i < j < |s|
    ensures !Less(s[j], s[i])
  {
    if i < j - 1 {
      NeverLess(s, i, j - 1);
    }
    var last := s[j];
  }

  /** The bucket with the authorisation added, unless the same one is there. */
  method AddTo(entries: seq<Roa>, roa: Roa) returns (r: seq<Roa>)
    requires WellPlaced(entries, roa.Tree(), roa.network)
    ensures WellPlaced(r, roa.Tree(), roa.network)
    ensures forall x :: x in r <==> x in entries || x == roa
  {
    for i := 0 to |entries|
      invariant roa !in entries[..i]
    {
      assert entries[i] in entries;
      if entries[i].Equal(roa) {
        return entries;
      }
    }
    assert entries[..|entries|] == entries;
    var more := entries + [roa];
    r := SortSlice(more, Less);
    NoDuplicatesIn(more, r);
    SameMembers(more, r);
    AdjacentIsSorted(r);
  }

  method DeleteFrom(entries: seq<Roa>, roa: Roa) returns (r: seq<Roa>)
    requires WellPlaced(entries, roa.Tree(), roa.network)
    ensures WellPlaced(r, roa.Tree(), roa.network)
    ensures forall x :: x in r <==> x in entries && x != roa
  {
    for i := 0 to |entries|
      invariant roa !in entries[..i]
    {
      assert entries[i] in entries;
      if entries[i].Equal(roa) {
        return entries[..i] + entries[i + 1..];
      }
    }
    assert entries[..|entries|] == entries;
    return entries;
  }

  /** The entries from other sources, in order. */
  method NotFrom(entries: seq<Roa>, src: Source, ghost f: Family, ghost network: Prefix) returns (r: seq<Roa>)
    requires WellPlaced(entries, f, network)
    ensures WellPlaced(r, f, network)
    ensures forall x :: x in r <==> x in entries && x.src != src
  {
    r := [];
    for i := 0 to |entries|
      invariant WellPlaced(r, f, network)
      invariant forall x :: x in r <==> x in entries[..i] && x.src != src
      invariant forall x :: x in r ==> forall j :: i <= j < |entries| ==> x != entries[j] && !Less(entries[j], x)
    {
      assert entries[i] in entries;
      if entries[i].src != src {
        r := r + [entries[i]];
      }
    }
    assert entries[..|entries|] == entries;
  }

  /** The tree without the entries of one source and without the buckets that leaves empty. */
  method DeleteAllFrom(tree: Tree, src: Source, ghost f: Family) returns (r: Tree)
    requires WellFormed(tree, f)
    ensures WellFormed(r, f)
    ensures forall n :: n in r ==> r[n] != []
    ensures InTree(r) == set x | x in InTree(tree) && x.src != src
  {
    r := tree;
    var todo := tree.Keys;
    var deleteNetworks: set<Prefix> := {};
    while todo != {}
      invariant todo <= tree.Keys == r.Keys && deleteNetworks <= tree.Keys - todo
      invariant WellFormed(r, f)
      invariant forall n :: n in todo ==> r[n] == tree[n]
      invariant forall n :: n in tree.Keys - todo - deleteNetworks ==>
                  r[n] != [] && forall x :: x in r[n] <==> x in tree[n] && x.src != src
      invariant forall n, x :: n in deleteNetworks && x in tree[n] ==> x.src == src
    {
      var n :| n in todo;
      var newEntries := NotFrom(r[n], src, f, n);
      if |newEntries| > 0 {
        r := r[n := newEntries];
      } else {
        deleteNetworks := deleteNetworks + {n};
      }
      todo := todo - {n};
    }
    r := r - deleteNetworks;
    PurgedTree(tree, r, src);
  }

  lemma PurgedTree(tree: Tree, r: Tree, src: Source)
    requires r.Keys <= tree.Keys
    requires forall n :: n in r ==> forall x :: x in r[n] <==> x in tree[n] && x.src != src
    requires forall n, x :: n in tree.Keys - r.Keys && x in tree[n] ==> x.src == src
    ensures InTree(r) == set x | x in InTree(tree) && x.src != src
  {
    forall x
      ensures x in InTree(r) <==> x in InTree(tree) && x.src != src
    {
      if x in InTree(tree) && x.src != src {
        var n :| n in tree && x in tree[n];
        assert n in r && x in r[n];
      }
    }
  }

  // ----- Origin validation

  datatype Status = Valid | Invalid | NotFound

  datatype Reason = NoReason | WrongAs | TooLong

  datatype Validation = Validation(
    status: Status, reason: Reason, matched: seq<Roa>, unmatchedLength: seq<Roa>, unmatchedAs: seq<Roa>)

  datatype OriginPath = OriginPath(
    family: Family, prefix: Prefix, isWithdraw: bool, isEor: bool, ownAs: nat, asPath: Option<AsPath>)

  /** The AS that the code takes for the origin; none if the last segment is an AS_SET. */
  function OriginAs(p: OriginPath): Option<nat> {
    if p.asPath.None? || p.asPath.value == [] then Some(p.ownAs)
    else
      var last := p.asPath.value[|p.asPath.value| - 1];
      match last.typ
      case AsSequence => Some(if last.asns == [] then p.ownAs else last.asns[|last.asns| - 1])
      case AsSet => None
      case _ => Some(p.ownAs)
  }

  function Covering(stored: set<Roa>, p: OriginPath): set<Roa> {
    set r | r in stored && r.Tree() == p.family && r.network <= p.prefix
  }

  predicate Matches(r: Roa, p: OriginPath, asn: nat) {
    |p.prefix| <= r.maxLen && r.asn != 0 && r.asn == asn
  }

  /** The validation state as section 2 of RFC 6811 defines it. */
  function Rfc6811(stored: set<Roa>, p: OriginPath): Status {
    if Covering(stored, p) == {} then NotFound
    else if exists r :: r in Covering(stored, p) && OriginAs(p).Some? && Matches(r, p, OriginAs(p).value) then Valid
    else Invalid
  }

  /** The list holds each element of the set once. */
  ghost predicate Lists(l: seq<Roa>, s: set<Roa>) {
    NoDuplicates(l) && forall r :: r in l <==> r in s
  }

  function MatchedOf(covering: set<Roa>, p: OriginPath, asn: nat): set<Roa> {
    set r | r in covering && Matches(r, p, asn)
  }

  function WrongAsOf(covering: set<Roa>, p: OriginPath, asn: nat): set<Roa> {
    set r | r in covering && |p.prefix| <= r.maxLen && !Matches(r, p, asn)
  }

  function TooLongOf(covering: set<Roa>, p: OriginPath): set<Roa> {
    set r | r in covering && |p.prefix| > r.maxLen
  }

  /** The three lists divide the covering authorisations, and the status is the one of the first
      list that is not empty. */
  ghost predicate Divides(v: Validation, covering: set<Roa>, p: OriginPath, asn: nat) {
    Lists(v.matched, MatchedOf(covering, p, asn)) &&
    Lists(v.unmatchedAs, WrongAsOf(covering, p, asn)) &&
    Lists(v.unmatchedLength, TooLongOf(covering, p))
  }

  /** What validating reports. With an AS_SET at the end nothing is looked up. */
  ghost predicate Reports(v: Validation, stored: set<Roa>, p: OriginPath) {
    match OriginAs(p)
    case None => v == Validation(NotFound, NoReason, [], [], [])
    case Some(asn) =>
      Divides(v, Covering(stored, p), p, asn) &&
      (v.status == Valid <==> v.matched != []) &&
      (v.status == Invalid <==> v.matched == [] && v.unmatchedAs + v.unmatchedLength != []) &&
      (v.reason == WrongAs <==> v.matched == [] && v.unmatchedAs != []) &&
      (v.reason == TooLong <==> v.matched == [] && v.unmatchedAs == [] && v.unmatchedLength != [])
  }

  /** The reported status is the standard's, except for a covered route whose AS_PATH ends in an
      AS_SET: the standard calls that one invalid, the code not found. */
  lemma StatusIsStandardIffNotCoveredSet(v: Validation, stored: set<Roa>, p: OriginPath)
    requires Reports(v, stored, p)
    ensures v.status == Rfc6811(stored, p) <==> !(OriginAs(p).None? && Covering(stored, p) != {})
  {
    var covering := Covering(stored, p);
    if OriginAs(p).Some? {
      var asn := OriginAs(p).value;
      assert v.matched != [] ==> v.matched[0] in v.matched;
      assert v.unmatchedAs != [] ==> v.unmatchedAs[0] in v.unmatchedAs;
      assert v.unmatchedLength != [] ==> v.unmatchedLength[0] in v.unmatchedLength;
      assert forall r :: r in covering ==> r in v.matched || r in v.unmatchedAs || r in v.unmatchedLength;
      assert forall r :: r in v.matched <==> r in covering && Matches(r, p, asn);
    }
  }

  /** The validation once `r` has been looked at too. */
  function Classified(v: Validation, r: Roa, p: OriginPath, asn: nat): Validation {
    if |p.prefix| <= r.maxLen then
      if r.asn != 0 && r.asn == asn then v.(matched := v.matched + [r])
      else v.(unmatchedAs := v.unmatchedAs + [r])
    else v.(unmatchedLength := v.unmatchedLength + [r])
  }

  lemma DividesOneMore(v: Validation, seen: set<Roa>, r: Roa, p: OriginPath, asn: nat)
    requires Divides(v, seen, p, asn) && r !in seen
    ensures Divides(Classified(v, r, p, asn), seen + {r}, p, asn)
  {
    if |p.prefix| > r.maxLen {
      assert TooLongOf(seen + {r}, p) == TooLongOf(seen, p) + {r};
      ListsOneMore(v.unmatchedLength, TooLongOf(seen, p), r);
    } else {
      assert TooLongOf(seen + {r}, p) == TooLongOf(seen, p);
    }
    if Matches(r, p, asn) {
      assert MatchedOf(seen + {r}, p, asn) == MatchedOf(seen, p, asn) + {r};
      ListsOneMore(v.matched, MatchedOf(seen, p, asn), r);
    } else {
      assert MatchedOf(seen + {r}, p, asn) == MatchedOf(seen, p, asn);
    }
    if |p.prefix| <= r.maxLen && !Matches(r, p, asn) {
      assert WrongAsOf(seen + {r}, p, asn) == WrongAsOf(seen, p, asn) + {r};
      ListsOneMore(v.unmatchedAs, WrongAsOf(seen, p, asn), r);
    } else {
      assert WrongAsOf(seen + {r}, p, asn) == WrongAsOf(seen, p, asn);
    }
  }

  lemma ListsOneMore(l: seq<Roa>, s: set<Roa>, r: Roa)
    requires Lists(l, s) && r !in s
    ensures Lists(l + [r], s + {r})
  {
    assert forall x :: x in l + [r] <==> x in l || x == r;
  }

  function SetOf(s: seq<Roa>): set<Roa> {
    set r | r in s
  }

  /** Looks at every entry of a bucket. */
  method ClassifyBucket(v: Validation, entries: seq<Roa>, p: OriginPath, asn: nat, ghost seen: set<Roa>)
    returns (w: Validation)
    requires Divides(v, seen, p, asn) && NoDuplicates(entries) && SetOf(entries) !! seen
    ensures Divides(w, seen + SetOf(entries), p, asn)
    ensures w.status == v.status && w.reason == v.reason
  {
    w := v;
    assert seen + SetOf(entries[..0]) == seen;
    for i := 0 to |entries|
      invariant Divides(w, seen + SetOf(entries[..i]), p, asn)
      invariant w.status == v.status && w.reason == v.reason
    {
      assert entries[i] in entries && entries[i] !in SetOf(entries[..i]);
      DividesOneMore(w, seen + SetOf(entries[..i]), entries[i], p, asn);
      assert SetOf(entries[..i + 1]) == SetOf(entries[..i]) + {entries[i]};
      assert seen + SetOf(entries[..i + 1]) == seen + SetOf(entries[..i]) + {entries[i]};
      w := Classified(w, entries[i], p, asn);
    }
    assert entries[..|entries|] == entries;
  }

  /** The entries of the buckets of some networks. */
  function InNetworks(tree: Tree, ns: set<Prefix>): set<Roa> {
    set n, r | n in ns && n in tree && r in tree[n] :: r
  }

  /** Walks the buckets that cover the prefix, in an arbitrary order. */
  method WalkMatch(tree: Tree, p: OriginPath, asn: nat) returns (v: Validation)
    requires WellFormed(tree, p.family)
    ensures Divides(v, (set r | r in InTree(tree) && r.network <= p.prefix), p, asn)
    ensures v.status == NotFound && v.reason == NoReason
  {
    v := Validation(NotFound, NoReason, [], [], []);
    var todo := set n | n in tree && n <= p.prefix;
    ghost var covering, done: set<Prefix> := todo, {};
    while todo != {}
      invariant done + todo == covering && done !! todo
      invariant Divides(v, InNetworks(tree, done), p, asn)
      invariant v.status == NotFound && v.reason == NoReason
    {
      var n :| n in todo;
      assert WellPlaced(tree[n], p.family, n);
      assert SetOf(tree[n]) !! InNetworks(tree, done);
      v := ClassifyBucket(v, tree[n], p, asn, InNetworks(tree, done));
      assert InNetworks(tree, done + {n}) == InNetworks(tree, done) + SetOf(tree[n]);
      todo, done := todo - {n}, done + {n};
    }
    assert InNetworks(tree, covering) == set r | r in InTree(tree) && r.network <= p.prefix;
  }

  // ----- Counting

  /** A map from sources to counters reads as zero where nothing was counted. */
  function Counted(m: map<Source, nat>, src: Source): nat {
    if src in m then m[src] else 0
  }

  function OfSource(rs: set<Roa>, src: Source): set<Roa> {
    set r | r in rs && r.src == src
  }

  function NetworksOf(rs: set<Roa>): set<Prefix> {
    set r | r in rs :: r.network
  }

  /** How many entries each source has in the bucket; sources without any are not listed. */
  method CountBucket(entries: seq<Roa>) returns (m: map<Source, nat>)
    requires NoDuplicates(entries)
    ensures forall src :: Counted(m, src) == |OfSource(SetOf(entries), src)|
    ensures forall src :: src in m ==> m[src] > 0
  {
    m := map[];
    for i := 0 to |entries|
      invariant forall src :: Counted(m, src) == |OfSource(SetOf(entries[..i]), src)|
      invariant forall src :: src in m ==> m[src] > 0
    {
      var r := entries[i];
      assert SetOf(entries[..i + 1]) == SetOf(entries[..i]) + {r};
      OneMoreOfSource(SetOf(entries[..i]), r);
      m := m[r.src := Counted(m, r.src) + 1];
    }
    assert entries[..|entries|] == entries;
  }

  lemma OneMoreOfSource(rs: set<Roa>, r: Roa)
    requires r !in rs
    ensures forall src :: |OfSource(rs + {r}, src)| == |OfSource(rs, src)| + if src == r.src then 1 else 0
  {
    assert OfSource(rs + {r}, r.src) == OfSource(rs, r.src) + {r};
    forall src | src != r.src
      ensures |OfSource(rs + {r}, src)| == |OfSource(rs, src)|
    {
      assert OfSource(rs + {r}, src) == OfSource(rs, src);
    }
  }

  /** Both counters of every source agree with a set of entries. */
  ghost predicate Agree(records: map<Source, nat>, prefixes: map<Source, nat>, rs: set<Roa>) {
    forall src ::
      Counted(records, src) == |OfSource(rs, src)| && Counted(prefixes, src) == |NetworksOf(OfSource(rs, src))|
  }

  /** Adds a bucket's counters; each source in it has one more prefix. */
  method Merge(records: map<Source, nat>, prefixes: map<Source, nat>, m: map<Source, nat>)
    returns (records': map<Source, nat>, prefixes': map<Source, nat>)
    requires forall src :: src in m ==> m[src] > 0
    ensures forall src :: Counted(records', src) == Counted(records, src) + Counted(m, src)
    ensures forall src :: Counted(prefixes', src) == Counted(prefixes, src) + if src in m then 1 else 0
  {
    records', prefixes' := records, prefixes;
    var todo := m.Keys;
    while todo != {}
      invariant todo <= m.Keys
      invariant forall src ::
                  Counted(records', src) == Counted(records, src) + if src in todo then 0 else Counted(m, src)
      invariant forall src ::
                  Counted(prefixes', src) == Counted(prefixes, src) + if src in m && src !in todo then 1 else 0
    {
      var src :| src in todo;
      if m[src] > 0 {
        records' := records'[src := Counted(records', src) + m[src]];
        prefixes' := prefixes'[src := Counted(prefixes', src) + 1];
      }
      todo := todo - {src};
    }
  }

  lemma AgreeOneBucketMore(
    records: map<Source, nat>, prefixes: map<Source, nat>, records': map<Source, nat>, prefixes': map<Source, nat>,
    m: map<Source, nat>, rs: set<Roa>, bucket: set<Roa>, n: Prefix)
    requires Agree(records, prefixes, rs)
    requires forall r :: r in rs ==> r.network != n
    requires forall r :: r in bucket ==> r.network == n
    requires forall src :: Counted(m, src) == |OfSource(bucket, src)| && (src in m ==> m[src] > 0)
    requires forall src :: Counted(records', src) == Counted(records, src) + Counted(m, src)
    requires forall src :: Counted(prefixes', src) == Counted(prefixes, src) + if src in m then 1 else 0
    ensures Agree(records', prefixes', rs + bucket)
  {
    forall src
      ensures Counted(records', src) == |OfSource(rs + bucket, src)|
      ensures Counted(prefixes', src) == |NetworksOf(OfSource(rs + bucket, src))|
    {
      BucketCounts(rs, bucket, n, src);
    }
  }

  lemma BucketCounts(rs: set<Roa>, bucket: set<Roa>, n: Prefix, src: Source)
    requires forall r :: r in rs ==> r.network != n
    requires forall r :: r in bucket ==> r.network == n
    ensures |OfSource(rs + bucket, src)| == |OfSource(rs, src)| + |OfSource(bucket, src)|
    ensures |NetworksOf(OfSource(rs + bucket, src))| ==
              |NetworksOf(OfSource(rs, src))| + if |OfSource(bucket, src)| > 0 then 1 else 0
  {
    var a, b := OfSource(rs, src), OfSource(bucket, src);
    assert OfSource(rs + bucket, src) == a + b && a !! b;
    BucketNetworks(a, b, n);
  }

  lemma BucketNetworks(a: set<Roa>, b: set<Roa>, n: Prefix)
    requires forall r :: r in a ==> r.network != n
    requires forall r :: r in b ==> r.network == n
    ensures |NetworksOf(a + b)| == |NetworksOf(a)| + if b == {} then 0 else 1
  {
    if b == {} {
      assert a + b == a;
    } else {
      var r :| r in b;
      assert NetworksOf(a + b) == NetworksOf(a) + {n} by {
        assert r in a + b;
      }
    }
  }

  method CountTree(tree: Tree, ghost family: Family) returns (records: map<Source, nat>, prefixes: map<Source, nat>)
    requires WellFormed(tree, family)
    ensures Agree(records, prefixes, InTree(tree))
  {
    records, prefixes := map[], map[];
    var todo := tree.Keys;
    ghost var done: set<Prefix> := {};
    while todo != {}
      invariant done + todo == tree.Keys && done !! todo
      invariant Agree(records, prefixes, InNetworks(tree, done))
    {
      var n :| n in todo;
      var m := CountBucket(tree[n]);
      var records', prefixes' := Merge(records, prefixes, m);
      NetworksApart(tree, family, done, n);
      AgreeOneBucketMore(records, prefixes, records', prefixes', m, InNetworks(tree, done), SetOf(tree[n]), n);
      records, prefixes, todo, done := records', prefixes', todo - {n}, done + {n};
    }
    assert InNetworks(tree, done) == InTree(tree);
  }

  lemma NetworksApart(tree: Tree, f: Family, done: set<Prefix>, n: Prefix)
    requires WellFormed(tree, f) && n in tree && n !in done
    ensures WellPlaced(tree[n], f, n)
    ensures forall r :: r in InNetworks(tree, done) ==> r.network != n
    ensures InNetworks(tree, done + {n}) == InNetworks(tree, done) + SetOf(tree[n])
  {
  }

  class RoaTable {
    var trees: map<Family, Tree>

    ghost predicate Valid()
      reads this
    {
      trees.Keys == {IPv4Unicast, IPv6Unicast} && forall f :: f in trees ==> WellFormed(trees[f], f)
    }

    ghost function Stored(): set<Roa>
      reads this
    {
      InTrees(trees)
    }

    constructor ()
      ensures Valid() && Stored() == {}
    {
      trees := map[IPv4Unicast := map[], IPv6Unicast := map[]];
    }

    method Add(roa: Roa)
      requires Valid()
      modifies this
      ensures Valid() && Stored() == Edited(old(Stored()), Added(roa))
    {
      var f, n := roa.Tree(), roa.network;
      var entries := if n in trees[f] then trees[f][n] else [];
      var more := AddTo(entries, roa);
      ReplaceBucket(trees, f, n, entries, more);
      trees := trees[f := trees[f][n := more]];
      assert forall x :: x in Stored() <==> x in old(Stored()) || x == roa;
    }

    /** An emptied bucket stays. */
    method Delete(roa: Roa)
      requires Valid()
      modifies this
      ensures Valid() && Stored() == Edited(old(Stored()), Deleted(roa))
    {
      var f, n := roa.Tree(), roa.network;
      if n !in trees[f] {
        NotStored(trees, roa);
        return;
      }
      var fewer := DeleteFrom(trees[f][n], roa);
      ReplaceBucket(trees, f, n, trees[f][n], fewer);
      trees := trees[f := trees[f][n := fewer]];
      assert forall x :: x in Stored() <==> x in old(Stored()) && x != roa;
    }

    method DeleteAll(src: Source)
      requires Valid()
      modifies this
      ensures Valid() && Stored() == Edited(old(Stored()), DeletedAll(src))
    {
      var todo := trees.Keys;
      while todo != {}
        invariant todo <= trees.Keys && Valid()
        invariant forall f :: f in todo ==> trees[f] == old(trees)[f]
        invariant forall f :: f in trees.Keys - todo ==>
                    InTree(trees[f]) == set x | x in InTree(old(trees)[f]) && x.src != src
      {
        var f :| f in todo;
        var tree := DeleteAllFrom(trees[f], src, f);
        trees, todo := trees[f := tree], todo - {f};
      }
      PurgedTrees(old(trees), trees, src);
    }

    /** Nothing for a withdrawal, a marker, or another family. */
    method Validate(p: OriginPath) returns (v: Option<Validation>)
      requires Valid()
      ensures v.None? <==> p.isWithdraw || p.isEor || p.family !in {IPv4Unicast, IPv6Unicast}
      ensures v.Some? ==> Reports(v.value, Stored(), p)
    {
      if p.isWithdraw || p.isEor || p.family !in trees {
        return None;
      }
      var asn := p.ownAs;
      if p.asPath.Some? && p.asPath.value != [] {
        var last := p.asPath.value[|p.asPath.value| - 1];
        match last.typ {
          case AsSequence =>
            if |last.asns| != 0 {
              asn := last.asns[|last.asns| - 1];
            }
          case ConfedSet =>
          case ConfedSequence =>
          case AsSet =>
            return Some(Validation(NotFound, NoReason, [], [], []));
        }
      }
      var w := WalkMatch(trees[p.family], p, asn);
      CoveringIsInTree(trees, p);
      if |w.matched| != 0 {
        w := w.(status := Status.Valid, reason := NoReason);
      } else if |w.unmatchedAs| != 0 {
        w := w.(status := Invalid, reason := WrongAs);
      } else if |w.unmatchedLength| != 0 {
        w := w.(status := Invalid, reason := TooLong);
      }
      return Some(w);
    }

    /** How many authorisations, and how many networks, each source has in the family. */
    method Info(family: Family) returns (records: map<Source, nat>, prefixes: map<Source, nat>)
      requires Valid()
      ensures Agree(records, prefixes, set r | r in Stored() && r.Tree() == family)
    {
      records, prefixes := map[], map[];
      if family !in trees {
        FamilyIsInTree(trees, family);
        return;
      }
      records, prefixes := CountTree(trees[family], family);
      FamilyIsInTree(trees, family);
    }
  }

  lemma FamilyIsInTree(trees: map<Family, Tree>, f: Family)
    requires forall g :: g in trees ==> WellFormed(trees[g], g)
    ensures (set r | r in InTrees(trees) && r.Tree() == f) == if f in trees then InTree(trees[f]) else {}
  {
    forall r
      ensures r in InTrees(trees) && r.Tree() == f <==> f in trees && r in InTree(trees[f])
    {
      WhereStored(trees, r);
      if f in trees && r in InTree(trees[f]) {
        var n :| n in trees[f] && r in trees[f][n];
        assert WellPlaced(trees[f][n], f, n);
      }
    }
  }

  lemma PurgedTrees(before: map<Family, Tree>, after: map<Family, Tree>, src: Source)
    requires before.Keys == after.Keys
    requires forall f :: f in after ==> InTree(after[f]) == set x | x in InTree(before[f]) && x.src != src
    ensures InTrees(after) == set x | x in InTrees(before) && x.src != src
  {
    forall x
      ensures x in InTrees(after) <==> x in InTrees(before) && x.src != src
    {
      if x in InTrees(before) && x.src != src {
        var f :| f in before && x in InTree(before[f]);
        assert x in InTree(after[f]);
      }
    }
  }

  lemma NotStored(trees: map<Family, Tree>, roa: Roa)
    requires roa.Tree() in trees && roa.network !in trees[roa.Tree()]
    requires forall f :: f in trees ==> WellFormed(trees[f], f)
    ensures roa !in InTrees(trees)
  {
  }

  lemma ReplaceBucket(trees: map<Family, Tree>, f: Family, n: Prefix, before: seq<Roa>, after: seq<Roa>)
    requires f in trees && before == if n in trees[f] then trees[f][n] else []
    requires forall g :: g in trees ==> WellFormed(trees[g], g)
    requires WellPlaced(after, f, n)
    ensures WellFormed(trees[f][n := after], f)
    ensures forall x :: x in InTrees(trees[f := trees[f][n := after]]) <==>
              if x.Tree() == f && x.network == n then x in after else x in InTrees(trees)
    ensures forall x :: x in before <==> x in InTrees(trees) && x.Tree() == f && x.network == n
  {
    var changed := trees[f := trees[f][n := after]];
    forall x
      ensures x in InTrees(changed) <==> if x.Tree() == f && x.network == n then x in after else x in InTrees(trees)
    {
      WhereStored(trees, x);
      WhereStored(changed, x);
    }
    forall x
      ensures x in before <==> x in InTrees(trees) && x.Tree() == f && x.network == n
    {
      WhereStored(trees, x);
    }
  }

  /** Each authorisation has one bucket to be in. */
  lemma WhereStored(trees: map<Family, Tree>, x: Roa)
    requires forall g :: g in trees ==> WellFormed(trees[g], g)
    ensures x in InTrees(trees) <==>
              x.Tree() in trees && x.network in trees[x.Tree()] && x in trees[x.Tree()][x.network]
  {
    if x in InTrees(trees) {
      var f :| f in trees && x in InTree(trees[f]);
      var n :| n in trees[f] && x in trees[f][n];
      assert WellPlaced(trees[f][n], f, n);
    }
    if x.Tree() in trees && x.network in trees[x.Tree()] && x in trees[x.Tree()][x.network] {
      assert x in InTree(trees[x.Tree()]);
    }
  }

  lemma CoveringIsInTree(trees: map<Family, Tree>, p: OriginPath)
    requires p.family in trees && forall g :: g in trees ==> WellFormed(trees[g], g)
    ensures Covering(InTrees(trees), p) == set r | r in InTree(trees[p.family]) && r.network <= p.prefix
  {
  }
}
