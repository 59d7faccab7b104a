/** Packing a list of paths into UPDATE messages of bounded size, and what applying the messages
    does to a table compared with applying the list. */
module Packing {
  import opened Common

  const MAX_MESSAGE_LENGTH := 4096
  const FIXED_LENGTH := 23  // header, length of the withdrawn routes, length of the attributes

  /** A prefix with the path identifier it is sent under. `bits` is the prefix length. */
  datatype Nlri = Nlri(family: Family, prefix: nat, bits: nat, id: nat)

  /** OutPath attributes as they are serialised; equal bytes mean equal attributes. */
  datatype Attrs = Attrs(bytes: seq<nat>)

  /** `nextHop4` tells whether the next hop is an IPv4 address, `mpReach` whether MP_REACH_NLRI is
      among the attributes. */
  datatype OutPath = OutPath(
    nlri: Nlri, isEor: bool, isWithdraw: bool, attrs: Attrs, hash: nat, nextHop4: bool, mpReach: bool)

  datatype Message =
    | Update(withdrawn: seq<Nlri>, attrs: Attrs, nlris: seq<Nlri>)
    | MpUnreach(nlri: Nlri)
    | MpReach(family: Family, attrs: Attrs, reach: Option<Nlri>)
    | EndOfRib(family: Family)

  // ----- What messages and paths do to a table

  datatype Op = Announce(nlri: Nlri, attrs: Attrs) | Remove(nlri: Nlri)

  type Rib = map<Nlri, Attrs>

  function ApplyOp(rib: Rib, op: Op): Rib {
    match op
    case Announce(n, a) => rib[n := a]
    case Remove(n) => rib - {n}
  }

  function Apply(rib: Rib, ops: seq<Op>): Rib {
    if ops == [] then rib else ApplyOp(Apply(rib, ops[..|ops| - 1]), ops[|ops| - 1])
  }

  function Removals(ns: seq<Nlri>): (r: seq<Op>)
    ensures |r| == |ns|
  {
    seq(|ns|, i requires 0 <= i < |ns| => Remove(ns[i]))
  }

  function Announcements(ns: seq<Nlri>, a: Attrs): (r: seq<Op>)
    ensures |r| == |ns|
  {
    seq(|ns|, i requires 0 <= i < |ns| => Announce(ns[i], a))
  }

  function OpsOf(m: Message): seq<Op> {
    match m
    case Update(w, a, n) => Removals(w) + Announcements(n, a)
    case MpUnreach(n) => [Remove(n)]
    case MpReach(_, a, reach) => if reach.Some? then [Announce(reach.value, a)] else []
    case EndOfRib(_) => []
  }

  function OpsOfAll(ms: seq<Message>): seq<Op> {
    if ms == [] then [] else OpsOf(ms[0]) + OpsOfAll(ms[1..])
  }

  function OpOf(p: OutPath): Op {
    if p.isWithdraw then Remove(p.nlri) else Announce(p.nlri, p.attrs)
  }

  // ----- Sizes

  function NlriBytes(addPath: bool): nat {
    if addPath then 9 else 5
  }

  /** The bytes of one IPv4 prefix on the wire. */
  function WireLength(n: Nlri, addPath: bool): nat {
    1 + (n.bits + 7) / 8 + if addPath then 4 else 0
  }

  function WireLengths(ns: seq<Nlri>, addPath: bool): nat {
    if ns == [] then 0 else WireLengths(ns[..|ns| - 1], addPath) + WireLength(ns[|ns| - 1], addPath)
  }

  /** How many prefixes fit beside the attributes; the division truncates towards zero. */
  function MaxNlris(attrsLen: nat, addPath: bool): int {
    var room := MAX_MESSAGE_LENGTH - (FIXED_LENGTH + attrsLen);
    if room >= 0 then room / NlriBytes(addPath) else -((-room) / NlriBytes(addPath))
  }

  predicate FitsMessage(m: Message, addPath: bool) {
    m.Update? ==>
      FIXED_LENGTH + |m.attrs.bytes| + WireLengths(m.withdrawn, addPath) + WireLengths(m.nlris, addPath)
        <= MAX_MESSAGE_LENGTH
  }

  lemma {:induction false} LengthsBounded(ns: seq<Nlri>, addPath: bool)
    requires forall n :: n in ns ==> n.bits <= 32
    ensures WireLengths(ns, addPath) <= |ns| * NlriBytes(addPath)
  {
    if ns != [] {
      var k := |ns| - 1;
      assert ns[k] in ns;
      LengthsBounded(ns[..k], addPath);
    }
  }

  lemma ChunkFits(ns: seq<Nlri>, attrsLen: nat, addPath: bool)
    requires |ns| <= MaxNlris(attrsLen, addPath) && forall n :: n in ns ==> n.bits <= 32
    ensures FIXED_LENGTH + attrsLen + WireLengths(ns, addPath) <= MAX_MESSAGE_LENGTH || ns == []
  {
    if ns != [] {
      LengthsBounded(ns, addPath);
    }
  }

  // ----- The split loop

  function Nlris(ps: seq<OutPath>): (r: seq<Nlri>)
    ensures |r| == |ps|
  {
    seq(|ps|, i requires 0 <= i < |ps| => ps[i].nlri)
  }

  function Flat(chunks: seq<seq<Nlri>>): seq<Nlri> {
    if chunks == [] then [] else Flat(chunks[..|chunks| - 1]) + chunks[|chunks| - 1]
  }

  /** Cuts the list into chunks of at most `max`. With no room for even one it yields nothing. */
  method SplitLoop(max: nat, paths: seq<OutPath>) returns (chunks: seq<seq<Nlri>>)
    ensures max > 0 ==> Flat(chunks) == Nlris(paths)
    ensures max == 0 ==> chunks == []
    ensures forall i :: 0 <= i < |chunks| ==> 0 < |chunks[i]| <= max
  {
    chunks := [];
    var rest := paths;
    while true
      invariant Flat(chunks) + Nlris(rest) == Nlris(paths)
      invariant forall i :: 0 <= i < |chunks| ==> 0 < |chunks[i]| <= max
      invariant max == 0 ==> chunks == []
      decreases |rest|
    {
      var n := if max > |rest| then |rest| else max;
      var nlris := Nlris(rest[..n]);
      if |nlris| == 0 {
        break;
      }
      assert Nlris(rest) == nlris + Nlris(rest[n..]);
      assert (chunks + [nlris])[..|chunks|] == chunks;
      ConcatAssociates(Flat(chunks), nlris, Nlris(rest[n..]));
      chunks := chunks + [nlris];
      rest := rest[n..];
    }
  }

  // ----- Which paths go where

  /** Groups of paths. Batched paths are told apart by the hash of their attributes. */
  datatype Kind =
    | Withdrawals
    | Announced
    | Reaching
    | OfHash(key: nat)
    | Batched(keys: set<nat>)
    | OfFamilies(families: set<Family>)

  /** Whether the path is announced in a message shared with others: IPv4 over an IPv4 next hop. */
  predicate IsBatched(p: OutPath) {
    p.nlri.family == IPv4Unicast && p.nextHop4
  }

  predicate Is(p: OutPath, k: Kind) {
    match k
    case Withdrawals => !p.isEor && p.isWithdraw
    case Announced => !p.isEor && !p.isWithdraw
    case Reaching => !p.isEor && !p.isWithdraw && !IsBatched(p)
    case OfHash(key) => !p.isEor && !p.isWithdraw && IsBatched(p) && p.hash == key
    case Batched(keys) => !p.isEor && !p.isWithdraw && IsBatched(p) && p.hash in keys
    case OfFamilies(fs) => p.nlri.family in fs
  }

  function Where(ps: seq<OutPath>, k: Kind): seq<OutPath> {
    if ps == [] then []
    else
      var n := |ps| - 1;
      Where(ps[..n], k) + if Is(ps[n], k) then [ps[n]] else []
  }

  lemma {:induction false} WhereHolds(ps: seq<OutPath>, k: Kind)
    ensures forall p :: p in Where(ps, k) <==> p in ps && Is(p, k)
  {
    if ps != [] {
      WhereHolds(ps[..|ps| - 1], k);
    }
  }

  /** Whether the path makes it into a message: a batched one if its attributes leave room for a
      prefix, another one if MP_REACH_NLRI is there to carry it. */
  predicate Deliverable(p: OutPath, addPath: bool) {
    !p.isEor && (p.isWithdraw || if IsBatched(p) then MaxNlris(|p.attrs.bytes|, addPath) > 0 else p.mpReach)
  }

  /** The operations that the deliverable paths stand for, in order. */
  function Ops(ps: seq<OutPath>, addPath: bool): seq<Op> {
    if ps == [] then []
    else
      var n := |ps| - 1;
      Ops(ps[..n], addPath) + if Deliverable(ps[n], addPath) then [OpOf(ps[n])] else []
  }

  /** The paths of `ps` that are in the group `k`, in no particular order. */
  function Group(ps: seq<OutPath>, k: Kind): multiset<OutPath> {
    if ps == [] then multiset{}
    else
      var n := |ps| - 1;
      Group(ps[..n], k) + if Is(ps[n], k) then multiset{ps[n]} else multiset{}
  }

  lemma {:induction false} GroupOfWhere(ps: seq<OutPath>, k: Kind)
    ensures multiset(Where(ps, k)) == Group(ps, k)
  {
    if ps != [] {
      GroupOfWhere(ps[..|ps| - 1], k);
    }
  }

  lemma {:induction false} NoneInGroup(ps: seq<OutPath>, k: Kind)
    requires forall p :: p in ps ==> !Is(p, k)
    ensures Group(ps, k) == multiset{}
  {
    if ps != [] {
      NoneInGroup(ps[..|ps| - 1], k);
    }
  }

  lemma GroupOneMore(ps: seq<OutPath>, p: OutPath, k: Kind)
    ensures Group(ps + [p], k) == if Is(p, k) then Group(ps, k) + multiset{p} else Group(ps, k)
  {
    assert (ps + [p])[..|ps|] == ps;
  }

  /** A group's operations are those of its paths in whatever order they are listed. */
  lemma OpsOfGroup(ps: seq<OutPath>, k: Kind, qs: seq<OutPath>, addPath: bool)
    requires multiset(qs) == Group(ps, k)
    ensures multiset(Ops(qs, addPath)) == OpsIn(ps, k, addPath)
  {
    GroupOfWhere(ps, k);
    OpsPermuted(qs, Where(ps, k), addPath);
    OpsWhere(ps, k, addPath);
  }

  /** The operations of the paths of `ps` that are in the group `k`, in no particular order. */
  function OpsIn(ps: seq<OutPath>, k: Kind, addPath: bool): multiset<Op> {
    if ps == [] then multiset{}
    else
      var n := |ps| - 1;
      OpsIn(ps[..n], k, addPath) + Contribution(ps[n], k, addPath)
  }

  function Contribution(p: OutPath, k: Kind, addPath: bool): multiset<Op> {
    if Is(p, k) && Deliverable(p, addPath) then multiset{OpOf(p)} else multiset{}
  }

  /** A path of `k` other than a marker is in exactly one of the groups `k1` and `k2`. */
  predicate Splits(p: OutPath, k: Kind, k1: Kind, k2: Kind) {
    p.isEor || ((Is(p, k) <==> Is(p, k1) || Is(p, k2)) && !(Is(p, k1) && Is(p, k2)))
  }

  /** A group that consists of two disjoint ones, markers aside, has their operations together. */
  lemma {:induction false} SplitKind(ps: seq<OutPath>, addPath: bool, k: Kind, k1: Kind, k2: Kind)
    requires forall p :: p in ps ==> Splits(p, k, k1, k2)
    ensures OpsIn(ps, k, addPath) == OpsIn(ps, k1, addPath) + OpsIn(ps, k2, addPath)
  {
    if ps != [] {
      var n := |ps| - 1;
      SplitKind(ps[..n], addPath, k, k1, k2);
      assert Splits(ps[n], k, k1, k2);
      ContributionSplits(ps[n], addPath, k, k1, k2);
    }
  }

  lemma ContributionSplits(p: OutPath, addPath: bool, k: Kind, k1: Kind, k2: Kind)
    requires Splits(p, k, k1, k2)
    ensures forall a, b :: a + b + Contribution(p, k, addPath) ==
              (a + Contribution(p, k1, addPath)) + (b + Contribution(p, k2, addPath))
  {
  }

  lemma {:induction false} OpsWhere(ps: seq<OutPath>, k: Kind, addPath: bool)
    ensures multiset(Ops(Where(ps, k), addPath)) == OpsIn(ps, k, addPath)
  {
    if ps != [] {
      var n := |ps| - 1;
      OpsWhere(ps[..n], k, addPath);
      if Is(ps[n], k) {
        OpsOneMore(Where(ps[..n], k), ps[n], addPath);
      } else {
        assert Where(ps[..n], k) + [] == Where(ps[..n], k);
      }
    }
  }

  lemma WhereOneMore(ps: seq<OutPath>, p: OutPath, k: Kind)
    ensures Where(ps + [p], k) == if Is(p, k) then Where(ps, k) + [p] else Where(ps, k)
  {
    assert (ps + [p])[..|ps|] == ps;
  }

  lemma OpsOneMore(ps: seq<OutPath>, p: OutPath, addPath: bool)
    ensures Ops(ps + [p], addPath) == Ops(ps, addPath) + if Deliverable(p, addPath) then [OpOf(p)] else []
  {
    assert (ps + [p])[..|ps|] == ps;
  }

  lemma {:induction false} OpsConcat(ps: seq<OutPath>, qs: seq<OutPath>, addPath: bool)
    ensures Ops(ps + qs, addPath) == Ops(ps, addPath) + Ops(qs, addPath)
  {
    if qs == [] {
      assert ps + qs == ps;
    } else {
      var n := |qs| - 1;
      OpsConcat(ps, qs[..n], addPath);
      assert (ps + qs)[..|ps| + n] == ps + qs[..n];
    }
  }

  /** Operations of the same paths in another order. */
  lemma {:induction false} OpsPermuted(ps: seq<OutPath>, qs: seq<OutPath>, addPath: bool)
    requires multiset(ps) == multiset(qs)
    ensures multiset(Ops(ps, addPath)) == multiset(Ops(qs, addPath))
  {
    if ps == [] {
      assert qs == [] by {
        assert |multiset(qs)| == 0;
      }
    } else {
      var n := |ps| - 1;
      var p := ps[n];
      assert ps == ps[..n] + [p];
      assert p in multiset(qs);
      var i :| 0 <= i < |qs| && qs[i] == p;
      assert qs == qs[..i] + ([p] + qs[i + 1..]);
      assert multiset(RemoveAt(qs, i)) == multiset(ps[..n]);
      OpsPermuted(ps[..n], qs[..i] + qs[i + 1..], addPath);
      OpsConcat(qs[..i], [p] + qs[i + 1..], addPath);
      OpsConcat([p], qs[i + 1..], addPath);
      OpsConcat(qs[..i], qs[i + 1..], addPath);
      OpsConcat(ps[..n], [p], addPath);
    }
  }

  // ----- Messages for one group

  lemma {:induction false} OpsAllConcat(a: seq<Message>, b: seq<Message>)
    ensures OpsOfAll(a + b) == OpsOfAll(a) + OpsOfAll(b)
  {
    if a == [] {
      assert a + b == b;
    } else {
      assert (a + b)[0] == a[0] && (a + b)[1..] == a[1..] + b;
      OpsAllConcat(a[1..], b);
      ConcatAssociates(OpsOf(a[0]), OpsOfAll(a[1..]), OpsOfAll(b));
    }
  }

  lemma OpsAllOneMore(ms: seq<Message>, m: Message)
    ensures OpsOfAll(ms + [m]) == OpsOfAll(ms) + OpsOf(m)
  {
    OpsAllConcat(ms, [m]);
    assert [m][1..] == [] && OpsOf(m) + [] == OpsOf(m);
  }

  function MessageFamily(m: Message): Family {
    match m
    case Update(_, _, _) => IPv4Unicast
    case MpUnreach(n) => n.family
    case MpReach(f, _, _) => f
    case EndOfRib(f) => f
  }

  /** Messages about one family, none of them its End-of-RIB marker. */
  predicate About(ms: seq<Message>, f: Family, addPath: bool) {
    forall m :: m in ms ==> MessageFamily(m) == f && !m.EndOfRib? && FitsMessage(m, addPath)
  }

  /** The operations that a list of prefixes stands for. */
  function Meant(ns: seq<Nlri>, withdraw: bool, a: Attrs): seq<Op> {
    if withdraw then Removals(ns) else Announcements(ns, a)
  }

  lemma ChunkMeans(ms: seq<Message>, flat: seq<Nlri>, chunk: seq<Nlri>, withdraw: bool, a: Attrs)
    requires OpsOfAll(ms) == Meant(flat, withdraw, a)
    ensures var m := if withdraw then Update(chunk, a, []) else Update([], a, chunk);
            OpsOfAll(ms + [m]) == Meant(flat + chunk, withdraw, a)
  {
    var m := if withdraw then Update(chunk, a, []) else Update([], a, chunk);
    OpsAllOneMore(ms, m);
    OpsOfUpdate(chunk, withdraw, a);
    MeantConcat(flat, chunk, withdraw, a);
  }

  lemma OpsOfUpdate(chunk: seq<Nlri>, withdraw: bool, a: Attrs)
    ensures OpsOf(if withdraw then Update(chunk, a, []) else Update([], a, chunk)) == Meant(chunk, withdraw, a)
  {
  }

  lemma MeantConcat(flat: seq<Nlri>, chunk: seq<Nlri>, withdraw: bool, a: Attrs)
    ensures Meant(flat + chunk, withdraw, a) == Meant(flat, withdraw, a) + Meant(chunk, withdraw, a)
  {
    var whole, parts := Meant(flat + chunk, withdraw, a), Meant(flat, withdraw, a) + Meant(chunk, withdraw, a);
    assert |whole| == |parts|;
    forall i | 0 <= i < |whole|
      ensures whole[i] == parts[i]
    {
      if i < |flat| {
        assert (flat + chunk)[i] == flat[i];
      } else {
        assert (flat + chunk)[i] == chunk[i - |flat|];
      }
    }
  }

  lemma FlatOneMore(chunks: seq<seq<Nlri>>, i: nat)
    requires i < |chunks|
    ensures Flat(chunks[..i + 1]) == Flat(chunks[..i]) + chunks[i]
  {
    assert chunks[..i + 1][..i] == chunks[..i];
  }

  /** The messages for chunks of withdrawn prefixes, or of prefixes with the attributes `a`. */
  method ChunkMessages(chunks: seq<seq<Nlri>>, withdraw: bool, a: Attrs, addPath: bool, max: nat)
    returns (ms: seq<Message>)
    requires forall i :: 0 <= i < |chunks| ==> 0 < |chunks[i]| <= max
    requires max <= MaxNlris(|a.bytes|, addPath)
    requires forall n :: n in Flat(chunks) ==> n.bits <= 32
    ensures OpsOfAll(ms) == Meant(Flat(chunks), withdraw, a)
    ensures About(ms, IPv4Unicast, addPath)
  {
    ms := [];
    for i := 0 to |chunks|
      invariant OpsOfAll(ms) == Meant(Flat(chunks[..i]), withdraw, a)
      invariant About(ms, IPv4Unicast, addPath)
    {
      InFlat(chunks, i);
      ChunkFits(chunks[i], |a.bytes|, addPath);
      FlatOneMore(chunks, i);
      ChunkMeans(ms, Flat(chunks[..i]), chunks[i], withdraw, a);
      ms := ms + [if withdraw then Update(chunks[i], a, []) else Update([], a, chunks[i])];
    }
    assert chunks[..|chunks|] == chunks;
  }

  lemma {:induction false} InFlat(chunks: seq<seq<Nlri>>, i: nat)
    requires i < |chunks|
    ensures forall n :: n in chunks[i] ==> n in Flat(chunks)
  {
    if i < |chunks| - 1 {
      InFlat(chunks[..|chunks| - 1], i);
    }
  }

  lemma {:induction false} OpsOfWithdrawals(ps: seq<OutPath>, addPath: bool)
    requires forall p :: p in ps ==> p.isWithdraw && !p.isEor
    ensures Ops(ps, addPath) == Removals(Nlris(ps))
  {
    if ps != [] {
      var n := |ps| - 1;
      assert ps[n] in ps;
      OpsOfWithdrawals(ps[..n], addPath);
    }
  }

  lemma {:induction false} OpsOfBatch(ps: seq<OutPath>, a: Attrs, addPath: bool)
    requires forall p :: p in ps ==> Is(p, Announced) && IsBatched(p) && p.attrs == a
    ensures Ops(ps, addPath) == if MaxNlris(|a.bytes|, addPath) > 0 then Announcements(Nlris(ps), a) else []
  {
    if ps != [] {
      var n := |ps| - 1;
      assert ps[n] in ps;
      OpsOfBatch(ps[..n], a, addPath);
    }
  }

  // ----- The packer of IPv4 unicast

  datatype Cage = Cage(attrs: Attrs, paths: seq<OutPath>)

  function CagePaths(cs: seq<Cage>): seq<OutPath> {
    if cs == [] then [] else CagePaths(cs[..|cs| - 1]) + cs[|cs| - 1].paths
  }

  /** A cage is not empty and its paths carry its attributes. */
  predicate WellFilled(c: Cage) {
    c.paths != [] && forall p :: p in c.paths ==>
      Is(p, Announced) && IsBatched(p) && p.attrs == c.attrs && p.nlri.bits <= 32
  }

  lemma {:induction false} CagesConcat(a: seq<Cage>, b: seq<Cage>)
    ensures CagePaths(a + b) == CagePaths(a) + CagePaths(b)
  {
    if b == [] {
      assert a + b == a;
    } else {
      var n := |b| - 1;
      CagesConcat(a, b[..n]);
      assert (a + b)[..|a| + n] == a + b[..n];
      ConcatAssociates(CagePaths(a), CagePaths(b[..n]), b[n].paths);
    }
  }

  lemma CageGrows(cs: seq<Cage>, i: nat, c: Cage, p: OutPath)
    requires i < |cs| && c.paths == cs[i].paths + [p]
    ensures multiset(CagePaths(cs[i := c])) == multiset(CagePaths(cs)) + multiset{p}
  {
    assert cs == cs[..i] + [cs[i]] + cs[i + 1..];
    assert cs[i := c] == cs[..i] + [c] + cs[i + 1..];
    CageAdded(cs[..i], cs[i]);
    CageAdded(cs[..i], c);
    CagesConcat(cs[..i] + [cs[i]], cs[i + 1..]);
    CagesConcat(cs[..i] + [c], cs[i + 1..]);
  }

  lemma CageAdded(cs: seq<Cage>, c: Cage)
    ensures CagePaths(cs + [c]) == CagePaths(cs) + c.paths
  {
    assert (cs + [c])[..|cs|] == cs;
  }

  /** The cages under one key once `p` is in: in the first one with its attributes, or in a new one. */
  method PutInCage(cages: seq<Cage>, p: OutPath) returns (r: seq<Cage>)
    requires Is(p, Announced) && IsBatched(p) && p.nlri.bits <= 32
    requires forall i :: 0 <= i < |cages| ==> WellFilled(cages[i])
    ensures forall i :: 0 <= i < |r| ==> WellFilled(r[i])
    ensures multiset(CagePaths(r)) == multiset(CagePaths(cages)) + multiset{p}
  {
    for i := 0 to |cages| {
      if cages[i].attrs == p.attrs {
        var c := cages[i].(paths := cages[i].paths + [p]);
        CageGrows(cages, i, c, p);
        return cages[i := c];
      }
    }
    CageAdded(cages, Cage(p.attrs, [p]));
    return cages + [Cage(p.attrs, [p])];
  }

  /** What every path handed to the packers satisfies: an IPv4 prefix has at most 32 bits. */
  predicate WellFormed(p: OutPath) {
    p.nlri.family == IPv4Unicast ==> p.nlri.bits <= 32
  }

  /** The cages under `key` hold the batched paths of that hash. */
  ghost predicate Filled(cages: seq<Cage>, added: seq<OutPath>, key: nat) {
    (forall i :: 0 <= i < |cages| ==> WellFilled(cages[i])) &&
    multiset(CagePaths(cages)) == Group(added, OfHash(key))
  }

  ghost predicate Listed(eof: bool, mpPaths: seq<OutPath>, withdrawals: seq<OutPath>, added: seq<OutPath>) {
    (forall p :: p in added ==> p.nlri.family == IPv4Unicast && WellFormed(p)) &&
    (eof <==> exists p :: p in added && p.isEor) &&
    withdrawals == Where(added, Withdrawals) &&
    mpPaths == Where(added, Reaching)
  }

  ghost predicate Caged(hashmap: map<nat, seq<Cage>>, added: seq<OutPath>) {
    (forall key :: key in hashmap ==> Filled(hashmap[key], added, key)) &&
    (forall p :: p in added && Is(p, Announced) && IsBatched(p) ==> p.hash in hashmap)
  }

  /** A path of another hash, or one that is not batched, leaves a key's cages right. */
  lemma StillFilled(cages: seq<Cage>, added: seq<OutPath>, key: nat, p: OutPath)
    requires Filled(cages, added, key) && !Is(p, OfHash(key))
    ensures Filled(cages, added + [p], key)
  {
    GroupOneMore(added, p, OfHash(key));
  }

  lemma NowFilled(before: seq<Cage>, after: seq<Cage>, added: seq<OutPath>, p: OutPath)
    requires Filled(before, added, p.hash) && Is(p, OfHash(p.hash))
    requires forall i :: 0 <= i < |after| ==> WellFilled(after[i])
    requires multiset(CagePaths(after)) == multiset(CagePaths(before)) + multiset{p}
    ensures Filled(after, added + [p], p.hash)
  {
    GroupOneMore(added, p, OfHash(p.hash));
  }

  lemma ListedOneMore(eof: bool, mpPaths: seq<OutPath>, withdrawals: seq<OutPath>, added: seq<OutPath>, p: OutPath)
    requires Listed(eof, mpPaths, withdrawals, added) && p.nlri.family == IPv4Unicast && WellFormed(p)
    ensures Listed(eof || p.isEor, if Is(p, Reaching) then mpPaths + [p] else mpPaths,
                   if Is(p, Withdrawals) then withdrawals + [p] else withdrawals, added + [p])
  {
    WhereOneMore(added, p, Withdrawals);
    WhereOneMore(added, p, Reaching);
    InOneMore(added, p);
  }

  lemma InOneMore(added: seq<OutPath>, p: OutPath)
    ensures forall q :: q in added + [p] <==> q in added || q == p
  {
  }

  lemma CagedElsewhere(hashmap: map<nat, seq<Cage>>, added: seq<OutPath>, p: OutPath)
    requires Caged(hashmap, added) && !(Is(p, Announced) && IsBatched(p))
    ensures Caged(hashmap, added + [p])
  {
    OthersFilled(hashmap, added, p);
    InOneMore(added, p);
  }

  lemma CagedHere(hashmap: map<nat, seq<Cage>>, added: seq<OutPath>, p: OutPath, before: seq<Cage>, after: seq<Cage>)
    requires Caged(hashmap, added) && Is(p, Announced) && IsBatched(p)
    requires before == if p.hash in hashmap then hashmap[p.hash] else []
    requires forall i :: 0 <= i < |after| ==> WellFilled(after[i])
    requires multiset(CagePaths(after)) == multiset(CagePaths(before)) + multiset{p}
    ensures Caged(hashmap[p.hash := after], added + [p])
  {
    FilledSoFar(hashmap, added, p);
    NowFilled(before, after, added, p);
    OthersFilled(hashmap, added, p);
    InOneMore(added, p);
    OneKeyMore(hashmap, added + [p], p, after);
  }

  lemma FilledSoFar(hashmap: map<nat, seq<Cage>>, added: seq<OutPath>, p: OutPath)
    requires Caged(hashmap, added)
    ensures Filled(if p.hash in hashmap then hashmap[p.hash] else [], added, p.hash)
  {
    if p.hash !in hashmap {
      NoneInGroup(added, OfHash(p.hash));
    }
  }

  lemma OneKeyMore(hashmap: map<nat, seq<Cage>>, more: seq<OutPath>, p: OutPath, after: seq<Cage>)
    requires forall key :: key in hashmap && key != p.hash ==> Filled(hashmap[key], more, key)
    requires Filled(after, more, p.hash)
    requires forall q :: q in more && Is(q, Announced) && IsBatched(q) ==> q.hash in hashmap || q == p
    ensures Caged(hashmap[p.hash := after], more)
  {
  }

  // ----- Messages for the batched paths

  /** The split would ask for a slice of negative capacity: the attributes exceed a message by
      the size of a prefix or more. */
  predicate Overflows(p: OutPath, addPath: bool) {
    Is(p, Announced) && IsBatched(p) && MaxNlris(|p.attrs.bytes|, addPath) < 0
  }

  predicate AnyOverflows(ps: seq<OutPath>, addPath: bool) {
    exists p :: p in ps && Overflows(p, addPath)
  }

  lemma InNlris(ps: seq<OutPath>)
    ensures forall n :: n in Nlris(ps) ==> exists p :: p in ps && p.nlri == n
  {
    forall n | n in Nlris(ps)
      ensures exists p :: p in ps && p.nlri == n
    {
      var i :| 0 <= i < |ps| && Nlris(ps)[i] == n;
      assert ps[i] in ps;
    }
  }

  /** Nothing is returned when the split panics. */
  method PackCage(c: Cage, addPath: bool) returns (r: Option<seq<Message>>)
    requires WellFilled(c)
    ensures r.None? <==> AnyOverflows(c.paths, addPath)
    ensures r.Some? ==> OpsOfAll(r.value) == Ops(c.paths, addPath) && About(r.value, IPv4Unicast, addPath)
  {
    var max := MaxNlris(|c.attrs.bytes|, addPath);
    assert c.paths[0] in c.paths;
    if max < 0 {
      return None;
    }
    var chunks := SplitLoop(max, c.paths);
    InNlris(c.paths);
    OpsOfBatch(c.paths, c.attrs, addPath);
    var ms := ChunkMessages(chunks, false, c.attrs, addPath, max);
    return Some(ms);
  }

  /** The messages do what the paths stand for, none of which overflows. */
  ghost predicate Packed(ms: seq<Message>, ps: seq<OutPath>, addPath: bool) {
    OpsOfAll(ms) == Ops(ps, addPath) && About(ms, IPv4Unicast, addPath) && !AnyOverflows(ps, addPath)
  }

  lemma PackedTogether(a: seq<Message>, ps: seq<OutPath>, b: seq<Message>, qs: seq<OutPath>, addPath: bool)
    requires Packed(a, ps, addPath) && Packed(b, qs, addPath)
    ensures Packed(a + b, ps + qs, addPath)
  {
    OpsConcat(ps, qs, addPath);
    OpsAllConcat(a, b);
  }

  method PackCages(cages: seq<Cage>, addPath: bool) returns (r: Option<seq<Message>>)
    requires forall i :: 0 <= i < |cages| ==> WellFilled(cages[i])
    ensures r.None? <==> AnyOverflows(CagePaths(cages), addPath)
    ensures r.Some? ==> Packed(r.value, CagePaths(cages), addPath)
  {
    var msgs := [];
    for i := 0 to |cages|
      invariant Packed(msgs, CagePaths(cages[..i]), addPath)
    {
      CageAdded(cages[..i], cages[i]);
      assert cages[..i + 1] == cages[..i] + [cages[i]];
      var some := PackCage(cages[i], addPath);
      if some.None? {
        CagesGrow(cages, i);
        return None;
      }
      PackedTogether(msgs, CagePaths(cages[..i]), some.value, cages[i].paths, addPath);
      msgs := msgs + some.value;
    }
    assert cages[..|cages|] == cages;
    return Some(msgs);
  }

  lemma {:induction false} CagesGrow(cages: seq<Cage>, i: nat)
    requires i < |cages|
    ensures forall p :: p in cages[i].paths ==> p in CagePaths(cages)
  {
    if i < |cages| - 1 {
      CagesGrow(cages[..|cages| - 1], i);
    }
  }

  lemma InGroup(ps: seq<OutPath>, k: Kind)
    ensures forall p :: p in Group(ps, k) <==> p in ps && Is(p, k)
  {
    GroupOfWhere(ps, k);
    WhereHolds(ps, k);
    assert forall p :: p in Where(ps, k) <==> p in multiset(Where(ps, k));
  }

  lemma {:induction false} NoOps(ps: seq<OutPath>, k: Kind, addPath: bool)
    requires forall p :: p in ps ==> !Is(p, k)
    ensures OpsIn(ps, k, addPath) == multiset{}
  {
    if ps != [] {
      NoOps(ps[..|ps| - 1], k, addPath);
    }
  }

  /** The messages do what the batched paths of the hashes in `done` stand for. */
  ghost predicate PackedKeys(ms: seq<Message>, added: seq<OutPath>, done: set<nat>, addPath: bool) {
    multiset(OpsOfAll(ms)) == OpsIn(added, Batched(done), addPath) &&
    About(ms, IPv4Unicast, addPath) &&
    forall p :: p in added && Overflows(p, addPath) ==> p.hash !in done
  }

  lemma PackedOneKeyMore(a: seq<Message>, added: seq<OutPath>, done: set<nat>, b: seq<Message>,
                         qs: seq<OutPath>, key: nat, addPath: bool)
    requires PackedKeys(a, added, done, addPath) && key !in done
    requires Packed(b, qs, addPath) && multiset(qs) == Group(added, OfHash(key))
    ensures PackedKeys(a + b, added, done + {key}, addPath)
  {
    OpsOneKeyMore(a, added, done, b, qs, key, addPath);
    NoneOverflowsInGroup(qs, added, key, addPath);
  }

  lemma OpsOneKeyMore(a: seq<Message>, added: seq<OutPath>, done: set<nat>, b: seq<Message>,
                      qs: seq<OutPath>, key: nat, addPath: bool)
    requires multiset(OpsOfAll(a)) == OpsIn(added, Batched(done), addPath) && key !in done
    requires OpsOfAll(b) == Ops(qs, addPath) && multiset(qs) == Group(added, OfHash(key))
    ensures multiset(OpsOfAll(a + b)) == OpsIn(added, Batched(done + {key}), addPath)
  {
    OpsOfGroup(added, OfHash(key), qs, addPath);
    SplitKind(added, addPath, Batched(done + {key}), Batched(done), OfHash(key));
    OpsAllConcat(a, b);
  }

  lemma NoneOverflowsInGroup(qs: seq<OutPath>, added: seq<OutPath>, key: nat, addPath: bool)
    requires multiset(qs) == Group(added, OfHash(key)) && !AnyOverflows(qs, addPath)
    ensures forall p :: p in added && Overflows(p, addPath) ==> p.hash != key
  {
    InGroup(added, OfHash(key));
    MembersOf(qs, Group(added, OfHash(key)));
  }

  lemma OverflowsInGroup(qs: seq<OutPath>, added: seq<OutPath>, key: nat, addPath: bool)
    requires multiset(qs) == Group(added, OfHash(key)) && AnyOverflows(qs, addPath)
    ensures AnyOverflows(added, addPath)
  {
    InGroup(added, OfHash(key));
    MembersOf(qs, Group(added, OfHash(key)));
  }

  /** The messages of all cages; the keys come in an arbitrary order. */
  method PackAll(hashmap: map<nat, seq<Cage>>, ghost added: seq<OutPath>, addPath: bool)
    returns (r: Option<seq<Message>>)
    requires Caged(hashmap, added)
    ensures r.None? ==> AnyOverflows(added, addPath)
    ensures r.Some? ==> PackedKeys(r.value, added, hashmap.Keys, addPath)
  {
    var msgs, todo := [], hashmap.Keys;
    ghost var done: set<nat> := {};
    NoOps(added, Batched({}), addPath);
    while todo != {}
      invariant done + todo == hashmap.Keys && done !! todo
      invariant PackedKeys(msgs, added, done, addPath)
    {
      var key :| key in todo;
      var some := PackCages(hashmap[key], addPath);
      if some.None? {
        OverflowsInGroup(CagePaths(hashmap[key]), added, key, addPath);
        return None;
      }
      PackedOneKeyMore(msgs, added, done, some.value, CagePaths(hashmap[key]), key, addPath);
      msgs, todo, done := msgs + some.value, todo - {key}, done + {key};
    }
    return Some(msgs);
  }

  lemma MembersOf<T>(s: seq<T>, m: multiset<T>)
    requires multiset(s) == m
    ensures forall x :: x in s <==> x in m
  {
  }

  // ----- Messages of one prefix each

  /** Messages about a family that do what the paths stand for. */
  ghost predicate Said(ms: seq<Message>, ps: seq<OutPath>, f: Family, addPath: bool) {
    OpsOfAll(ms) == Ops(ps, addPath) && About(ms, f, addPath)
  }

  method MpReachMessages(paths: seq<OutPath>, f: Family, addPath: bool) returns (ms: seq<Message>)
    requires forall p :: p in paths ==> Is(p, Announced) && !IsBatched(p) && p.nlri.family == f
    ensures OpsOfAll(ms) == Ops(paths, addPath) && About(ms, f, addPath)
  {
    ms := [];
    for i := 0 to |paths|
      invariant Said(ms, paths[..i], f, addPath)
    {
      var p := paths[i];
      var m := MpReach(f, p.attrs, if p.mpReach then Some(p.nlri) else None);
      SaidOneMore(ms, paths, i, m, f, addPath);
      ms := ms + [m];
    }
    assert paths[..|paths|] == paths;
  }

  method MpUnreachMessages(paths: seq<OutPath>, f: Family, addPath: bool) returns (ms: seq<Message>)
    requires forall p :: p in paths ==> Is(p, Withdrawals) && p.nlri.family == f
    ensures OpsOfAll(ms) == Ops(paths, addPath) && About(ms, f, addPath)
  {
    ms := [];
    for i := 0 to |paths|
      invariant Said(ms, paths[..i], f, addPath)
    {
      SaidOneMore(ms, paths, i, MpUnreach(paths[i].nlri), f, addPath);
      ms := ms + [MpUnreach(paths[i].nlri)];
    }
    assert paths[..|paths|] == paths;
  }

  lemma SaidOneMore(ms: seq<Message>, paths: seq<OutPath>, i: nat, m: Message, f: Family, addPath: bool)
    requires i < |paths| && Said(ms, paths[..i], f, addPath)
    requires OpsOf(m) == if Deliverable(paths[i], addPath) then [OpOf(paths[i])] else []
    requires MessageFamily(m) == f && !m.EndOfRib? && FitsMessage(m, addPath)
    ensures Said(ms + [m], paths[..i + 1], f, addPath)
  {
    OneMessageMore(ms, paths[..i], paths[i], m, addPath);
    AboutOneMore(ms, m, f, addPath);
    assert paths[..i + 1] == paths[..i] + [paths[i]];
  }

  lemma AboutOneMore(ms: seq<Message>, m: Message, f: Family, addPath: bool)
    requires About(ms, f, addPath) && MessageFamily(m) == f && !m.EndOfRib? && FitsMessage(m, addPath)
    ensures About(ms + [m], f, addPath)
  {
  }

  lemma OneMessageMore(ms: seq<Message>, ps: seq<OutPath>, p: OutPath, m: Message, addPath: bool)
    requires OpsOfAll(ms) == Ops(ps, addPath)
    requires OpsOf(m) == if Deliverable(p, addPath) then [OpOf(p)] else []
    ensures OpsOfAll(ms + [m]) == Ops(ps + [p], addPath)
  {
    OpsAllOneMore(ms, m);
    OpsOneMore(ps, p, addPath);
  }

  // ----- What a packer delivers

  /** The marker of the family occurs exactly if it should, and nothing about the family follows it. */
  predicate MarkerLast(ms: seq<Message>, f: Family, marker: bool) {
    (marker <==> EndOfRib(f) in ms) &&
    forall i, j :: 0 <= i < j < |ms| && ms[i] == EndOfRib(f) ==> MessageFamily(ms[j]) != f
  }

  /** Messages about one family: they do what the paths stand for, fit, and end with the marker
      if one of the paths is a marker. */
  ghost predicate Delivers(ms: seq<Message>, ps: seq<OutPath>, f: Family, addPath: bool) {
    multiset(OpsOfAll(ms)) == multiset(Ops(ps, addPath)) &&
    (forall m :: m in ms ==> MessageFamily(m) == f && FitsMessage(m, addPath)) &&
    MarkerLast(ms, f, exists p :: p in ps && p.isEor)
  }

  method Closing(ms: seq<Message>, f: Family, eof: bool, ghost ps: seq<OutPath>, addPath: bool)
    returns (r: seq<Message>)
    requires About(ms, f, addPath) && multiset(OpsOfAll(ms)) == multiset(Ops(ps, addPath))
    requires eof <==> exists p :: p in ps && p.isEor
    ensures Delivers(r, ps, f, addPath)
  {
    assert EndOfRib(f) !in ms;
    if !eof {
      return ms;
    }
    OpsAllOneMore(ms, EndOfRib(f));
    return ms + [EndOfRib(f)];
  }

  lemma {:induction false} WhereAll(ps: seq<OutPath>, k: Kind)
    requires forall i :: 0 <= i < |ps| ==> Is(ps[i], k)
    ensures Where(ps, k) == ps
  {
    if ps != [] {
      var front, last := ps[..|ps| - 1], ps[|ps| - 1];
      WhereAll(front, k);
      assert Where(ps, k) == front + [last];
      assert front + [last] == ps;
    }
  }

  lemma WholeFamily(ps: seq<OutPath>, f: Family, addPath: bool)
    requires forall p :: p in ps ==> p.nlri.family == f
    ensures OpsIn(ps, OfFamilies({f}), addPath) == multiset(Ops(ps, addPath))
  {
    EveryFamilyIn(ps, {f}, addPath);
  }

  lemma WholeOfV4(added: seq<OutPath>, keys: set<nat>, addPath: bool)
    requires forall p :: p in added ==> p.nlri.family == IPv4Unicast
    requires forall p :: p in added && Is(p, Announced) && IsBatched(p) ==> p.hash in keys
    ensures OpsIn(added, Withdrawals, addPath) + OpsIn(added, Batched(keys), addPath) + OpsIn(added, Reaching, addPath)
              == multiset(Ops(added, addPath))
  {
    WholeOfMP(added, IPv4Unicast, addPath);
    SplitAnnounced(added, keys, addPath);
    SumAssociates(OpsIn(added, Withdrawals, addPath), OpsIn(added, Batched(keys), addPath),
                  OpsIn(added, Reaching, addPath));
  }

  lemma SplitAnnounced(added: seq<OutPath>, keys: set<nat>, addPath: bool)
    requires forall p :: p in added && Is(p, Announced) && IsBatched(p) ==> p.hash in keys
    ensures OpsIn(added, Announced, addPath) == OpsIn(added, Batched(keys), addPath) + OpsIn(added, Reaching, addPath)
  {
    forall p | p in added
      ensures Splits(p, Announced, Batched(keys), Reaching)
    {
    }
    SplitKind(added, addPath, Announced, Batched(keys), Reaching);
  }

  lemma SumAssociates<T>(a: multiset<T>, b: multiset<T>, c: multiset<T>)
    ensures a + b + c == a + (b + c)
  {
  }

  lemma WholeOfMP(added: seq<OutPath>, f: Family, addPath: bool)
    requires forall p :: p in added ==> p.nlri.family == f
    ensures OpsIn(added, Withdrawals, addPath) + OpsIn(added, Announced, addPath) == multiset(Ops(added, addPath))
  {
    WholeFamily(added, f, addPath);
    var k := OfFamilies({f});
    forall p | p in added
      ensures Splits(p, k, Withdrawals, Announced)
    {
      assert Is(p, k);
    }
    SplitKind(added, addPath, k, Withdrawals, Announced);
  }

  method RemovalMessages(withdrawals: seq<OutPath>, addPath: bool) returns (ms: seq<Message>)
    requires forall p :: p in withdrawals ==> Is(p, Withdrawals) && p.nlri.bits <= 32
    ensures OpsOfAll(ms) == Ops(withdrawals, addPath) && About(ms, IPv4Unicast, addPath)
  {
    var chunks := SplitLoop(MaxNlris(0, addPath), withdrawals);
    InNlris(withdrawals);
    OpsOfWithdrawals(withdrawals, addPath);
    ms := ChunkMessages(chunks, true, Attrs([]), addPath, MaxNlris(0, addPath));
  }

  lemma OpsOfThree(a: seq<Message>, b: seq<Message>, c: seq<Message>)
    ensures multiset(OpsOfAll(a + b + c)) == multiset(OpsOfAll(a)) + multiset(OpsOfAll(b)) + multiset(OpsOfAll(c))
  {
    OpsAllConcat(a + b, c);
    OpsAllConcat(a, b);
  }

  method AddBatched(hashmap: map<nat, seq<Cage>>, p: OutPath, ghost added: seq<OutPath>)
    returns (r: map<nat, seq<Cage>>)
    requires Caged(hashmap, added) && Is(p, Announced) && IsBatched(p) && WellFormed(p)
    ensures Caged(r, added + [p])
  {
    var cages := if p.hash in hashmap then hashmap[p.hash] else [];
    var more := PutInCage(cages, p);
    CagedHere(hashmap, added, p, cages, more);
    r := hashmap[p.hash := more];
  }

  class PackerV4 {
    var eof: bool
    var hashmap: map<nat, seq<Cage>>
    var mpPaths: seq<OutPath>
    var withdrawals: seq<OutPath>
    ghost var added: seq<OutPath>

    ghost predicate Valid()
      reads this
    {
      Listed(eof, mpPaths, withdrawals, added) && Caged(hashmap, added)
    }

    constructor ()
      ensures Valid() && added == []
    {
      eof, hashmap, mpPaths, withdrawals, added := false, map[], [], [], [];
    }

    method Add(p: OutPath)
      requires Valid() && p.nlri.family == IPv4Unicast && WellFormed(p)
      modifies this
      ensures Valid() && added == old(added) + [p]
    {
      ListedOneMore(eof, mpPaths, withdrawals, added, p);
      if p.isEor {
        CagedElsewhere(hashmap, added, p);
        eof := true;
      } else if p.isWithdraw {
        CagedElsewhere(hashmap, added, p);
        withdrawals := withdrawals + [p];
      } else if !p.nextHop4 {
        CagedElsewhere(hashmap, added, p);
        mpPaths := mpPaths + [p];
      } else {
        hashmap := AddBatched(hashmap, p, added);
      }
      added := added + [p];
    }

    method Pack(addPath: bool) returns (r: Option<seq<Message>>)
      requires Valid()
      ensures r.None? <==> AnyOverflows(added, addPath)
      ensures r.Some? ==> Delivers(r.value, added, IPv4Unicast, addPath)
    {
      WhereHolds(added, Withdrawals);
      WhereHolds(added, Reaching);
      OpsWhere(added, Withdrawals, addPath);
      OpsWhere(added, Reaching, addPath);
      WholeOfV4(added, hashmap.Keys, addPath);
      var msgs := RemovalMessages(withdrawals, addPath);
      var batched := PackAll(hashmap, added, addPath);
      if batched.None? {
        return None;
      }
      var reaching := MpReachMessages(mpPaths, IPv4Unicast, addPath);
      OpsOfThree(msgs, batched.value, reaching);
      var all := Closing(msgs + batched.value + reaching, IPv4Unicast, eof, added, addPath);
      return Some(all);
    }
  }

  // ----- The packer of the other families

  class PackerMP {
    const family: Family
    var eof: bool
    var paths: seq<OutPath>
    var withdrawals: seq<OutPath>
    ghost var added: seq<OutPath>

    ghost predicate Valid()
      reads this
    {
      family != IPv4Unicast &&
      (forall p :: p in added ==> p.nlri.family == family) &&
      (eof <==> exists p :: p in added && p.isEor) &&
      withdrawals == Where(added, Withdrawals) &&
      paths == Where(added, Announced)
    }

    constructor (family: Family)
      requires family != IPv4Unicast
      ensures Valid() && added == [] && this.family == family
    {
      this.family := family;
      eof, paths, withdrawals, added := false, [], [], [];
    }

    method Add(p: OutPath)
      requires Valid() && p.nlri.family == family
      modifies this
      ensures Valid() && added == old(added) + [p]
    {
      WhereOneMore(added, p, Withdrawals);
      WhereOneMore(added, p, Announced);
      InOneMore(added, p);
      if p.isEor {
        eof := true;
      } else if p.isWithdraw {
        withdrawals := withdrawals + [p];
      } else {
        paths := paths + [p];
      }
      added := added + [p];
    }

    method Pack(addPath: bool) returns (r: seq<Message>)
      requires Valid()
      ensures !AnyOverflows(added, addPath) && Delivers(r, added, family, addPath)
    {
      WhereHolds(added, Withdrawals);
      WhereHolds(added, Announced);
      OpsWhere(added, Withdrawals, addPath);
      OpsWhere(added, Announced, addPath);
      WholeOfMP(added, family, addPath);
      var msgs := MpUnreachMessages(withdrawals, family, addPath);
      var reaching := MpReachMessages(paths, family, addPath);
      OpsAllConcat(msgs, reaching);
      r := Closing(msgs + reaching, family, eof, added, addPath);
    }
  }

  lemma OthersFilled(hashmap: map<nat, seq<Cage>>, added: seq<OutPath>, p: OutPath)
    requires forall key :: key in hashmap ==> Filled(hashmap[key], added, key)
    ensures forall key :: key in hashmap && (key != p.hash || !(Is(p, Announced) && IsBatched(p))) ==>
              Filled(hashmap[key], added + [p], key)
  {
    forall key | key in hashmap && (key != p.hash || !(Is(p, Announced) && IsBatched(p)))
      ensures Filled(hashmap[key], added + [p], key)
    {
      StillFilled(hashmap[key], added, key, p);
    }
  }

  // ----- All families

  datatype Packer = V4(p4: PackerV4) | MP(mp: PackerMP)

  function Instance(k: Packer): object {
    match k
    case V4(p) => p
    case MP(p) => p
  }

  function OfFamily(ps: seq<OutPath>, f: Family): seq<OutPath> {
    Where(ps, OfFamilies({f}))
  }

  /** The packer has been given exactly the paths of the family. */
  ghost predicate Ready(k: Packer, f: Family, ps: seq<OutPath>)
    reads Instance(k)
  {
    match k
    case V4(p) => f == IPv4Unicast && p.Valid() && p.added == OfFamily(ps, f)
    case MP(p) => p.family == f && p.Valid() && p.added == OfFamily(ps, f)
  }

  method NewPacker(f: Family, ghost ps: seq<OutPath>) returns (k: Packer)
    requires OfFamily(ps, f) == []
    ensures fresh(Instance(k)) && Ready(k, f, ps)
  {
    if f == IPv4Unicast {
      var p := new PackerV4();
      k := V4(p);
    } else {
      var p := new PackerMP(f);
      k := MP(p);
    }
  }

  method AddTo(k: Packer, p: OutPath, ghost ps: seq<OutPath>)
    requires Ready(k, p.nlri.family, ps) && WellFormed(p)
    modifies Instance(k)
    ensures Ready(k, p.nlri.family, ps + [p])
  {
    WhereOneMore(ps, p, OfFamilies({p.nlri.family}));
    match k {
      case V4(p4) => p4.Add(p);
      case MP(mp) => mp.Add(p);
    }
  }

  method PackOne(k: Packer, f: Family, ghost ps: seq<OutPath>, addPath: bool) returns (r: Option<seq<Message>>)
    requires Ready(k, f, ps)
    ensures r.None? <==> AnyOverflows(OfFamily(ps, f), addPath)
    ensures r.Some? ==> Delivers(r.value, OfFamily(ps, f), f, addPath)
  {
    match k {
      case V4(p4) => r := p4.Pack(addPath);
      case MP(mp) =>
        var ms := mp.Pack(addPath);
        r := Some(ms);
    }
  }

  predicate HasMarker(ps: seq<OutPath>, f: Family) {
    exists p :: p in ps && p.nlri.family == f && p.isEor
  }

  /** The messages do what the paths of the families in `done` stand for, one family after another. */
  ghost predicate DeliversFamilies(ms: seq<Message>, ps: seq<OutPath>, done: set<Family>, addPath: bool) {
    multiset(OpsOfAll(ms)) == OpsIn(ps, OfFamilies(done), addPath) &&
    (forall m :: m in ms ==> MessageFamily(m) in done && FitsMessage(m, addPath)) &&
    (forall f :: f in done ==> MarkerLast(ms, f, HasMarker(ps, f))) &&
    forall p :: p in ps && p.nlri.family in done ==> !Overflows(p, addPath)
  }

  lemma MarkerOfFamily(ps: seq<OutPath>, f: Family)
    ensures HasMarker(ps, f) <==> exists p :: p in OfFamily(ps, f) && p.isEor
  {
    WhereHolds(ps, OfFamilies({f}));
  }

  /** Messages about other families around a family's messages leave its marker last. */
  lemma MarkerStaysLast(a: seq<Message>, b: seq<Message>, f: Family, marker: bool)
    requires MarkerLast(a, f, marker) && forall m :: m in b ==> MessageFamily(m) != f
    ensures MarkerLast(a + b, f, marker)
  {
    assert forall k :: 0 <= k < |b| ==> b[k] in b;
  }

  lemma MarkerComesLast(a: seq<Message>, b: seq<Message>, f: Family, marker: bool)
    requires MarkerLast(b, f, marker) && forall m :: m in a ==> MessageFamily(m) != f
    ensures MarkerLast(a + b, f, marker)
  {
    assert forall k :: 0 <= k < |a| ==> a[k] in a;
  }

  lemma MarkersAfterOneMore(a: seq<Message>, b: seq<Message>, ps: seq<OutPath>, done: set<Family>, f: Family)
    requires f !in done
    requires forall m :: m in a ==> MessageFamily(m) in done
    requires forall m :: m in b ==> MessageFamily(m) == f
    requires forall g :: g in done ==> MarkerLast(a, g, HasMarker(ps, g))
    requires MarkerLast(b, f, HasMarker(ps, f))
    ensures forall g :: g in done + {f} ==> MarkerLast(a + b, g, HasMarker(ps, g))
  {
    forall g | g in done + {f}
      ensures MarkerLast(a + b, g, HasMarker(ps, g))
    {
      if g == f {
        MarkerComesLast(a, b, f, HasMarker(ps, f));
      } else {
        MarkerStaysLast(a, b, g, HasMarker(ps, g));
      }
    }
  }

  lemma OpsOfOneFamilyMore(ps: seq<OutPath>, done: set<Family>, f: Family, addPath: bool)
    requires f !in done
    ensures OpsIn(ps, OfFamilies(done + {f}), addPath) ==
              OpsIn(ps, OfFamilies(done), addPath) + multiset(Ops(OfFamily(ps, f), addPath))
  {
    forall p
      ensures Splits(p, OfFamilies(done + {f}), OfFamilies(done), OfFamilies({f}))
    {
    }
    SplitKind(ps, addPath, OfFamilies(done + {f}), OfFamilies(done), OfFamilies({f}));
    OpsWhere(ps, OfFamilies({f}), addPath);
  }

  lemma DeliversOneMore(a: seq<Message>, b: seq<Message>, ps: seq<OutPath>, done: set<Family>, f: Family, addPath: bool)
    requires f !in done && DeliversFamilies(a, ps, done, addPath)
    requires Delivers(b, OfFamily(ps, f), f, addPath) && !AnyOverflows(OfFamily(ps, f), addPath)
    ensures DeliversFamilies(a + b, ps, done + {f}, addPath)
  {
    OpsOfOneFamilyMore(ps, done, f, addPath);
    OpsAllConcat(a, b);
    MarkerOfFamily(ps, f);
    MarkersAfterOneMore(a, b, ps, done, f);
    NoneOverflowsInFamily(ps, f, addPath);
  }

  lemma NoneOverflowsInFamily(ps: seq<OutPath>, f: Family, addPath: bool)
    requires !AnyOverflows(OfFamily(ps, f), addPath)
    ensures forall p :: p in ps && p.nlri.family == f ==> !Overflows(p, addPath)
  {
    WhereHolds(ps, OfFamilies({f}));
  }

  lemma DeliversNothing(ps: seq<OutPath>, addPath: bool)
    ensures DeliversFamilies([], ps, {}, addPath)
  {
    NoOps(ps, OfFamilies({}), addPath);
  }

  function Instances(m: map<Family, Packer>): set<object> {
    set f | f in m :: Instance(m[f])
  }

  ghost predicate ReadyIn(m: map<Family, Packer>, f: Family, ps: seq<OutPath>)
    requires f in m
    reads Instance(m[f])
  {
    Ready(m[f], f, ps)
  }

  /** Every family that occurs has a packer of its own, which has been given its paths. */
  ghost predicate Grouped(m: map<Family, Packer>, ps: seq<OutPath>)
    reads Instances(m)
  {
    (forall f {:trigger ReadyIn(m, f, ps)} :: f in m ==> ReadyIn(m, f, ps)) &&
    (forall f, g :: f in m && g in m && f != g ==> Instance(m[f]) != Instance(m[g])) &&
    (forall p :: p in ps ==> p.nlri.family in m)
  }

  /** Groups the paths by family and packs each group. Nothing is returned when a split panics. */
  method CreateUpdateMsgFromPaths(pathList: seq<OutPath>, addPath: bool) returns (r: Option<seq<Message>>)
    requires forall p :: p in pathList ==> WellFormed(p)
    ensures r.None? <==> AnyOverflows(pathList, addPath)
    ensures r.Some? ==>
              multiset(OpsOfAll(r.value)) == multiset(Ops(pathList, addPath)) &&
              (forall m :: m in r.value ==> FitsMessage(m, addPath)) &&
              forall f :: MarkerLast(r.value, f, HasMarker(pathList, f))
    ensures r.Some? && NamesOnce(pathList) ==>
              ((forall rib :: Apply(rib, OpsOfAll(r.value)) == Apply(rib, Meaning(pathList))) <==>
               forall p :: p in pathList && !p.isEor ==> Deliverable(p, addPath))
  {
    var m: map<Family, Packer> := map[];
    for i := 0 to |pathList|
      invariant fresh(Instances(m)) && Grouped(m, pathList[..i])
    {
      assert pathList[..i + 1] == pathList[..i] + [pathList[i]];
      m := AddGrouped(m, pathList[i], pathList[..i]);
    }
    assert pathList[..|pathList|] == pathList;
    r := PackGroups(m, pathList, addPath);
    if r.Some? {
      AllFamilies(r.value, pathList, m.Keys, addPath);
      if NamesOnce(pathList) {
        PackingPreservesMeaning(pathList, r.value, addPath);
      }
    }
  }

  method AddGrouped(m: map<Family, Packer>, p: OutPath, ghost ps: seq<OutPath>) returns (r: map<Family, Packer>)
    requires Grouped(m, ps) && WellFormed(p)
    modifies Instances(m)
    ensures Grouped(r, ps + [p])
    ensures fresh(Instances(r) - Instances(m))
  {
    var f := p.nlri.family;
    r := WithPacker(m, f, ps);
    forall g | g in r && g != f
      ensures ReadyIn(r, g, ps + [p]) && Instance(r[g]) != Instance(r[f])
    {
      assert ReadyIn(r, g, ps);
      StaysReady(r[g], g, ps, p);
    }
    assert ReadyIn(r, f, ps);
    AddToOne(r, p, ps, ps + [p]);
    InOneMore(ps, p);
  }

  method AddToOne(m: map<Family, Packer>, p: OutPath, ghost ps: seq<OutPath>, ghost more: seq<OutPath>)
    requires p.nlri.family in m && WellFormed(p) && more == ps + [p]
    requires ReadyIn(m, p.nlri.family, ps)
    requires forall g {:trigger ReadyIn(m, g, more)} :: g in m && g != p.nlri.family ==> ReadyIn(m, g, more)
    requires forall g :: g in m && g != p.nlri.family ==> Instance(m[g]) != Instance(m[p.nlri.family])
    modifies Instance(m[p.nlri.family])
    ensures forall g {:trigger ReadyIn(m, g, more)} :: g in m ==> ReadyIn(m, g, more)
  {
    AddTo(m[p.nlri.family], p, ps);
    assert ReadyIn(m, p.nlri.family, more);
    forall g | g in m && g != p.nlri.family
      ensures ReadyIn(m, g, more)
    {
      assert ReadyIn(m, g, more) == old(ReadyIn(m, g, more));
    }
  }

  method WithPacker(m: map<Family, Packer>, f: Family, ghost ps: seq<OutPath>) returns (r: map<Family, Packer>)
    requires Grouped(m, ps)
    ensures Grouped(r, ps) && f in r && r.Keys == m.Keys + {f}
    ensures fresh(Instances(r) - Instances(m))
  {
    if f in m {
      return m;
    }
    NothingSoFar(ps, f);
    var k := NewPackerBeside(m, f, ps, Instances(m));
    assert forall g :: g in m ==> Instance(m[g]) in Instances(m);
    r := m[f := k];
    forall g | g in r
      ensures ReadyIn(r, g, ps)
    {
      assert g != f ==> r[g] == m[g] && ReadyIn(m, g, ps);
    }
    assert forall g, h :: g in r && h in r && g != h ==> Instance(r[g]) != Instance(r[h]);
  }

  method NewPackerBeside(m: map<Family, Packer>, f: Family, ghost ps: seq<OutPath>, ghost others: set<object>)
    returns (k: Packer)
    requires OfFamily(ps, f) == [] && forall g {:trigger ReadyIn(m, g, ps)} :: g in m ==> ReadyIn(m, g, ps)
    ensures fresh(Instance(k)) && Ready(k, f, ps)
    ensures forall g {:trigger ReadyIn(m, g, ps)} :: g in m ==> ReadyIn(m, g, ps)
    ensures Instance(k) !in others
  {
    k := NewPacker(f, ps);
    forall g | g in m
      ensures ReadyIn(m, g, ps)
    {
      assert ReadyIn(m, g, ps) == old(ReadyIn(m, g, ps));
    }
  }

  lemma StaysReady(k: Packer, f: Family, ps: seq<OutPath>, p: OutPath)
    requires Ready(k, f, ps) && p.nlri.family != f
    ensures Ready(k, f, ps + [p])
  {
    WhereOneMore(ps, p, OfFamilies({f}));
  }

  /** The families come in an arbitrary order. */
  method PackGroups(m: map<Family, Packer>, ghost ps: seq<OutPath>, addPath: bool) returns (r: Option<seq<Message>>)
    requires Grouped(m, ps)
    ensures if r.Some? then DeliversFamilies(r.value, ps, m.Keys, addPath) else AnyOverflows(ps, addPath)
  {
    var msgs, todo := [], m.Keys;
    ghost var done: set<Family> := {};
    DeliversNothing(ps, addPath);
    while todo != {}
      invariant done + todo == m.Keys && done !! todo
      invariant DeliversFamilies(msgs, ps, done, addPath)
    {
      var f :| f in todo;
      assert ReadyIn(m, f, ps) == old(ReadyIn(m, f, ps));
      r := PackNext(m, f, msgs, ps, done, addPath);
      if r.None? {
        return;
      }
      msgs := r.value;
      todo, done := todo - {f}, done + {f};
    }
    r := Some(msgs);
  }

  /** The messages so far with those of one more family. */
  method PackNext(m: map<Family, Packer>, f: Family, msgs: seq<Message>, ghost ps: seq<OutPath>,
                  ghost done: set<Family>, addPath: bool)
    returns (r: Option<seq<Message>>)
    requires f in m && ReadyIn(m, f, ps) && f !in done && DeliversFamilies(msgs, ps, done, addPath)
    ensures if r.Some? then DeliversFamilies(r.value, ps, done + {f}, addPath) else AnyOverflows(ps, addPath)
  {
    var some := PackFamily(m, f, ps, addPath);
    if some.None? {
      return None;
    }
    DeliversOneMore(msgs, some.value, ps, done, f, addPath);
    return Some(msgs + some.value);
  }

  method PackFamily(m: map<Family, Packer>, f: Family, ghost ps: seq<OutPath>, addPath: bool)
    returns (r: Option<seq<Message>>)
    requires f in m && ReadyIn(m, f, ps)
    ensures r.None? ==> AnyOverflows(ps, addPath)
    ensures r.Some? ==> Delivers(r.value, OfFamily(ps, f), f, addPath) && !AnyOverflows(OfFamily(ps, f), addPath)
  {
    r := PackOne(m[f], f, ps, addPath);
    if r.None? {
      OverflowsSomewhere(ps, f, addPath);
    }
  }

  lemma OverflowsSomewhere(ps: seq<OutPath>, f: Family, addPath: bool)
    requires AnyOverflows(OfFamily(ps, f), addPath)
    ensures AnyOverflows(ps, addPath)
  {
    WhereHolds(ps, OfFamilies({f}));
  }

  lemma AllFamilies(ms: seq<Message>, ps: seq<OutPath>, done: set<Family>, addPath: bool)
    requires DeliversFamilies(ms, ps, done, addPath)
    requires forall p :: p in ps ==> p.nlri.family in done
    ensures multiset(OpsOfAll(ms)) == multiset(Ops(ps, addPath))
    ensures forall f :: MarkerLast(ms, f, HasMarker(ps, f))
    ensures !AnyOverflows(ps, addPath)
  {
    EveryFamilyIn(ps, done, addPath);
    forall f | f !in done
      ensures MarkerLast(ms, f, HasMarker(ps, f))
    {
      NoMarkerOf(ms, ps, f);
    }
  }

  lemma EveryFamilyIn(ps: seq<OutPath>, done: set<Family>, addPath: bool)
    requires forall p :: p in ps ==> p.nlri.family in done
    ensures OpsIn(ps, OfFamilies(done), addPath) == multiset(Ops(ps, addPath))
  {
    var k := OfFamilies(done);
    assert forall p :: p in ps ==> Is(p, k);
    WhereAll(ps, k);
    OpsWhere(ps, k, addPath);
  }

  lemma NoMarkerOf(ms: seq<Message>, ps: seq<OutPath>, f: Family)
    requires forall m :: m in ms ==> MessageFamily(m) != f
    requires forall p :: p in ps ==> p.nlri.family != f
    ensures MarkerLast(ms, f, HasMarker(ps, f))
  {
    assert forall k :: 0 <= k < |ms| ==> ms[k] in ms;
  }

  lemma NothingSoFar(ps: seq<OutPath>, f: Family)
    requires forall p :: p in ps ==> p.nlri.family != f
    ensures OfFamily(ps, f) == []
  {
    NoneInGroup(ps, OfFamilies({f}));
    GroupOfWhere(ps, OfFamilies({f}));
    assert |multiset(OfFamily(ps, f))| == 0;
  }

  // ----- Applying the messages is applying the list

  /** What the list itself says, whether or not it can be sent. */
  function Meaning(ps: seq<OutPath>): seq<Op> {
    if ps == [] then []
    else
      var n := |ps| - 1;
      Meaning(ps[..n]) + if ps[n].isEor then [] else [OpOf(ps[n])]
  }

  /** No two operations disagree about a prefix. */
  predicate Unambiguous(ops: seq<Op>) {
    forall a, b :: a in ops && b in ops && a.nlri == b.nlri ==> a == b
  }

  /** What operations that agree leave of a table, in whatever order they come. */
  lemma {:induction false} ApplyUnambiguous(rib: Rib, ops: seq<Op>)
    requires Unambiguous(ops)
    ensures Effect(rib, Apply(rib, ops), ops)
  {
    if ops != [] {
      var k := |ops| - 1;
      assert forall op :: op in ops <==> op in ops[..k] || op == ops[k];
      ApplyUnambiguous(rib, ops[..k]);
      OneEffectMore(rib, Apply(rib, ops[..k]), ops[..k], ops[k], ops);
    }
  }

  lemma OneEffectMore(rib: Rib, r: Rib, before: seq<Op>, last: Op, ops: seq<Op>)
    requires Effect(rib, r, before) && Unambiguous(ops)
    requires forall op :: op in ops <==> op in before || op == last
    ensures Effect(rib, ApplyOp(r, last), ops)
  {
  }

  lemma OrderIsIrrelevant(rib: Rib, a: seq<Op>, b: seq<Op>)
    requires multiset(a) == multiset(b) && Unambiguous(a)
    ensures Apply(rib, a) == Apply(rib, b)
  {
    SameMembers(a, b);
    ApplyUnambiguous(rib, a);
    ApplyUnambiguous(rib, b);
    SameOpsSameEffect(rib, Apply(rib, a), Apply(rib, b), a);
  }

  /** `after` is what the operations that agree make of `rib`. */
  ghost predicate Effect(rib: Rib, after: Rib, ops: seq<Op>) {
    (forall op :: op in ops && op.Announce? ==> op.nlri in after && after[op.nlri] == op.attrs) &&
    (forall op :: op in ops && op.Remove? ==> op.nlri !in after) &&
    forall n :: (forall op :: op in ops ==> op.nlri != n) ==>
      (n in after <==> n in rib) && (n in rib ==> after[n] == rib[n])
  }

  lemma SameOpsSameEffect(rib: Rib, r1: Rib, r2: Rib, ops: seq<Op>)
    requires Effect(rib, r1, ops) && Effect(rib, r2, ops)
    ensures r1 == r2
  {
    forall n
      ensures n in r1 <==> n in r2
      ensures n in r1 && n in r2 ==> r1[n] == r2[n]
    {
      if op :| op in ops && op.nlri == n {
        assert op.Announce? || op.Remove?;
      }
    }
  }

  /** The list names each prefix with its path identifier at most once. */
  predicate NamesOnce(ps: seq<OutPath>) {
    forall i, j :: 0 <= i < j < |ps| && !ps[i].isEor && !ps[j].isEor ==> ps[i].nlri != ps[j].nlri
  }

  lemma {:induction false} MeaningIs(ps: seq<OutPath>, addPath: bool)
    ensures forall op :: op in Meaning(ps) <==> exists p :: p in ps && !p.isEor && OpOf(p) == op
    ensures forall op :: op in Ops(ps, addPath) <==> exists p :: p in ps && Deliverable(p, addPath) && OpOf(p) == op
  {
    if ps != [] {
      var n := |ps| - 1;
      MeaningIs(ps[..n], addPath);
      assert ps == ps[..n] + [ps[n]];
      InOneMore(ps[..n], ps[n]);
    }
  }

  lemma NamesOnceAgrees(ps: seq<OutPath>, addPath: bool)
    requires NamesOnce(ps)
    ensures Unambiguous(Meaning(ps)) && Unambiguous(Ops(ps, addPath))
    ensures forall p, q :: p in ps && q in ps && !p.isEor && !q.isEor && p.nlri == q.nlri ==> p == q
  {
    MeaningIs(ps, addPath);
    forall p, q | p in ps && q in ps && !p.isEor && !q.isEor && p.nlri == q.nlri
      ensures p == q
    {
      var i :| 0 <= i < |ps| && ps[i] == p;
      var j :| 0 <= j < |ps| && ps[j] == q;
      assert i == j;
    }
  }

  lemma {:induction false} AllDeliverable(ps: seq<OutPath>, addPath: bool)
    requires forall p :: p in ps && !p.isEor ==> Deliverable(p, addPath)
    ensures Ops(ps, addPath) == Meaning(ps)
  {
    if ps != [] {
      var n := |ps| - 1;
      assert ps[n] in ps;
      AllDeliverable(ps[..n], addPath);
    }
  }

  /** The messages of a list that names each prefix once do to every table what the list does,
      exactly if every path can be sent: the attributes of a batched path leave room for a prefix,
      and those of another announcement contain MP_REACH_NLRI. */
  lemma PackingPreservesMeaning(paths: seq<OutPath>, ms: seq<Message>, addPath: bool)
    requires NamesOnce(paths)
    requires multiset(OpsOfAll(ms)) == multiset(Ops(paths, addPath))
    ensures (forall rib :: Apply(rib, OpsOfAll(ms)) == Apply(rib, Meaning(paths)))
              <==> forall p :: p in paths && !p.isEor ==> Deliverable(p, addPath)
  {
    NamesOnceAgrees(paths, addPath);
    forall rib {
      OrderIsIrrelevant(rib, Ops(paths, addPath), OpsOfAll(ms));
    }
    if forall p :: p in paths && !p.isEor ==> Deliverable(p, addPath) {
      AllDeliverable(paths, addPath);
    } else {
      var p :| p in paths && !p.isEor && !Deliverable(p, addPath);
      UndeliveredIsMissing(paths, p, addPath);
      assert Apply(map[], Ops(paths, addPath)) != Apply(map[], Meaning(paths));
    }
  }

  lemma UndeliveredIsMissing(paths: seq<OutPath>, p: OutPath, addPath: bool)
    requires NamesOnce(paths) && p in paths && !p.isEor && !Deliverable(p, addPath)
    ensures p.nlri in Apply(map[], Meaning(paths)) && p.nlri !in Apply(map[], Ops(paths, addPath))
  {
    NamesOnceAgrees(paths, addPath);
    MeaningIs(paths, addPath);
    assert OpOf(p) in Meaning(paths);
    ApplyUnambiguous(map[], Meaning(paths));
    ApplyUnambiguous(map[], Ops(paths, addPath));
  }
}
