/** Capabilities in OPEN messages: what a speaker announces, and what two speakers conclude. */
module OpenNegotiation {
  import opened Common

  datatype Mode = Mode(receive: bool, send: bool)

  const NONE := Mode(false, false)

  /** The ADD-PATH settings of one configured family. */
  datatype AfiSafi = AfiSafi(family: Family, receive: bool, sendMax: nat) {
    function Directions(): Mode {
      Mode(receive, sendMax > 0)
    }
  }

  type Config = seq<AfiSafi>

  type Tuple = (Family, Mode)

  datatype Capability = RouteRefresh | MultiProtocol(family: Family) | FourOctetAs | AddPath(tuples: seq<Tuple>)

  type Modes = map<Family, Mode>

  // ----- What is announced

  /** The ADD-PATH tuples: families with neither direction are left out. */
  function Tuples(c: Config): seq<Tuple> {
    if c == [] then []
    else
      var af := c[|c| - 1];
      Tuples(c[..|c| - 1]) + if af.Directions() != NONE then [(af.family, af.Directions())] else []
  }

  method CapAddPathFromConfig(c: Config) returns (cap: Option<Capability>)
    ensures cap == if Tuples(c) == [] then None else Some(AddPath(Tuples(c)))
  {
    var tuples: seq<Tuple> := [];
    for i := 0 to |c|
      invariant tuples == Tuples(c[..i])
    {
      assert c[..i + 1][..i] == c[..i];
      if c[i].Directions() != NONE {
        tuples := tuples + [(c[i].family, c[i].Directions())];
      }
    }
    assert c[..|c|] == c;
    return if |tuples| == 0 then None else Some(AddPath(tuples));
  }

  /** Whether the capabilities are those of a configuration: its families, each in a capability of
      its own, and its ADD-PATH tuples. */
  predicate Announces(caps: seq<Capability>, c: Config) {
    MpFamilies(caps) == Families(c) && AllTuples(caps) == Tuples(c)
  }

  /** The families of the multiprotocol capabilities, in order. */
  function MpFamilies(caps: seq<Capability>): seq<Family> {
    if caps == [] then []
    else
      var n := |caps| - 1;
      MpFamilies(caps[..n]) + if caps[n].MultiProtocol? then [caps[n].family] else []
  }

  /** The tuples of all ADD-PATH capabilities, squashed into one list. */
  function AllTuples(caps: seq<Capability>): seq<Tuple> {
    if caps == [] then []
    else
      var n := |caps| - 1;
      AllTuples(caps[..n]) + if caps[n].AddPath? then caps[n].tuples else []
  }

  function Families(c: Config): (r: seq<Family>)
    ensures |r| == |c| && forall i :: 0 <= i < |c| ==> r[i] == c[i].family
  {
    seq(|c|, i requires 0 <= i < |c| => c[i].family)
  }

  lemma OneCapabilityMore(caps: seq<Capability>, cap: Capability)
    ensures MpFamilies(caps + [cap]) == MpFamilies(caps) + if cap.MultiProtocol? then [cap.family] else []
    ensures AllTuples(caps + [cap]) == AllTuples(caps) + if cap.AddPath? then cap.tuples else []
  {
    assert (caps + [cap])[..|caps|] == caps;
  }

  method CapabilitiesFromConfig(c: Config) returns (caps: seq<Capability>)
    ensures Announces(caps, c)
  {
    caps := [RouteRefresh];
    assert caps[..0] == [];
    for i := 0 to |c|
      invariant MpFamilies(caps) == Families(c)[..i] && AllTuples(caps) == []
    {
      OneCapabilityMore(caps, MultiProtocol(c[i].family));
      caps := caps + [MultiProtocol(c[i].family)];
    }
    OneCapabilityMore(caps, FourOctetAs);
    caps := caps + [FourOctetAs];
    var cap := CapAddPathFromConfig(c);
    if cap.Some? {
      OneCapabilityMore(caps, cap.value);
      caps := caps + [cap.value];
    }
  }

  // ----- What is concluded

  /** The mode per configured family; of several entries the last one counts. */
  function LocalModes(c: Config): Modes {
    if c == [] then map[]
    else LocalModes(c[..|c| - 1])[c[|c| - 1].family := c[|c| - 1].Directions()]
  }

  method CreateRfMap(c: Config) returns (m: Modes)
    ensures m == LocalModes(c)
  {
    m := map[];
    for i := 0 to |c|
      invariant m == LocalModes(c[..i])
    {
      assert c[..i + 1][..i] == c[..i];
      m := m[c[i].family := c[i].Directions()];
    }
    assert c[..|c|] == c;
  }

  /** The mode in the last tuple of the family, or none. */
  function ModeIn(tuples: seq<Tuple>, f: Family): Mode {
    if tuples == [] then NONE
    else
      var n := |tuples| - 1;
      if tuples[n].0 == f then tuples[n].1 else ModeIn(tuples[..n], f)
  }

  /** The families that a peer is taken to have: IPv4 unicast if it announces none. */
  function PeerFamilies(caps: seq<Capability>): seq<Family> {
    if MpFamilies(caps) == [] then [IPv4Unicast] else MpFamilies(caps)
  }

  function RemoteModes(caps: seq<Capability>): Modes {
    map f | f in PeerFamilies(caps) :: ModeIn(AllTuples(caps), f)
  }

  /** A direction is used if one side offers it and the other side the opposite one. */
  function Negotiated(local: Modes, remote: Modes): Modes {
    map f | f in local && f in remote ::
      Mode(local[f].receive && remote[f].send, local[f].send && remote[f].receive)
  }

  method Open2Cap(caps: seq<Capability>, c: Config) returns (negotiated: Modes)
    ensures negotiated == Negotiated(LocalModes(c), RemoteModes(caps))
  {
    var families, tuples := Squash(caps);
    if |families| == 0 {
      families := [IPv4Unicast];
    }
    var local := CreateRfMap(c);
    var remote: Modes := map[];
    for i := 0 to |families|
      invariant remote == map f | f in families[..i] :: ModeIn(tuples, f)
    {
      var mode := LastMode(tuples, families[i]);
      remote := remote[families[i] := mode];
      assert forall f :: f in families[..i + 1] <==> f in families[..i] || f == families[i];
    }
    assert families[..|families|] == families;
    negotiated := Combine(local, remote);
  }

  /** Sorts the capabilities by their codes and squashes those for ADD-PATH. */
  method Squash(caps: seq<Capability>) returns (families: seq<Family>, tuples: seq<Tuple>)
    ensures families == MpFamilies(caps) && tuples == AllTuples(caps)
  {
    families, tuples := [], [];
    for i := 0 to |caps|
      invariant families == MpFamilies(caps[..i]) && tuples == AllTuples(caps[..i])
    {
      assert caps[..i + 1] == caps[..i] + [caps[i]];
      OneCapabilityMore(caps[..i], caps[i]);
      match caps[i] {
        case MultiProtocol(f) => families := families + [f];
        case AddPath(ts) => tuples := tuples + ts;
        case RouteRefresh =>
        case FourOctetAs =>
      }
    }
    assert caps[..|caps|] == caps;
  }

  method LastMode(tuples: seq<Tuple>, f: Family) returns (mode: Mode)
    ensures mode == ModeIn(tuples, f)
  {
    mode := NONE;
    for i := 0 to |tuples|
      invariant mode == ModeIn(tuples[..i], f)
    {
      assert tuples[..i + 1][..i] == tuples[..i];
      if tuples[i].0 == f {
        mode := tuples[i].1;
      }
    }
    assert tuples[..|tuples|] == tuples;
  }

  method Combine(local: Modes, remote: Modes) returns (negotiated: Modes)
    ensures negotiated == Negotiated(local, remote)
  {
    negotiated := map[];
    var todo := local.Keys;
    while todo != {}
      invariant todo <= local.Keys
      invariant negotiated.Keys == (local.Keys - todo) * remote.Keys
      invariant forall f :: f in negotiated ==> negotiated[f] == Negotiated(local, remote)[f]
    {
      var f :| f in todo;
      if f in remote {
        var send := local[f].send && remote[f].receive;
        var receive := local[f].receive && remote[f].send;
        negotiated := negotiated[f := Mode(receive, send)];
      }
      todo := todo - {f};
    }
  }

  // ----- Two speakers

  /** What a speaker configured as `a` concludes from the capabilities of one configured as `b`. */
  function Concluded(a: Config, b: seq<Capability>): Modes {
    Negotiated(LocalModes(a), RemoteModes(b))
  }

  predicate HasFamily(c: Config, f: Family) {
    exists i :: 0 <= i < |c| && c[i].family == f
  }

  lemma {:induction false} LocalFamilies(c: Config)
    ensures forall f :: f in LocalModes(c) <==> HasFamily(c, f)
  {
    if c != [] {
      var n := |c| - 1;
      LocalFamilies(c[..n]);
      forall f
        ensures HasFamily(c, f) <==> HasFamily(c[..n], f) || c[n].family == f
      {
        if i :| 0 <= i < n && c[i].family == f {
          assert c[..n][i].family == f;
        }
      }
    }
  }

  lemma AnnouncedFamilies(caps: seq<Capability>, c: Config)
    requires Announces(caps, c)
    ensures forall f :: f in RemoteModes(caps) <==> if c == [] then f == IPv4Unicast else HasFamily(c, f)
  {
    if c != [] {
      forall f
        ensures f in Families(c) <==> HasFamily(c, f)
      {
        if i :| 0 <= i < |c| && c[i].family == f {
          assert Families(c)[i] == f;
        }
      }
    }
  }

  /** Both speakers conclude the same families, unless one has no family configured and the other
      has IPv4 unicast: the latter takes the former to have it too. */
  lemma SameFamiliesIff(a: Config, b: Config, capsA: seq<Capability>, capsB: seq<Capability>)
    requires Announces(capsA, a) && Announces(capsB, b)
    ensures Concluded(a, capsB).Keys == Concluded(b, capsA).Keys <==>
            !(a == [] && HasFamily(b, IPv4Unicast)) && !(b == [] && HasFamily(a, IPv4Unicast))
  {
    LocalFamilies(a);
    LocalFamilies(b);
    AnnouncedFamilies(capsA, a);
    AnnouncedFamilies(capsB, b);
    if a == [] && HasFamily(b, IPv4Unicast) {
      assert IPv4Unicast in Concluded(b, capsA) && IPv4Unicast !in Concluded(a, capsB);
    } else if b == [] && HasFamily(a, IPv4Unicast) {
      assert IPv4Unicast in Concluded(a, capsB) && IPv4Unicast !in Concluded(b, capsA);
    }
  }

  /** Each side sends additional paths for a family exactly if the other side receives them. */
  predicate Dual(m: Modes, n: Modes) {
    forall f :: f in m && f in n ==> (m[f].send <==> n[f].receive) && (m[f].receive <==> n[f].send)
  }

  /** No entry of the family offers a direction. */
  predicate Silent(c: Config, f: Family) {
    forall i :: 0 <= i < |c| && c[i].family == f ==> c[i].Directions() == NONE
  }

  /** A family whose last entry offers neither direction has no other entry that does. */
  predicate Consistent(c: Config) {
    forall f :: f in LocalModes(c) && LocalModes(c)[f] == NONE ==> Silent(c, f)
  }

  predicate DistinctFamilies(c: Config) {
    forall i, j :: 0 <= i < j < |c| ==> c[i].family != c[j].family
  }

  lemma {:induction false} LastEntry(c: Config, i: nat)
    requires i < |c| && forall j :: i < j < |c| ==> c[j].family != c[i].family
    ensures c[i].family in LocalModes(c) && LocalModes(c)[c[i].family] == c[i].Directions()
  {
    if i < |c| - 1 {
      LastEntry(c[..|c| - 1], i);
    }
  }

  lemma DistinctIsConsistent(c: Config)
    requires DistinctFamilies(c)
    ensures Consistent(c)
  {
    forall f | f in LocalModes(c) && LocalModes(c)[f] == NONE
      ensures Silent(c, f)
    {
      forall i | 0 <= i < |c| && c[i].family == f
        ensures c[i].Directions() == NONE
      {
        LastEntry(c, i);
      }
    }
  }

  /** A configured mode is what the peer learns, except that entries without direction are not
      announced and so cannot hide earlier ones. */
  lemma {:induction false} AnnouncedMode(c: Config, f: Family)
    ensures f in LocalModes(c) && LocalModes(c)[f] != NONE ==> ModeIn(Tuples(c), f) == LocalModes(c)[f]
    ensures ModeIn(Tuples(c), f) == NONE <==> Silent(c, f)
  {
    if c != [] {
      var n := |c| - 1;
      AnnouncedMode(c[..n], f);
      SilentOneMore(c[..n], c[n], f);
      assert c[..n] + [c[n]] == c;
      var before := Tuples(c[..n]);
      if c[n].Directions() != NONE {
        OneTupleMore(before, (c[n].family, c[n].Directions()), f);
      } else {
        assert before + [] == before;
      }
    }
  }

  lemma SilentOneMore(c: Config, af: AfiSafi, f: Family)
    ensures Silent(c + [af], f) <==> Silent(c, f) && (af.family == f ==> af.Directions() == NONE)
  {
    var d := c + [af];
    assert d[|c|] == af && forall i :: 0 <= i < |c| ==> d[i] == c[i];
  }

  lemma OneTupleMore(ts: seq<Tuple>, t: Tuple, f: Family)
    ensures ModeIn(ts + [t], f) == if t.0 == f then t.1 else ModeIn(ts, f)
  {
    assert (ts + [t])[..|ts|] == ts;
  }

  /** A configuration is consistent exactly if a peer learns the modes that the speaker goes by. */
  lemma ConsistentIff(c: Config)
    ensures Consistent(c) <==> forall f :: f in LocalModes(c) ==> ModeIn(Tuples(c), f) == LocalModes(c)[f]
  {
    if Consistent(c) {
      forall f | f in LocalModes(c)
        ensures ModeIn(Tuples(c), f) == LocalModes(c)[f]
      {
        AnnouncedMode(c, f);
      }
    } else {
      var f :| f in LocalModes(c) && LocalModes(c)[f] == NONE && !Silent(c, f);
      AnnouncedMode(c, f);
    }
  }

  /** Two speakers with consistent configurations that are not empty conclude dual modes. */
  lemma ConsistentIsDual(a: Config, b: Config, capsA: seq<Capability>, capsB: seq<Capability>)
    requires a != [] && b != [] && Consistent(a) && Consistent(b)
    requires Announces(capsA, a) && Announces(capsB, b)
    ensures Dual(Concluded(a, capsB), Concluded(b, capsA))
  {
    Learned(a, capsA);
    Learned(b, capsB);
  }

  lemma Learned(c: Config, caps: seq<Capability>)
    requires c != [] && Consistent(c) && Announces(caps, c)
    ensures RemoteModes(caps) == LocalModes(c)
  {
    ConsistentIff(c);
    LocalFamilies(c);
    AnnouncedFamilies(caps, c);
  }

  /** A configuration that is not empty agrees with that of every peer naming its families once,
      exactly if it is consistent. */
  lemma DualWithEveryPeerIff(a: Config, capsA: seq<Capability>)
    requires a != [] && Announces(capsA, a)
    ensures (forall b, capsB :: b != [] && DistinctFamilies(b) && Announces(capsB, b) ==>
              Dual(Concluded(a, capsB), Concluded(b, capsA))) <==> Consistent(a)
  {
    if Consistent(a) {
      forall b: Config, capsB | b != [] && DistinctFamilies(b) && Announces(capsB, b)
        ensures Dual(Concluded(a, capsB), Concluded(b, capsA))
      {
        DistinctIsConsistent(b);
        ConsistentIsDual(a, b, capsA, capsB);
      }
    } else {
      ConsistentIff(a);
      var f :| f in LocalModes(a) && ModeIn(Tuples(a), f) != LocalModes(a)[f];
      var b, capsB := WillingPeer(a, capsA, f);
    }
  }

  /** A peer that offers both directions for the family finds out. */
  lemma WillingPeer(a: Config, capsA: seq<Capability>, f: Family) returns (b: Config, capsB: seq<Capability>)
    requires a != [] && Announces(capsA, a) && f in LocalModes(a) && ModeIn(Tuples(a), f) != LocalModes(a)[f]
    ensures b != [] && DistinctFamilies(b) && Announces(capsB, b)
    ensures !Dual(Concluded(a, capsB), Concluded(b, capsA))
  {
    b := [AfiSafi(f, true, 1)];
    capsB := [MultiProtocol(f), AddPath(Tuples(b))];
    AnnouncesOne(f);
    DistinctIsConsistent(b);
    Learned(b, capsB);
    assert b[..0] == [] && LocalModes(b) == map[f := Mode(true, true)];
    LocalFamilies(a);
    AnnouncedFamilies(capsA, a);
    WithWillingPeer(LocalModes(a), RemoteModes(capsA), f);
  }

  lemma WithWillingPeer(local: Modes, remote: Modes, f: Family)
    requires f in local && f in remote && local[f] != remote[f]
    ensures var both := map[f := Mode(true, true)];
            !Dual(Negotiated(local, both), Negotiated(both, remote))
  {
    var both := map[f := Mode(true, true)];
    var m, n := Negotiated(local, both), Negotiated(both, remote);
    assert f in m && f in n;
    assert m[f] == local[f] && n[f] == Mode(remote[f].send, remote[f].receive);
  }

  lemma AnnouncesOne(f: Family)
    ensures var b := [AfiSafi(f, true, 1)];
            Announces([MultiProtocol(f), AddPath(Tuples(b))], b)
  {
    var b := [AfiSafi(f, true, 1)];
    var first := [MultiProtocol(f)];
    OneCapabilityMore([], MultiProtocol(f));
    assert [] + first == first;
    OneCapabilityMore(first, AddPath(Tuples(b)));
    assert first + [AddPath(Tuples(b))] == [MultiProtocol(f), AddPath(Tuples(b))];
    assert Families(b) == [f];
  }

  // ----- Hold time

  /** What an OPEN message carries of a configured hold time: whole seconds in 16 bits. */
  function OpenHoldTime(configured: real): nat
    requires 0.0 <= configured < 65536.0
  {
    configured.Floor
  }

  method NegotiateHoldTime(mine: real, keepaliveInterval: real, received: nat) returns (holdTime: real, keepalive: real)
    requires 0.0 <= mine < 65536.0
    ensures holdTime <= mine && holdTime <= received as real && (holdTime == mine || holdTime == received as real)
    ensures keepalive == if holdTime < mine then holdTime / 3.0 else keepaliveInterval
  {
    holdTime := if received as real > mine then mine else received as real;
    keepalive := keepaliveInterval;
    if holdTime < mine {
      keepalive := holdTime / 3.0;
    }
  }

  function Smaller(a: real, b: real): real {
    if a <= b then a else b
  }

  /** Both speakers use the same hold time exactly if the smaller one is whole seconds or both are
      the same apart from fractions; the former makes it the minimum. */
  lemma SameHoldTimeIff(a: real, b: real)
    requires 0.0 <= a < 65536.0 && 0.0 <= b < 65536.0
    ensures Smaller(a, OpenHoldTime(b) as real) == Smaller(b, OpenHoldTime(a) as real) <==>
            Smaller(a, b) == Smaller(a, b).Floor as real || OpenHoldTime(a) == OpenHoldTime(b)
    ensures Smaller(a, b) == Smaller(a, b).Floor as real ==> Smaller(a, OpenHoldTime(b) as real) == Smaller(a, b)
  {
    assert a.Floor as real <= a < (a.Floor + 1) as real && b.Floor as real <= b < (b.Floor + 1) as real;
    if a <= b {
      assert a.Floor <= b.Floor;
    } else {
      assert b.Floor <= a.Floor;
    }
  }
}
