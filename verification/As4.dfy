/** Translation of AS paths between speakers that know 4-byte AS numbers and speakers that do
    not: splitting a path into AS_PATH and AS4_PATH, and merging the two again (RFC 6793). */
module As4 {
  import opened Common
  import opened AsPaths

  const AS_TRANS := 23456
  const MAX_UINT16 := 65535

  /** A segment as it is held in an AS_PATH attribute: with 2-byte or with 4-byte AS numbers. */
  datatype Param = As2(seg: Segment) | As4(seg: Segment)

  datatype Attr =
    | AsPathAttr(params: seq<Param>)
    | As4PathAttr(segs: AsPath)
    | OtherAttr(id: nat)

  // ----- AS paths as sequences of units

  /** A path as its ASes, one by one, and its sets, each with the kind of its segment. */
  datatype Unit = One(confed: bool, asn: nat) | SetOf(confed: bool, asns: seq<nat>)

  function Ones(confed: bool, asns: seq<nat>): (u: seq<Unit>)
    ensures |u| == |asns|
  {
    if asns == [] then [] else [One(confed, asns[0])] + Ones(confed, asns[1..])
  }

  lemma {:induction false} OnesConcat(confed: bool, a: seq<nat>, b: seq<nat>)
    ensures Ones(confed, a + b) == Ones(confed, a) + Ones(confed, b)
  {
    if a == [] {
      assert a + b == b;
    } else {
      assert (a + b)[1..] == a[1..] + b;
      OnesConcat(confed, a[1..], b);
    }
  }

  function SegmentUnits(s: Segment): (u: seq<Unit>) {
    match s.typ
    case AsSequence => Ones(false, s.asns)
    case AsSet => [SetOf(false, s.asns)]
    case ConfedSequence => Ones(true, s.asns)
    case ConfedSet => [SetOf(true, s.asns)]
  }

  function Units(path: AsPath): seq<Unit> {
    if path == [] then [] else SegmentUnits(path[0]) + Units(path[1..])
  }

  /** How many of the units the length of a path counts: those outside confederations. */
  function Counted(u: seq<Unit>): nat {
    if u == [] then 0 else (if u[0].confed then 0 else 1) + Counted(u[1..])
  }

  lemma {:induction false} CountedConcat(u: seq<Unit>, v: seq<Unit>)
    ensures Counted(u + v) == Counted(u) + Counted(v)
  {
    if u == [] {
      assert u + v == v;
    } else {
      assert (u + v)[0] == u[0] && (u + v)[1..] == u[1..] + v;
      CountedConcat(u[1..], v);
    }
  }

  lemma {:induction false} CountedOnes(confed: bool, asns: seq<nat>)
    ensures Counted(Ones(confed, asns)) == if confed then 0 else |asns|
  {
    if asns != [] {
      CountedOnes(confed, asns[1..]);
      assert Ones(confed, asns)[1..] == Ones(confed, asns[1..]);
    }
  }

  lemma CountedSegment(s: Segment)
    ensures Counted(SegmentUnits(s)) == s.AsLen()
  {
    match s.typ
    case AsSequence => CountedOnes(false, s.asns);
    case AsSet => assert SegmentUnits(s)[1..] == [];
    case ConfedSequence => CountedOnes(true, s.asns);
    case ConfedSet => assert SegmentUnits(s)[1..] == [];
  }

  lemma {:induction false} CountedIsLength(path: AsPath)
    ensures Counted(Units(path)) == AsPathLen(path)
  {
    if path != [] {
      CountedIsLength(path[1..]);
      CountedSegment(path[0]);
      CountedConcat(SegmentUnits(path[0]), Units(path[1..]));
    }
  }

  lemma {:induction false} UnitsConcat(a: AsPath, b: AsPath)
    ensures Units(a + b) == Units(a) + Units(b)
  {
    if a == [] {
      assert a + b == b;
    } else {
      assert (a + b)[0] == a[0] && (a + b)[1..] == a[1..] + b;
      UnitsConcat(a[1..], b);
    }
  }

  // ----- From 4 bytes to 2 bytes

  function Trans(asn: nat): nat {
    if asn > MAX_UINT16 then AS_TRANS else asn
  }

  function TransSegment(s: Segment): Segment {
    Segment(s.typ, seq(|s.asns|, i requires 0 <= i < |s.asns| => Trans(s.asns[i])))
  }

  predicate HasWide(s: Segment) {
    exists i :: 0 <= i < |s.asns| && s.asns[i] > MAX_UINT16
  }

  function Narrowed(params: seq<Param>): (r: seq<Param>)
    ensures |r| == |params|
  {
    seq(|params|, i requires 0 <= i < |params| => As2(TransSegment(params[i].seg)))
  }

  /** The segments that go into AS4_PATH: the 4-byte ones outside confederations. */
  function Kept4(params: seq<Param>): AsPath {
    if params == [] then []
    else
      var n := |params| - 1;
      Kept4(params[..n]) + if params[n].As4? && !params[n].seg.IsConfed() then [params[n].seg] else []
  }

  predicate NeedsAs4(params: seq<Param>) {
    exists i :: 0 <= i < |params| && HasWide(params[i].seg)
  }

  /** The index of the first AS_PATH, or -1. */
  function FirstAsPath(attrs: seq<Attr>): (i: int)
    ensures -1 <= i < |attrs|
    ensures i >= 0 ==> attrs[i].AsPathAttr?
    ensures forall j :: 0 <= j < (if i < 0 then |attrs| else i) ==> !attrs[j].AsPathAttr?
  {
    if attrs == [] then -1
    else if attrs[0].AsPathAttr? then 0
    else var i := FirstAsPath(attrs[1..]); if i < 0 then -1 else i + 1
  }

  function To2Byte(attrs: seq<Attr>): seq<Attr> {
    var i := FirstAsPath(attrs);
    if i < 0 then attrs
    else
      var params := attrs[i].params;
      attrs[i := AsPathAttr(Narrowed(params))] + if NeedsAs4(params) then [As4PathAttr(Kept4(params))] else []
  }

  // ----- From 2 bytes to 4 bytes

  function Segments(params: seq<Param>): (r: AsPath)
    ensures |r| == |params|
  {
    seq(|params|, i requires 0 <= i < |params| => params[i].seg)
  }

  function Wide(path: AsPath): (r: seq<Param>)
    ensures |r| == |path|
  {
    seq(|path|, i requires 0 <= i < |path| => As4(path[i]))
  }

  /** How much of the path the code adds to its length for confederations. */
  function ConfedLen(path: AsPath): nat {
    if path == [] then 0
    else
      ConfedLen(path[1..]) + match path[0].typ
        case ConfedSet => 1
        case ConfedSequence => |path[0].asns|
        case _ => 0
  }

  /** The leading segments of the path up to the number `n` of ASes. */
  function Keep(path: AsPath, n: nat): (r: AsPath)
    ensures path != [] ==> r != []
    ensures SegmentsFit(path) ==> SegmentsFit(r)
  {
    if path == [] then []
    else if n >= path[0].AsLen() then
      [path[0]] + if n == path[0].AsLen() then [] else Keep(path[1..], n - path[0].AsLen())
    else [Segment(path[0].typ, if n <= |path[0].asns| then path[0].asns[..n] else [])]
  }

  /** Appends a segment, filling up a last sequence to 255 ASes when both are sequences. */
  function Join1(path: AsPath, s: Segment): (r: AsPath)
    requires path != [] && SegmentsFit(path)
    ensures r != [] && (|s.asns| <= 255 ==> SegmentsFit(r))
  {
    var last := path[|path| - 1];
    if s.typ == last.typ == AsSequence then
      var room := 255 - |last.asns|;
      if |s.asns| > room then
        path[|path| - 1 := Segment(AsSequence, last.asns + s.asns[..room])] + [Segment(AsSequence, s.asns[room..])]
      else path[|path| - 1 := Segment(AsSequence, last.asns + s.asns)]
    else path + [s]
  }

  function Join(path: AsPath, as4: AsPath): (r: AsPath)
    requires as4 != [] ==> path != []
    requires SegmentsFit(path) && SegmentsFit(as4)
    ensures SegmentsFit(r) && (path != [] ==> r != [])
  {
    if as4 == [] then path else Join1(Join(path, as4[..|as4| - 1]), as4[|as4| - 1])
  }

  /** How many ASes of the path the code keeps; negative when AS4_PATH is to be ignored. */
  function KeepNum(path: AsPath, use: AsPath): int {
    AsPathLen(path) + ConfedLen(path) - AsPathLen(use)
  }

  /** The merge with an AS4_PATH rid of confederation segments; a longer one is ignored. */
  function Combined(path: AsPath, use: AsPath): (r: AsPath)
    requires SegmentsFit(path) && SegmentsFit(use)
    requires path == [] && use != [] ==> KeepNum(path, use) < 0
    ensures SegmentsFit(r)
  {
    if KeepNum(path, use) < 0 then path else Join(Keep(path, KeepNum(path, use)), use)
  }

  /** The merge. None stands for the index out of range that the source runs into when AS_PATH
      has no segment at all. */
  function Merged(path: AsPath, as4: AsPath): Option<AsPath>
    requires SegmentsFit(path) && SegmentsFit(as4)
  {
    var use := WithoutConfed(as4);
    if path == [] && use != [] && KeepNum(path, use) >= 0 then None else Some(Combined(path, use))
  }

  // ----- What the merge means

  /** Keeping `n` ASes keeps that many, or all there are; but keeping none of a path that starts
      with a set leaves an empty set behind. */
  lemma {:induction false} KeepLength(path: AsPath, n: nat)
    requires path != []
    ensures AsPathLen(Keep(path, n)) ==
              if n == 0 && path[0].typ == AsSet then 1 else if n <= AsPathLen(path) then n else AsPathLen(path)
  {
    var p, len := path[0], path[0].AsLen();
    if n > len && path[1..] != [] {
      KeepLength(path[1..], n - len);
      assert Keep(path, n) == [p] + Keep(path[1..], n - len);
    } else if n >= len {
      assert Keep(path, n) == [p];
    }
  }

  lemma UnitsSnoc(path: AsPath, s: Segment)
    ensures Units(path + [s]) == Units(path) + SegmentUnits(s)
  {
    UnitsConcat(path, [s]);
    assert [s][1..] == [] && Units([]) == [];
    assert Units([s]) == SegmentUnits([s][0]) + Units([s][1..]);
  }

  /** A last sequence filled up has the units of what it is filled up with. */
  lemma FillUnits(before: AsPath, last: Segment, asns: seq<nat>)
    requires last.typ == AsSequence
    ensures Units(before + [Segment(AsSequence, last.asns + asns)]) == Units(before + [last]) + Ones(false, asns)
  {
    UnitsSnoc(before, Segment(AsSequence, last.asns + asns));
    UnitsSnoc(before, last);
    OnesConcat(false, last.asns, asns);
    ConcatAssociates(Units(before), Ones(false, last.asns), Ones(false, asns));
  }

  /** A sequence divided between the one before it and a new one keeps its units. */
  lemma OverflowUnits(before: AsPath, last: Segment, a: seq<nat>, b: seq<nat>)
    requires last.typ == AsSequence
    ensures Units((before + [Segment(AsSequence, last.asns + a)]) + [Segment(AsSequence, b)]) ==
            Units(before + [last]) + Ones(false, a + b)
  {
    FillUnits(before, last, a);
    UnitsSnoc(before + [Segment(AsSequence, last.asns + a)], Segment(AsSequence, b));
    OnesConcat(false, a, b);
    ConcatAssociates(Units(before + [last]), Ones(false, a), Ones(false, b));
  }

  lemma Join1Units(path: AsPath, s: Segment)
    requires path != [] && SegmentsFit(path)
    ensures Units(Join1(path, s)) == Units(path) + SegmentUnits(s)
  {
    var last := path[|path| - 1];
    if s.typ == last.typ == AsSequence {
      SequenceUnits(path, path[..|path| - 1], last, s);
    } else {
      UnitsSnoc(path, s);
    }
  }

  lemma SequenceUnits(path: AsPath, before: AsPath, last: Segment, s: Segment)
    requires path == before + [last] && SegmentsFit(path) && s.typ == last.typ == AsSequence
    ensures Units(Join1(path, s)) == Units(path) + SegmentUnits(s)
  {
    var room := 255 - |last.asns|;
    assert |last.asns| <= 255 by { assert path[|before|] == last; }
    if |s.asns| > room {
      var a, b := s.asns[..room], s.asns[room..];
      OverflowUnits(before, last, a, b);
      assert a + b == s.asns;
      assert Join1(path, s) == (before + [Segment(AsSequence, last.asns + a)]) + [Segment(AsSequence, b)];
    } else {
      FillUnits(before, last, s.asns);
      assert Join1(path, s) == before + [Segment(AsSequence, last.asns + s.asns)];
    }
  }

  lemma UnitsStep(path: AsPath, before: AsPath, s: Segment, j: AsPath, r: AsPath)
    requires Units(j) == Units(path) + Units(before) && Units(r) == Units(j) + SegmentUnits(s)
    ensures Units(r) == Units(path) + Units(before + [s])
  {
    UnitsSnoc(before, s);
    ConcatAssociates(Units(path), Units(before), SegmentUnits(s));
  }

  lemma {:induction false} JoinUnits(path: AsPath, as4: AsPath)
    requires as4 != [] ==> path != []
    requires SegmentsFit(path) && SegmentsFit(as4)
    ensures Units(Join(path, as4)) == Units(path) + Units(as4)
  {
    if as4 == [] {
      assert Units(path) + [] == Units(path);
    } else {
      var n := |as4| - 1;
      var j := Join(path, as4[..n]);
      JoinUnits(path, as4[..n]);
      JoinLastUnits(path, as4[..n], as4[n], j);
      LastSplit(as4);
      assert Join(path, as4) == Join1(j, as4[n]);
    }
  }

  lemma LastSplit<T>(s: seq<T>)
    requires s != []
    ensures s[..|s| - 1] + [s[|s| - 1]] == s
  {
  }

  lemma JoinLastUnits(path: AsPath, before: AsPath, s: Segment, j: AsPath)
    requires j != [] && SegmentsFit(j) && |s.asns| <= 255
    requires Units(j) == Units(path) + Units(before)
    ensures Units(Join1(j, s)) == Units(path) + Units(before + [s])
  {
    Join1Units(j, s);
    UnitsStep(path, before, s, j, Join1(j, s));
  }

  /** The leading part of a path with `k` ASes: the segments whose length fits, those of
      confederations having none, and a part of the next one. */
  function Leading(path: AsPath, k: nat): AsPath {
    if path == [] then []
    else if path[0].AsLen() <= k then [path[0]] + Leading(path[1..], k - path[0].AsLen())
    else if k == 0 then []
    else [Segment(path[0].typ, path[0].asns[..k])]
  }

  lemma {:induction false} LeadingLength(path: AsPath, k: nat)
    requires k <= AsPathLen(path)
    ensures AsPathLen(Leading(path, k)) == k
  {
    if path != [] && path[0].AsLen() <= k {
      LeadingLength(path[1..], k - path[0].AsLen());
      assert Leading(path, k)[0] == path[0] && Leading(path, k)[1..] == Leading(path[1..], k - path[0].AsLen());
    }
  }

  /** What section 4.2.3 of RFC 6793 asks for: the leading part of AS_PATH that AS4_PATH does not
      cover, then AS4_PATH; and AS_PATH alone when AS4_PATH is longer. Confederation segments are
      not counted, and are taken along when they lead or adjoin what is taken. */
  function Reconstructed(path: AsPath, use: AsPath): AsPath {
    if AsPathLen(use) > AsPathLen(path) then path
    else Leading(path, AsPathLen(path) - AsPathLen(use)) + use
  }

  /** The cases in which the code departs from it: confederation segments are counted although
      they have no length, and an AS_PATH that AS4_PATH covers entirely starts with a set. */
  predicate Departs(path: AsPath, use: AsPath) {
    var len, confed := AsPathLen(path), ConfedLen(path);
    && AsPathLen(use) <= len + confed
    && ((confed > 0 && AsPathLen(use) > 0) ||
        (path != [] && AsPathLen(use) == len && confed == 0 && path[0].typ == AsSet))
  }

  /** The length of the merge. */
  lemma CombinedLength(path: AsPath, use: AsPath)
    requires SegmentsFit(path) && SegmentsFit(use) && path != []
    ensures var n := KeepNum(path, use);
            AsPathLen(Combined(path, use)) ==
              if n < 0 then AsPathLen(path) else AsPathLen(Keep(path, n)) + AsPathLen(use)
  {
    var n := KeepNum(path, use);
    if n >= 0 {
      var k := Keep(path, n);
      JoinUnits(k, use);
      CountedConcat(Units(k), Units(use));
      CountedIsLength(k);
      CountedIsLength(use);
      CountedIsLength(Combined(path, use));
    }
  }

  /** The merge conserves the AS path length exactly outside those cases. */
  lemma LengthIffNotDeparting(path: AsPath, use: AsPath)
    requires SegmentsFit(path) && SegmentsFit(use) && path != []
    ensures AsPathLen(Combined(path, use)) == AsPathLen(path) <==> !Departs(path, use)
  {
    CombinedLength(path, use);
    if KeepNum(path, use) >= 0 {
      KeepLength(path, KeepNum(path, use));
    }
  }

  lemma ReconstructedLength(path: AsPath, use: AsPath)
    ensures Counted(Units(Reconstructed(path, use))) == AsPathLen(path)
  {
    if AsPathLen(use) > AsPathLen(path) {
      CountedIsLength(path);
    } else {
      var lead := Leading(path, AsPathLen(path) - AsPathLen(use));
      LeadingLength(path, AsPathLen(path) - AsPathLen(use));
      UnitsConcat(lead, use);
      CountedConcat(Units(lead), Units(use));
      CountedIsLength(lead);
      CountedIsLength(use);
    }
  }

  /** More room than the path has ASes keeps all of it. */
  lemma {:induction false} KeepAll(path: AsPath, n: nat)
    requires n > AsPathLen(path)
    ensures Keep(path, n) == path
  {
    if path != [] {
      var rest := n - path[0].AsLen();
      KeepAll(path[1..], rest);
      assert Keep(path, n) == [path[0]] + Keep(path[1..], rest);
      assert [path[0]] + path[1..] == path;
    }
  }

  lemma {:induction false} LeadingAll(path: AsPath)
    ensures Leading(path, AsPathLen(path)) == path
  {
    if path != [] {
      LeadingAll(path[1..]);
      assert [path[0]] + path[1..] == path;
    }
  }

  /** A path of length zero without confederation ASes has no unit. */
  lemma {:induction false} NothingLeads(path: AsPath)
    requires ConfedLen(path) == 0
    ensures Units(Leading(path, 0)) == []
  {
    if path != [] && path[0].AsLen() == 0 {
      NothingLeads(path[1..]);
      assert Leading(path, 0)[0] == path[0] && Leading(path, 0)[1..] == Leading(path[1..], 0);
      assert SegmentUnits(path[0]) == [];
    }
  }

  /** Without confederation ASes, what is kept are the units of the leading part. */
  lemma {:induction false} KeepIsLeading(path: AsPath, k: nat)
    requires path != [] && ConfedLen(path) == 0 && !(k == 0 && path[0].typ == AsSet)
    ensures Units(Keep(path, k)) == Units(Leading(path, k))
  {
    var p, len := path[0], path[0].AsLen();
    if len <= k {
      var rest := Leading(path[1..], k - len);
      assert Leading(path, k) == [p] + rest;
      UnitsConcat([p], rest);
      if k == len {
        NothingLeads(path[1..]);
        assert Keep(path, k) == [p];
        assert Units([p]) + [] == Units([p]);
      } else {
        var kept := Keep(path[1..], k - len);
        assert Keep(path, k) == [p] + kept;
        UnitsConcat([p], kept);
        if path[1..] != [] {
          KeepIsLeading(path[1..], k - len);
        }
      }
    } else if k == 0 {
      assert Keep(path, k) == [Segment(AsSequence, [])];
      assert Units([Segment(AsSequence, [])]) == [] + Units([]);
    }
  }

  /** The merge reconstructs the path, confederation segments included, exactly outside those cases. */
  lemma MergeIffNotDeparting(path: AsPath, use: AsPath)
    requires SegmentsFit(path) && SegmentsFit(use) && path != []
    ensures Units(Combined(path, use)) == Units(Reconstructed(path, use)) <==> !Departs(path, use)
  {
    LengthIffNotDeparting(path, use);
    ReconstructedLength(path, use);
    CountedIsLength(Combined(path, use));
    if !Departs(path, use) {
      MergeReconstructs(path, use);
    }
  }

  lemma MergeReconstructs(path: AsPath, use: AsPath)
    requires SegmentsFit(path) && SegmentsFit(use) && path != [] && !Departs(path, use)
    ensures Units(Combined(path, use)) == Units(Reconstructed(path, use))
  {
    if KeepNum(path, use) >= 0 {
      KeptIsLeading(path, use);
      JoinUnits(Keep(path, KeepNum(path, use)), use);
      UnitsConcat(Leading(path, AsPathLen(path) - AsPathLen(use)), use);
    }
  }

  lemma KeptIsLeading(path: AsPath, use: AsPath)
    requires path != [] && !Departs(path, use) && KeepNum(path, use) >= 0
    ensures AsPathLen(use) <= AsPathLen(path)
    ensures Units(Keep(path, KeepNum(path, use))) == Units(Leading(path, AsPathLen(path) - AsPathLen(use)))
  {
    var n, k := KeepNum(path, use), AsPathLen(path) - AsPathLen(use);
    if ConfedLen(path) == 0 {
      assert n == k;
      KeepIsLeading(path, k);
    } else {
      assert AsPathLen(use) == 0;
      assert Keep(path, n) == path by { KeepAll(path, n); }
      assert Leading(path, k) == path by { LeadingAll(path); }
    }
  }

  // ----- Splitting and merging again

  predicate AllWide(params: seq<Param>) {
    forall i :: 0 <= i < |params| ==> params[i].As4?
  }

  lemma {:induction false} NarrowingKeepsShape(params: seq<Param>)
    ensures var path, narrow := Segments(params), Segments(Narrowed(params));
            && AsPathLen(narrow) == AsPathLen(path) && ConfedLen(narrow) == ConfedLen(path)
            && (SegmentsFit(path) ==> SegmentsFit(narrow))
            && (!NeedsAs4(params) ==> narrow == path)
  {
    NarrowLength(params);
    NarrowConfed(params);
    var path, narrow := Segments(params), Segments(Narrowed(params));
    assert forall i :: 0 <= i < |path| ==> |narrow[i].asns| == |path[i].asns|;
    if !NeedsAs4(params) {
      forall i | 0 <= i < |params| ensures narrow[i] == path[i] {
        assert !HasWide(params[i].seg);
        assert TransSegment(params[i].seg).asns == params[i].seg.asns;
      }
    }
  }

  lemma {:induction false} NarrowLength(params: seq<Param>)
    ensures AsPathLen(Segments(Narrowed(params))) == AsPathLen(Segments(params))
  {
    if params != [] {
      NarrowLength(params[1..]);
      assert Segments(params)[1..] == Segments(params[1..]);
      assert Segments(Narrowed(params))[1..] == Segments(Narrowed(params[1..]));
    }
  }

  lemma {:induction false} NarrowConfed(params: seq<Param>)
    ensures ConfedLen(Segments(Narrowed(params))) == ConfedLen(Segments(params))
  {
    if params != [] {
      NarrowConfed(params[1..]);
      assert Segments(params)[1..] == Segments(params[1..]);
      assert Segments(Narrowed(params))[1..] == Segments(Narrowed(params[1..]));
    }
  }

  lemma {:induction false} Kept4IsWithoutConfed(params: seq<Param>)
    requires AllWide(params)
    ensures Kept4(params) == WithoutConfed(Segments(params))
  {
    if params != [] {
      var n := |params| - 1;
      Kept4IsWithoutConfed(params[..n]);
      assert Segments(params)[..n] == Segments(params[..n]);
    }
  }

  lemma ConfedLenSnoc(path: AsPath, s: Segment)
    ensures ConfedLen(path + [s]) == ConfedLen(path) + ConfedLen([s])
  {
    ConfedLenConcat(path, [s]);
  }

  lemma {:induction false} ConfedLenConcat(a: AsPath, b: AsPath)
    ensures ConfedLen(a + b) == ConfedLen(a) + ConfedLen(b)
  {
    if a == [] {
      assert a + b == b;
    } else {
      assert (a + b)[0] == a[0] && (a + b)[1..] == a[1..] + b;
      ConfedLenConcat(a[1..], b);
    }
  }

  /** Dropping the confederation segments drops no AS outside them, and no AS at all if they have none. */
  lemma {:induction false} DroppedUnits(path: AsPath)
    ensures AsPathLen(WithoutConfed(path)) == AsPathLen(path)
    ensures ConfedLen(path) == 0 ==> Units(WithoutConfed(path)) == Units(path)
    ensures ConfedLen(WithoutConfed(path)) == 0
  {
    if path != [] {
      var n := |path| - 1;
      var before, s := path[..n], path[n];
      DroppedUnits(before);
      assert path == before + [s];
      DroppedOneMore(before, s);
    }
  }

  lemma DroppedOneMore(before: AsPath, s: Segment)
    requires AsPathLen(WithoutConfed(before)) == AsPathLen(before) && ConfedLen(WithoutConfed(before)) == 0
    requires ConfedLen(before) == 0 ==> Units(WithoutConfed(before)) == Units(before)
    ensures var path := before + [s];
            && AsPathLen(WithoutConfed(path)) == AsPathLen(path) && ConfedLen(WithoutConfed(path)) == 0
            && (ConfedLen(path) == 0 ==> Units(WithoutConfed(path)) == Units(path))
  {
    var kept := WithoutConfed(before);
    SegmentDropped(before, s);
    LengthSnoc(before, s);
    ConfedLenSnoc(before, s);
    assert [s][0] == s && [s][1..] == [];
    if !s.IsConfed() {
      LengthSnoc(kept, s);
      ConfedLenSnoc(kept, s);
    }
    if ConfedLen(before + [s]) == 0 {
      UnitsOneMore(before, kept, s);
    }
  }

  lemma SegmentDropped(before: AsPath, s: Segment)
    ensures WithoutConfed(before + [s]) == if s.IsConfed() then WithoutConfed(before) else WithoutConfed(before) + [s]
  {
    assert (before + [s])[..|before|] == before;
    assert WithoutConfed(before) + [] == WithoutConfed(before);
  }

  lemma UnitsOneMore(before: AsPath, kept: AsPath, s: Segment)
    requires Units(kept) == Units(before) && ConfedLen([s]) == 0
    ensures Units(if s.IsConfed() then kept else kept + [s]) == Units(before + [s])
  {
    UnitsSnoc(before, s);
    UnitsSnoc(kept, s);
    assert [s][0] == s && [s][1..] == [];
    if s.IsConfed() {
      assert SegmentUnits(s) == [];
      assert Units(before) + [] == Units(before);
    }
  }

  lemma LengthSnoc(path: AsPath, s: Segment)
    ensures AsPathLen(path + [s]) == AsPathLen(path) + s.AsLen()
  {
    UnitsSnoc(path, s);
    CountedConcat(Units(path), SegmentUnits(s));
    CountedIsLength(path);
    CountedIsLength(path + [s]);
    CountedSegment(s);
  }

  lemma DropTwice(path: AsPath)
    ensures WithoutConfed(WithoutConfed(path)) == WithoutConfed(path)
  {
    NoConfed(WithoutConfed(path));
  }

  /** Some AS of the units needs four bytes. */
  predicate WideUnits(u: seq<Unit>) {
    exists i :: 0 <= i < |u| &&
      if u[i].One? then u[i].asn > MAX_UINT16 else exists j :: 0 <= j < |u[i].asns| && u[i].asns[j] > MAX_UINT16
  }

  lemma {:induction false} WideOnes(confed: bool, asns: seq<nat>)
    ensures WideUnits(Ones(confed, asns)) <==> exists i :: 0 <= i < |asns| && asns[i] > MAX_UINT16
  {
    if asns != [] {
      WideOnes(confed, asns[1..]);
      WideConcat([One(confed, asns[0])], Ones(confed, asns[1..]));
      assert WideUnits([One(confed, asns[0])]) <==> asns[0] > MAX_UINT16 by {
        assert [One(confed, asns[0])][0].One?;
      }
      assert asns == [asns[0]] + asns[1..];
    }
  }

  lemma WideConcat(u: seq<Unit>, v: seq<Unit>)
    ensures WideUnits(u + v) <==> WideUnits(u) || WideUnits(v)
  {
    assert forall i :: 0 <= i < |u| ==> (u + v)[i] == u[i];
    assert forall i :: 0 <= i < |v| ==> (u + v)[|u| + i] == v[i];
    if WideUnits(u + v) && !WideUnits(u) {
      var i :| 0 <= i < |u + v| &&
        if (u + v)[i].One? then (u + v)[i].asn > MAX_UINT16
        else exists j :: 0 <= j < |(u + v)[i].asns| && (u + v)[i].asns[j] > MAX_UINT16;
      assert i >= |u| && v[i - |u|] == (u + v)[i];
    }
  }

  lemma WideSegment(s: Segment)
    ensures WideUnits(SegmentUnits(s)) <==> HasWide(s)
  {
    if s.typ == AsSequence || s.typ == ConfedSequence {
      WideOnes(s.typ == ConfedSequence, s.asns);
    } else {
      assert SegmentUnits(s)[0].SetOf?;
    }
  }

  predicate HasWideSegment(path: AsPath) {
    exists i :: 0 <= i < |path| && HasWide(path[i])
  }

  lemma {:induction false} WidePath(path: AsPath)
    ensures WideUnits(Units(path)) <==> HasWideSegment(path)
  {
    if path != [] {
      WidePath(path[1..]);
      WideSegment(path[0]);
      WideConcat(SegmentUnits(path[0]), Units(path[1..]));
      assert path == [path[0]] + path[1..];
    }
  }

  /** No AS of the narrowed path needs four bytes, so its units are not those of a wide path. */
  lemma NarrowedDiffers(params: seq<Param>)
    requires NeedsAs4(params)
    ensures Units(Segments(Narrowed(params))) != Units(Segments(params))
  {
    var path, narrow := Segments(params), Segments(Narrowed(params));
    WidePath(path);
    WidePath(narrow);
    var i :| 0 <= i < |params| && HasWide(params[i].seg);
    assert HasWide(path[i]);
    assert forall j :: 0 <= j < |narrow| ==> narrow[j] == TransSegment(params[j].seg);
  }

  /** A path split for a 2-byte speaker and merged again has every AS back, confederation ASes
      included, if and only if no AS number was too wide, or the path has no confederation AS or
      set and does not start with a set. */
  lemma RoundTrip(params: seq<Param>)
    requires AllWide(params) && SegmentsFit(Segments(params))
    ensures var path, narrow := Segments(params), Segments(Narrowed(params));
            if !NeedsAs4(params) then narrow == path
            else
              && SegmentsFit(narrow) && SegmentsFit(Kept4(params))
              && Merged(narrow, Kept4(params)) == Some(Combined(narrow, Kept4(params)))
              && (Units(Combined(narrow, Kept4(params))) == Units(path) <==>
                    ConfedLen(path) == 0 && path[0].typ != AsSet)
  {
    NarrowingKeepsShape(params);
    if NeedsAs4(params) {
      KeptFits(params);
      NarrowedAlike(params);
      var path := Segments(params);
      if ConfedLen(path) == 0 && path[0].typ != AsSet {
        RestoredWithoutConfed(params);
      } else {
        NotRestored(params);
      }
    }
  }

  lemma KeptFits(params: seq<Param>)
    requires AllWide(params) && SegmentsFit(Segments(params))
    ensures SegmentsFit(Kept4(params)) && WithoutConfed(Kept4(params)) == Kept4(params)
    ensures AsPathLen(Kept4(params)) == AsPathLen(Segments(params)) && ConfedLen(Kept4(params)) == 0
    ensures ConfedLen(Segments(params)) == 0 ==> Units(Kept4(params)) == Units(Segments(params))
  {
    Kept4IsWithoutConfed(params);
    DroppedUnits(Segments(params));
    DropTwice(Segments(params));
  }

  lemma RestoredWithoutConfed(params: seq<Param>)
    requires AllWide(params) && NeedsAs4(params) && SegmentsFit(Segments(params))
    requires SegmentsFit(Segments(Narrowed(params))) && SegmentsFit(Kept4(params))
    requires ConfedLen(Segments(params)) == 0 && Segments(params)[0].typ != AsSet
    ensures Units(Combined(Segments(Narrowed(params)), Kept4(params))) == Units(Segments(params))
  {
    var narrow, use := Segments(Narrowed(params)), Kept4(params);
    KeptFits(params);
    NarrowedAlike(params);
    CoveredEntirely(narrow, use);
  }

  /** An AS4_PATH that covers all of AS_PATH takes its place. */
  lemma CoveredEntirely(path: AsPath, use: AsPath)
    requires SegmentsFit(path) && SegmentsFit(use) && path != []
    requires AsPathLen(use) == AsPathLen(path) && ConfedLen(path) == 0 && path[0].typ != AsSet
    ensures Units(Combined(path, use)) == Units(use)
  {
    MergeIffNotDeparting(path, use);
    NothingLeads(path);
    UnitsConcat(Leading(path, 0), use);
    assert [] + Units(use) == Units(use);
  }

  lemma NotRestored(params: seq<Param>)
    requires AllWide(params) && NeedsAs4(params) && SegmentsFit(Segments(params))
    requires SegmentsFit(Segments(Narrowed(params))) && SegmentsFit(Kept4(params))
    requires ConfedLen(Segments(params)) > 0 || Segments(params)[0].typ == AsSet
    ensures Units(Combined(Segments(Narrowed(params)), Kept4(params))) != Units(Segments(params))
  {
    var path, narrow, use := Segments(params), Segments(Narrowed(params)), Kept4(params);
    KeptFits(params);
    NarrowedAlike(params);
    if AsPathLen(path) > 0 {
      LengthIffNotDeparting(narrow, use);
      CountedIsLength(path);
      CountedIsLength(Combined(narrow, use));
    } else {
      assert path[0].AsLen() == 0;
      NothingToMerge(narrow, use);
      NarrowedDiffers(params);
    }
  }

  /** A path of confederation ASes only stays as it is when nothing is in AS4_PATH. */
  lemma NothingToMerge(path: AsPath, use: AsPath)
    requires SegmentsFit(path) && SegmentsFit(use) && path != []
    requires AsPathLen(path) == AsPathLen(use) == ConfedLen(use) == 0 < ConfedLen(path)
    ensures Units(Combined(path, use)) == Units(path)
  {
    KeepAll(path, ConfedLen(path));
    JoinUnits(path, use);
    LeadingAll(use);
    NothingLeads(use);
    assert Units(path) + [] == Units(path);
  }

  /** No two adjacent sequences leave room for merging, and none that follows another is empty. */
  predicate Unmergeable(path: AsPath) {
    forall i :: 0 <= i < |path| - 1 && path[i].typ == path[i + 1].typ == AsSequence ==>
      |path[i].asns| == 255 && path[i + 1].asns != []
  }

  /** Joining the next segment of such a path just appends it. */
  lemma Join1Appends(before: AsPath, s: Segment)
    requires before != [] && SegmentsFit(before)
    requires s.typ == before[|before| - 1].typ == AsSequence ==> |before[|before| - 1].asns| == 255 && s.asns != []
    ensures Join1(before, s) == before + [s]
  {
    var last := before[|before| - 1];
    if s.typ == last.typ == AsSequence {
      assert last.asns + s.asns[..0] == last.asns && s.asns[0..] == s.asns;
      assert before[|before| - 1 := last] == before;
    }
  }

  lemma {:induction false} JoinRebuilds(path: AsPath)
    requires SegmentsFit(path) && Unmergeable(path) && path != [] && path[0].typ == AsSequence
    ensures Join([Segment(AsSequence, [])], path) == path
  {
    if |path| == 1 {
      JoinFirst(path[0]);
      assert path == [path[0]];
    } else {
      var front, last := path[..|path| - 1], path[|path| - 1];
      UnmergeableFront(path);
      JoinRebuilds(front);
      JoinRebuildsOneMore(front, last);
      assert path == front + [last];
    }
  }

  lemma UnmergeableFront(path: AsPath)
    requires SegmentsFit(path) && Unmergeable(path) && |path| > 1
    ensures var front, s := path[..|path| - 1], path[|path| - 1];
            SegmentsFit(front) && Unmergeable(front) && |s.asns| <= 255 && front[0] == path[0] &&
            (s.typ == front[|front| - 1].typ == AsSequence ==> |front[|front| - 1].asns| == 255 && s.asns != [])
  {
    var i := |path| - 2;
    assert path[i].typ == path[i + 1].typ == AsSequence ==> |path[i].asns| == 255;
  }

  lemma JoinRebuildsOneMore(before: AsPath, s: Segment)
    requires before != [] && SegmentsFit(before) && |s.asns| <= 255
    requires s.typ == before[|before| - 1].typ == AsSequence ==> |before[|before| - 1].asns| == 255 && s.asns != []
    requires Join([Segment(AsSequence, [])], before) == before
    ensures SegmentsFit(before + [s]) && Join([Segment(AsSequence, [])], before + [s]) == before + [s]
  {
    assert (before + [s])[..|before|] == before;
    Join1Appends(before, s);
  }

  lemma JoinFirst(s: Segment)
    requires s.typ == AsSequence && |s.asns| <= 255
    ensures SegmentsFit([s]) && Join([Segment(AsSequence, [])], [s]) == [s]
  {
    var start := [Segment(AsSequence, [])];
    assert [s][..0] == [] && Join(start, []) == start;
    assert [] + s.asns == s.asns;
    assert Join1(start, s) == [s];
  }

  lemma CombinedExact(narrow: AsPath, path: AsPath)
    requires SegmentsFit(narrow) && SegmentsFit(path) && narrow != [] && path != []
    requires AsPathLen(narrow) == AsPathLen(path) && ConfedLen(narrow) == 0
    requires narrow[0].typ == path[0].typ == AsSequence && Unmergeable(path)
    ensures Combined(narrow, path) == path
  {
    var k := Keep(narrow, 0);
    assert k == [Segment(AsSequence, [])] by {
      assert narrow[0].asns == [] ==> narrow[0] == Segment(AsSequence, []);
      assert narrow[0].asns[..0] == [];
    }
    JoinRebuilds(path);
  }

  /** Without confederations, from a sequence on, and with nothing to merge, the very segments
      come back. */
  lemma RoundTripExact(params: seq<Param>)
    requires AllWide(params) && NeedsAs4(params) && SegmentsFit(Segments(params))
    requires ConfedLen(Segments(params)) == 0 && forall i :: 0 <= i < |params| ==> !params[i].seg.IsConfed()
    requires params[0].seg.typ == AsSequence && Unmergeable(Segments(params))
    ensures SegmentsFit(Segments(Narrowed(params))) && SegmentsFit(Kept4(params))
    ensures Kept4(params) == Segments(params) && WithoutConfed(Kept4(params)) == Kept4(params)
    ensures Combined(Segments(Narrowed(params)), Kept4(params)) == Segments(params)
  {
    KeptExactly(params);
    NarrowedAlike(params);
    CombinedExact(Segments(Narrowed(params)), Segments(params));
  }

  lemma KeptExactly(params: seq<Param>)
    requires AllWide(params) && forall i :: 0 <= i < |params| ==> !params[i].seg.IsConfed()
    ensures Kept4(params) == Segments(params) && WithoutConfed(Segments(params)) == Segments(params)
  {
    Kept4IsWithoutConfed(params);
    NoConfed(Segments(params));
  }

  lemma NarrowedAlike(params: seq<Param>)
    requires params != [] && SegmentsFit(Segments(params))
    ensures var path, narrow := Segments(params), Segments(Narrowed(params));
            SegmentsFit(narrow) && narrow != [] && narrow[0].typ == path[0].typ &&
            AsPathLen(narrow) == AsPathLen(path) && ConfedLen(narrow) == ConfedLen(path)
  {
    NarrowingKeepsShape(params);
  }

  // ----- The message that is rewritten

  function WidenAttr(a: Attr): Attr {
    if a.AsPathAttr? then AsPathAttr(Wide(Segments(a.params))) else a
  }

  function Widened(attrs: seq<Attr>): (r: seq<Attr>)
    ensures |r| == |attrs|
  {
    seq(|attrs|, i requires 0 <= i < |attrs| => WidenAttr(attrs[i]))
  }

  /** The index of the last AS_PATH, or of the last AS4_PATH, or -1. */
  function LastOf(attrs: seq<Attr>, as4: bool): (i: int)
    ensures -1 <= i < |attrs|
    ensures i >= 0 ==> if as4 then attrs[i].As4PathAttr? else attrs[i].AsPathAttr?
    ensures forall j :: i < j < |attrs| ==> !(if as4 then attrs[j].As4PathAttr? else attrs[j].AsPathAttr?)
  {
    if attrs == [] then -1
    else
      var n := |attrs| - 1;
      if (if as4 then attrs[n].As4PathAttr? else attrs[n].AsPathAttr?) then n else LastOf(attrs[..n], as4)
  }

  predicate AttrsFit(attrs: seq<Attr>) {
    forall i :: 0 <= i < |attrs| ==> match attrs[i]
      case AsPathAttr(params) => SegmentsFit(Segments(params))
      case As4PathAttr(segs) => SegmentsFit(segs)
      case OtherAttr(_) => true
  }

  /** The attributes after AS_PATH and AS4_PATH have been merged. The position of AS_PATH is the
      one it had before AS4_PATH was taken out. None stands for an index out of range. */
  function To4Byte(attrs: seq<Attr>): Option<seq<Attr>>
    requires AttrsFit(attrs)
  {
    var i, j := LastOf(attrs, false), LastOf(attrs, true);
    if j < 0 then Some(Widened(attrs))
    else
      var rest := RemoveAt(Widened(attrs), j);
      if i < 0 then Some(rest)
      else
        assert SegmentsFit(Segments(attrs[i].params)) && SegmentsFit(attrs[j].segs);
        var path, use := Segments(attrs[i].params), WithoutConfed(attrs[j].segs);
        if KeepNum(path, use) < 0 then Some(rest)
        else if (path == [] && use != []) || i >= |rest| then None
        else Some(rest[i := AsPathAttr(Wide(Combined(path, use)))])
  }

  /** With AS_PATH before AS4_PATH the merge lands in AS_PATH. The other way round it overwrites
      the attribute that follows AS_PATH, or runs out of range when there is none. */
  lemma PositionMatters(attrs: seq<Attr>)
    requires AttrsFit(attrs) && LastOf(attrs, false) >= 0 && LastOf(attrs, true) >= 0
    requires var path := Segments(attrs[LastOf(attrs, false)].params);
             path != [] && KeepNum(path, WithoutConfed(attrs[LastOf(attrs, true)].segs)) >= 0
    ensures var i, j, r := LastOf(attrs, false), LastOf(attrs, true), To4Byte(attrs);
            if i < j then
              r.Some? && i < |r.value| &&
              exists merged :: r.value[i] == AsPathAttr(Wide(merged)) && merged != [] &&
                r.value == RemoveAt(Widened(attrs), j)[i := AsPathAttr(Wide(merged))]
            else if i == |attrs| - 1 then r == None
            else r.Some? && r.value[i - 1] == WidenAttr(attrs[i]) && |r.value| == |attrs| - 1 &&
                 r.value[i].AsPathAttr?
  {
    var i, j := LastOf(attrs, false), LastOf(attrs, true);
    if i < |attrs| - 1 {
      var merged := MergesInto(attrs, i, j);
      MovedUp(attrs, i, j, AsPathAttr(Wide(merged)));
    } else {
      NowhereToMerge(attrs, i, j);
    }
  }

  lemma NowhereToMerge(attrs: seq<Attr>, i: nat, j: nat)
    requires AttrsFit(attrs) && i == LastOf(attrs, false) == |attrs| - 1 && j == LastOf(attrs, true)
    requires KeepNum(Segments(attrs[i].params), WithoutConfed(attrs[j].segs)) >= 0
    ensures To4Byte(attrs) == None
  {
  }

  lemma MovedUp(attrs: seq<Attr>, i: nat, j: nat, a: Attr)
    requires i < |attrs| - 1 && j < |attrs|
    ensures var r := RemoveAt(Widened(attrs), j)[i := a];
            |r| == |attrs| - 1 && r[i] == a && (i > j ==> r[i - 1] == WidenAttr(attrs[i]))
  {
    assert i > j ==> RemoveAt(Widened(attrs), j)[i - 1] == Widened(attrs)[i];
  }

  /** The merge replaces what is at the old position of AS_PATH once AS4_PATH is gone. */
  lemma MergesInto(attrs: seq<Attr>, i: nat, j: nat) returns (merged: AsPath)
    requires AttrsFit(attrs) && i == LastOf(attrs, false) < |attrs| - 1 && j == LastOf(attrs, true)
    requires Segments(attrs[i].params) != []
    requires KeepNum(Segments(attrs[i].params), WithoutConfed(attrs[j].segs)) >= 0
    ensures merged != [] && To4Byte(attrs) == Some(RemoveAt(Widened(attrs), j)[i := AsPathAttr(Wide(merged))])
  {
    assert SegmentsFit(Segments(attrs[i].params)) && SegmentsFit(attrs[j].segs);
    merged := Combined(Segments(attrs[i].params), WithoutConfed(attrs[j].segs));
  }

  /** What splitting and merging again leaves of the AS_PATH with these segments. */
  function Returned(params: seq<Param>): AsPath
    requires AllWide(params) && SegmentsFit(Segments(params))
  {
    RoundTrip(params);
    if NeedsAs4(params) then Combined(Segments(Narrowed(params)), Kept4(params)) else Segments(params)
  }

  /** A message whose only AS path is at `i`. */
  predicate OneAsPath(attrs: seq<Attr>, i: nat) {
    && i < |attrs| && attrs[i].AsPathAttr? && AllWide(attrs[i].params) && SegmentsFit(Segments(attrs[i].params))
    && forall j :: 0 <= j < |attrs| && j != i ==> attrs[j].OtherAttr?
  }

  lemma TwoBytePositions(attrs: seq<Attr>, i: nat)
    requires OneAsPath(attrs, i)
    ensures var two, params := To2Byte(attrs), attrs[i].params;
            && AttrsFit(two) && LastOf(two, false) == i && two[i] == AsPathAttr(Narrowed(params))
            && two[..|attrs|] == attrs[i := AsPathAttr(Narrowed(params))]
            && if NeedsAs4(params) then
                 |two| == |attrs| + 1 && two[|attrs|] == As4PathAttr(Kept4(params)) && LastOf(two, true) == |attrs|
               else |two| == |attrs| && LastOf(two, true) == -1
  {
    var params := attrs[i].params;
    RoundTrip(params);
    NarrowingKeepsShape(params);
    assert FirstAsPath(attrs) == i;
    var two := To2Byte(attrs);
    assert two[i] == AsPathAttr(Narrowed(params));
    assert forall j :: 0 <= j < |attrs| && j != i ==> two[j] == attrs[j];
  }

  /** On a whole message whose only AS path is at `i`, all other attributes come back untouched,
      in place, and nothing is left over. */
  lemma MessageRoundTrip(attrs: seq<Attr>, i: nat)
    requires OneAsPath(attrs, i)
    ensures AttrsFit(To2Byte(attrs))
    ensures To4Byte(To2Byte(attrs)) == Some(attrs[i := AsPathAttr(Wide(Returned(attrs[i].params)))])
  {
    var params, two := attrs[i].params, To2Byte(attrs);
    var narrow := Segments(Narrowed(params));
    var expected := attrs[i := AsPathAttr(Wide(Returned(params)))];
    TwoBytePositions(attrs, i);
    assert forall j :: 0 <= j < |attrs| && j != i ==> two[..|attrs|][j] == attrs[j];
    RoundTrip(params);
    if NeedsAs4(params) {
      MergesBack(attrs, i);
    } else {
      assert Widened(two) == expected;
    }
  }

  lemma MergesBack(attrs: seq<Attr>, i: nat)
    requires OneAsPath(attrs, i) && NeedsAs4(attrs[i].params) && AttrsFit(To2Byte(attrs))
    ensures To4Byte(To2Byte(attrs)) == Some(attrs[i := AsPathAttr(Wide(Returned(attrs[i].params)))])
  {
    var params, two := attrs[i].params, To2Byte(attrs);
    TwoBytePositions(attrs, i);
    RoundTrip(params);
    Returns4(params);
    OthersBack(attrs, i, AsPathAttr(Wide(Returned(params))));
  }

  /** Once AS4_PATH is gone, the other attributes are where they were. */
  lemma OthersBack(attrs: seq<Attr>, i: nat, a: Attr)
    requires OneAsPath(attrs, i) && NeedsAs4(attrs[i].params)
    ensures |To2Byte(attrs)| == |attrs| + 1
    ensures RemoveAt(Widened(To2Byte(attrs)), |attrs|)[i := a] == attrs[i := a]
  {
    TwoBytePositions(attrs, i);
    var two := To2Byte(attrs);
    var rest := RemoveAt(Widened(two), |attrs|);
    assert |rest| == |attrs|;
    forall j | 0 <= j < |attrs| && j != i
      ensures rest[j] == attrs[j]
    {
      assert two[..|attrs|][j] == attrs[j];
    }
  }

  lemma Returns4(params: seq<Param>)
    requires AllWide(params) && SegmentsFit(Segments(params)) && NeedsAs4(params)
    ensures WithoutConfed(Kept4(params)) == Kept4(params)
    ensures KeepNum(Segments(Narrowed(params)), Kept4(params)) >= 0
  {
    NarrowingKeepsShape(params);
    KeptFits(params);
  }

  /** One segment more of the kept part. */
  lemma KeepStep(kept: AsPath, path: AsPath, i: nat, n: nat)
    requires i < |path|
    ensures var s := path[i];
            kept + Keep(path[i..], n) ==
              if n > s.AsLen() then kept + [s] + Keep(path[i + 1..], n - s.AsLen())
              else if n == s.AsLen() then kept + [s]
              else kept + [Segment(s.typ, if n <= |s.asns| then s.asns[..n] else [])]
  {
    assert path[i..][0] == path[i] && path[i..][1..] == path[i + 1..];
    if n > path[i].AsLen() {
      ConcatAssociates(kept, [path[i]], Keep(path[i + 1..], n - path[i].AsLen()));
    }
  }

  class BgpUpdate {
    var pathAttributes: seq<Attr>

    constructor (attrs: seq<Attr>)
      ensures pathAttributes == attrs
    {
      pathAttributes := attrs;
    }

    /** Rewrites the AS path for a speaker without 4-byte AS numbers. */
    method UpdatePathAttrs2ByteAs()
      modifies this
      ensures pathAttributes == To2Byte(old(pathAttributes))
    {
      ghost var attrs := pathAttributes;
      var idx := -1;
      for i := 0 to |pathAttributes|
        invariant idx == -1 && pathAttributes == old(pathAttributes)
        invariant forall j :: 0 <= j < i ==> !pathAttributes[j].AsPathAttr?
      {
        if pathAttributes[i].AsPathAttr? {
          idx := i;
          break;
        }
      }
      assert idx == FirstAsPath(attrs);
      if idx == -1 {
        return;
      }
      var params := pathAttributes[idx].params;
      var as2Params, as4Params, mkAs4 := [], [], false;
      for i := 0 to |params|
        invariant as2Params == Narrowed(params[..i]) && as4Params == Kept4(params[..i])
        invariant mkAs4 <==> NeedsAs4(params[..i])
        invariant pathAttributes == old(pathAttributes)
      {
        assert params[..i + 1][..i] == params[..i];
        var wide, asns := NarrowAsns(params[i].seg);
        assert wide <==> HasWide(params[..i + 1][i].seg);
        mkAs4 := mkAs4 || wide;
        as2Params := as2Params + [As2(Segment(params[i].seg.typ, asns))];
        if params[i].As4? && !params[i].seg.IsConfed() {
          as4Params := as4Params + [params[i].seg];
        }
      }
      assert params[..|params|] == params;
      pathAttributes := pathAttributes[idx := AsPathAttr(as2Params)];
      if mkAs4 {
        pathAttributes := pathAttributes + [As4PathAttr(as4Params)];
      }
    }

    method NarrowAsns(s: Segment) returns (wide: bool, asns: seq<nat>)
      ensures wide <==> HasWide(s)
      ensures asns == TransSegment(s).asns
    {
      wide, asns := false, [];
      for i := 0 to |s.asns|
        invariant |asns| == i && forall j :: 0 <= j < i ==> asns[j] == Trans(s.asns[j])
        invariant wide <==> exists j :: 0 <= j < i && s.asns[j] > MAX_UINT16
      {
        if s.asns[i] > MAX_UINT16 {
          wide := true;
          asns := asns + [AS_TRANS];
        } else {
          asns := asns + [s.asns[i]];
        }
      }
    }

    /** The counting loop over AS_PATH. */
    method KeepLoop(asParams: AsPath, keep: nat) returns (newParams: AsPath)
      ensures newParams == Keep(asParams, keep)
    {
      newParams := [];
      var keepNum: nat := keep;
      for i := 0 to |asParams|
        invariant newParams + Keep(asParams[i..], keepNum) == Keep(asParams, keep)
      {
        var param := asParams[i];
        KeepStep(newParams, asParams, i, keepNum);
        if keepNum >= param.AsLen() {
          newParams := newParams + [param];
          keepNum := keepNum - param.AsLen();
        } else {
          newParams := newParams + [Segment(param.typ, if keepNum <= |param.asns| then param.asns[..keepNum] else [])];
          keepNum := 0;
        }
        if keepNum <= 0 {
          return;
        }
      }
    }

    /** The loop that appends the segments of AS4_PATH. */
    method JoinLoop(kept: AsPath, as4Params: AsPath) returns (newParams: AsPath)
      requires kept != [] && SegmentsFit(kept) && SegmentsFit(as4Params)
      ensures newParams == Join(kept, as4Params)
    {
      newParams := kept;
      for i := 0 to |as4Params|
        invariant newParams != [] && SegmentsFit(newParams) && newParams == Join(kept, as4Params[..i])
      {
        assert as4Params[..i + 1][..i] == as4Params[..i];
        newParams := Join1(newParams, as4Params[i]);
      }
      assert as4Params[..|as4Params|] == as4Params;
    }

    /** Widens AS_PATH and tells where it and AS4_PATH are and what they hold. */
    method Widen() returns (asAttrPos: int, as4AttrPos: int, path: AsPath, segs: AsPath)
      modifies this
      ensures pathAttributes == Widened(old(pathAttributes))
      ensures asAttrPos == LastOf(old(pathAttributes), false) && as4AttrPos == LastOf(old(pathAttributes), true)
      ensures asAttrPos >= 0 ==> path == Segments(old(pathAttributes)[asAttrPos].params)
      ensures as4AttrPos >= 0 ==> segs == old(pathAttributes)[as4AttrPos].segs
    {
      var attrs := pathAttributes;
      asAttrPos, as4AttrPos, path, segs := -1, -1, [], [];
      for i := 0 to |attrs|
        invariant |pathAttributes| == |attrs|
        invariant asAttrPos == LastOf(attrs[..i], false) && as4AttrPos == LastOf(attrs[..i], true)
        invariant asAttrPos >= 0 ==> path == Segments(attrs[asAttrPos].params)
        invariant as4AttrPos >= 0 ==> segs == attrs[as4AttrPos].segs
        invariant forall j :: 0 <= j < |attrs| ==> pathAttributes[j] == if j < i then WidenAttr(attrs[j]) else attrs[j]
      {
        assert attrs[..i + 1][..i] == attrs[..i];
        if attrs[i].AsPathAttr? {
          asAttrPos, path := i, Segments(attrs[i].params);
          pathAttributes := pathAttributes[i := AsPathAttr(Wide(path))];
        } else if attrs[i].As4PathAttr? {
          as4AttrPos, segs := i, attrs[i].segs;
        }
      }
      assert attrs[..|attrs|] == attrs;
    }

    /** Rewrites what a speaker without 4-byte AS numbers sent. `ok` is false where the source
        runs out of range. */
    method UpdatePathAttrs4ByteAs() returns (ok: bool)
      requires AttrsFit(pathAttributes)
      modifies this
      ensures ok <==> To4Byte(old(pathAttributes)).Some?
      ensures ok ==> Some(pathAttributes) == To4Byte(old(pathAttributes))
    {
      ghost var was := pathAttributes;
      var asAttrPos, as4AttrPos, path, segs := Widen();
      if as4AttrPos == -1 {
        return true;
      }
      pathAttributes := RemoveAt(pathAttributes, as4AttrPos);
      if asAttrPos == -1 {
        return true;
      }
      var as4Params := WithoutConfed(segs);
      assert SegmentsFit(path) && SegmentsFit(segs);
      var keepNum := KeepNum(path, as4Params);
      if keepNum < 0 {
        return true;
      }
      var newParams := KeepLoop(path, keepNum);
      if |as4Params| > 0 {
        if |newParams| == 0 {
          return false;
        }
        newParams := JoinLoop(newParams, as4Params);
      }
      if asAttrPos >= |pathAttributes| {
        return false;
      }
      pathAttributes := pathAttributes[asAttrPos := AsPathAttr(Wide(newParams))];
      ok := true;
    }
  }
}
