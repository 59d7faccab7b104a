/** The value of an AS_PATH attribute and the questions the routing code asks of it. */
module AsPaths {

  datatype SegmentType = AsSequence | AsSet | ConfedSequence | ConfedSet

  datatype Segment = Segment(typ: SegmentType, asns: seq<nat>) {

    /** A set counts as one AS and a confederation segment as none
        (section 9.1.2.2 of RFC 4271, section 5.3 of RFC 5065). */
    function AsLen(): nat {
      match typ
      case AsSequence => |asns|
      case AsSet => 1
      case _ => 0
    }

    predicate IsConfed() {
      typ == ConfedSequence || typ == ConfedSet
    }
  }

  type AsPath = seq<Segment>

  /** The AS path length used by the best-path comparison. */
  function AsPathLen(path: AsPath): nat {
    if path == [] then 0 else path[0].AsLen() + AsPathLen(path[1..])
  }

  /** The list searched for loops: confederation segments leave a single zero. */
  function AsList(path: AsPath): seq<nat> {
    if path == [] then []
    else (if path[0].IsConfed() then [0] else path[0].asns) + AsList(path[1..])
  }

  /** Every AS number of the path, in order, whatever the segment types. */
  function Flatten(path: AsPath): seq<nat> {
    if path == [] then [] else path[0].asns + Flatten(path[1..])
  }

  /** The first AS of the first non-empty segment outside confederations, or zero. */
  function FirstAs(path: AsPath): nat {
    if path == [] then 0
    else if path[0].asns == [] || path[0].IsConfed() then FirstAs(path[1..])
    else path[0].asns[0]
  }

  /** What every segment on the wire satisfies: its AS count fits in one byte. */
  predicate SegmentsFit(path: AsPath) {
    forall i :: 0 <= i < |path| ==> |path[i].asns| <= 255
  }

  /** The path without its confederation segments. */
  function WithoutConfed(path: AsPath): (r: AsPath)
    ensures forall i :: 0 <= i < |r| ==> !r[i].IsConfed()
    ensures SegmentsFit(path) ==> SegmentsFit(r)
  {
    if path == [] then []
    else
      var n := |path| - 1;
      WithoutConfed(path[..n]) + if path[n].IsConfed() then [] else [path[n]]
  }

  lemma {:induction false} NoConfed(path: AsPath)
    requires forall i :: 0 <= i < |path| ==> !path[i].IsConfed()
    ensures WithoutConfed(path) == path
  {
    if path != [] {
      NoConfed(path[..|path| - 1]);
    }
  }

  lemma {:induction false} FlattenConcat(a: AsPath, b: AsPath)
    ensures Flatten(a + b) == Flatten(a) + Flatten(b)
  {
    if a == [] {
      assert a + b == b;
    } else {
      assert (a + b)[0] == a[0] && (a + b)[1..] == a[1..] + b;
      FlattenConcat(a[1..], b);
    }
  }
}
