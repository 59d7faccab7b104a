/** The filter that keeps a monitoring station from being sent the same path twice. */
module Bmp {

  type PrefixString = string

  /** `source` is the identity of the peer's record, `attrs` the serialised attributes. */
  datatype MonitoredPath = MonitoredPath(prefix: PrefixString, source: nat, attrs: seq<nat>, isWithdraw: bool)

  /** What a receiver of paths knows: the attributes per prefix and source. */
  type View = map<(PrefixString, nat), seq<nat>>

  function Received(v: View, p: MonitoredPath): View {
    if p.isWithdraw then v - {(p.prefix, p.source)} else v[(p.prefix, p.source) := p.attrs]
  }

  function Replay(v: View, ps: seq<MonitoredPath>): View {
    if ps == [] then v else Received(Replay(v, ps[..|ps| - 1]), ps[|ps| - 1])
  }

  predicate Has(l: seq<MonitoredPath>, source: nat, attrs: seq<nat>) {
    exists i :: 0 <= i < |l| && l[i].source == source && l[i].attrs == attrs
  }

  /** The list has one announcement for each source that has announced the prefix. */
  ghost predicate ListHolds(l: seq<MonitoredPath>, v: View, key: PrefixString) {
    (forall i :: 0 <= i < |l| ==> l[i].prefix == key && !l[i].isWithdraw) &&
    (forall i, j :: 0 <= i < j < |l| ==> l[i].source != l[j].source) &&
    forall source: nat, attrs: seq<nat> :: Has(l, source, attrs) <==> (key, source) in v && v[(key, source)] == attrs
  }

  function ListOf(r: map<PrefixString, seq<MonitoredPath>>, key: PrefixString): seq<MonitoredPath> {
    if key in r then r[key] else []
  }

  /** The lists hold exactly what the view says, and none of them is empty. */
  ghost predicate Holds(r: map<PrefixString, seq<MonitoredPath>>, v: View) {
    (forall key :: key in r ==> r[key] != []) && forall key :: ListHolds(ListOf(r, key), v, key)
  }

  ghost predicate DifferOnlyAt(v: View, w: View, key: PrefixString) {
    forall k: (PrefixString, nat) :: k.0 != key ==> (k in v <==> k in w) && (k in v ==> v[k] == w[k])
  }

  lemma OneListReplaced(r: map<PrefixString, seq<MonitoredPath>>, v: View, w: View,
                        key: PrefixString, l: seq<MonitoredPath>)
    requires Holds(r, v) && DifferOnlyAt(v, w, key) && ListHolds(l, w, key)
    ensures Holds(if l == [] then r - {key} else r[key := l], w)
  {
    var r' := if l == [] then r - {key} else r[key := l];
    forall k
      ensures ListHolds(ListOf(r', k), w, k)
    {
      assert ListHolds(ListOf(r, k), v, k);
    }
  }

  /** Whether the receiver is sent the path: an announcement if it says something new, a
      withdrawal if any source has announced the prefix. */
  ghost predicate Needed(v: View, p: MonitoredPath) {
    if p.isWithdraw then exists source: nat :: (p.prefix, source) in v
    else (p.prefix, p.source) !in v || v[(p.prefix, p.source)] != p.attrs
  }

  /** A path that is not needed would change nothing. */
  lemma UnneededChangesNothing(v: View, p: MonitoredPath)
    requires !Needed(v, p)
    ensures Received(v, p) == v
  {
  }

  /** An announcement that is needed changes the view; a withdrawal may be needed only because of
      another source. */
  lemma NeededChangesIff(v: View, p: MonitoredPath)
    requires Needed(v, p)
    ensures Received(v, p) == v <==> p.isWithdraw && (p.prefix, p.source) !in v
  {
    if !p.isWithdraw {
      assert Received(v, p)[(p.prefix, p.source)] == p.attrs;
    } else if (p.prefix, p.source) in v {
      assert (p.prefix, p.source) !in Received(v, p);
    }
  }

  /** The list without the entry of the source that withdraws. */
  method Others(l: seq<MonitoredPath>, p: MonitoredPath, ghost v: View) returns (n: seq<MonitoredPath>)
    requires ListHolds(l, v, p.prefix) && p.isWithdraw
    ensures ListHolds(n, Received(v, p), p.prefix)
  {
    n := [];
    for i := 0 to |l|
      invariant forall k :: 0 <= k < |n| ==> n[k] in l[..i]
      invariant forall k :: 0 <= k < i && l[k].source != p.source ==> l[k] in n
      invariant forall k :: 0 <= k < |n| ==> n[k].source != p.source
      invariant forall k, m :: 0 <= k < m < |n| ==> n[k].source != n[m].source
    {
      if p.source != l[i].source {
        n := n + [l[i]];
      }
    }
    WithdrawnFrom(l, p, v, n);
  }

  lemma WithdrawnFrom(l: seq<MonitoredPath>, p: MonitoredPath, v: View, n: seq<MonitoredPath>)
    requires ListHolds(l, v, p.prefix) && p.isWithdraw
    requires forall q :: q in n <==> q in l && q.source != p.source
    requires forall k, m :: 0 <= k < m < |n| ==> n[k].source != n[m].source
    ensures ListHolds(n, Received(v, p), p.prefix)
  {
    forall source: nat, attrs: seq<nat>
      ensures Has(n, source, attrs) <==> Has(l, source, attrs) && source != p.source
    {
      if Has(n, source, attrs) {
        var i :| 0 <= i < |n| && n[i].source == source && n[i].attrs == attrs;
        assert n[i] in n;
      }
      if Has(l, source, attrs) && source != p.source {
        var i :| 0 <= i < |l| && l[i].source == source && l[i].attrs == attrs;
        assert l[i] in l && l[i] in n;
      }
    }
  }

  /** Replaces the entry of the source in place, or adds one; nothing is needed if the entry says
      the same already. */
  method Put(l: seq<MonitoredPath>, p: MonitoredPath, ghost v: View) returns (send: bool, n: seq<MonitoredPath>)
    requires ListHolds(l, v, p.prefix) && !p.isWithdraw
    ensures ListHolds(n, Received(v, p), p.prefix)
    ensures send <==> Needed(v, p)
  {
    n := l;
    var doAppend := true;
    for idx := 0 to |l|
      invariant |n| == |l|
      invariant forall k :: 0 <= k < |l| ==> n[k] == if k < idx && l[k].source == p.source then p else l[k]
      invariant doAppend <==> forall k :: 0 <= k < idx ==> l[k].source != p.source
      invariant forall k :: 0 <= k < idx && l[k].source == p.source ==> l[k].attrs != p.attrs
    {
      var q := n[idx];
      if p.source == q.source {
        if p.attrs == q.attrs {
          assert Has(l, p.source, p.attrs);
          OnlyEntry(l, idx);
          assert n == l && Received(v, p) == v;
          return false, n;
        }
        n := n[idx := p];
        doAppend := false;
      }
    }
    assert !Has(l, p.source, p.attrs);
    if doAppend {
      n := n + [p];
    }
    AnnouncedIn(l, p, v, n);
    send := true;
  }

  lemma OnlyEntry(l: seq<MonitoredPath>, idx: nat)
    requires idx < |l| && forall i, j :: 0 <= i < j < |l| ==> l[i].source != l[j].source
    ensures forall k :: 0 <= k < |l| && l[k].source == l[idx].source ==> k == idx
  {
  }

  lemma AnnouncedIn(l: seq<MonitoredPath>, p: MonitoredPath, v: View, n: seq<MonitoredPath>)
    requires ListHolds(l, v, p.prefix) && !p.isWithdraw
    requires |n| == |l| || (n == l + [p] && forall k :: 0 <= k < |l| ==> l[k].source != p.source)
    requires |n| == |l| ==> exists k :: 0 <= k < |l| && l[k].source == p.source
    requires forall k :: 0 <= k < |l| ==> n[k] == if l[k].source == p.source then p else l[k]
    ensures ListHolds(n, Received(v, p), p.prefix)
  {
    forall source: nat, attrs: seq<nat>
      ensures Has(n, source, attrs) <==> if source == p.source then attrs == p.attrs else Has(l, source, attrs)
    {
      if source == p.source {
        var k :| 0 <= k < |n| && n[k] == p;
        assert attrs == p.attrs ==> Has(n, source, attrs);
      } else if Has(l, source, attrs) {
        var i :| 0 <= i < |l| && l[i].source == source && l[i].attrs == attrs;
        assert n[i] == l[i];
      }
    }
  }

  class Ribout {
    var r: map<PrefixString, seq<MonitoredPath>>
    ghost var view: View

    ghost predicate Valid()
      reads this
    {
      Holds(r, view)
    }

    constructor ()
      ensures Valid() && view == map[]
    {
      r, view := map[], map[];
    }

    method Update(p: MonitoredPath) returns (send: bool)
      requires Valid()
      modifies this
      ensures Valid() && view == Received(old(view), p)
      ensures send <==> Needed(old(view), p)
    {
      var key := p.prefix;
      var l := ListOf(r, key);
      ghost var before := view;
      assert ListHolds(l, before, key);
      view := Received(view, p);
      if p.isWithdraw {
        AnyEntry(l, before, key);
        if |l| == 0 {
          assert view == before;
          return false;
        }
        var n := Others(l, p, before);
        OneListReplaced(r, before, view, key, n);
        if |n| == 0 {
          r := r - {key};
        } else {
          r := r[key := n];
        }
        return true;
      }
      var n;
      send, n := Put(l, p, before);
      OneListReplaced(r, before, view, key, n);
      assert Has(n, p.source, p.attrs);
      r := r[key := n];
    }

    /** The paths that a monitoring station is sent out of a stream. */
    method Filter(ps: seq<MonitoredPath>) returns (sent: seq<MonitoredPath>)
      requires Valid()
      modifies this
      ensures Valid() && view == Replay(old(view), ps)
      ensures Replay(old(view), sent) == Replay(old(view), ps)
      ensures sent == Sent(old(view), ps)
    {
      sent := [];
      for i := 0 to |ps|
        invariant Valid() && view == Replay(old(view), ps[..i]) && sent == Sent(old(view), ps[..i])
      {
        assert ps[..i + 1] == ps[..i] + [ps[i]] && ps[..i + 1][..i] == ps[..i];
        var send := Update(ps[i]);
        if send {
          sent := sent + [ps[i]];
        }
      }
      assert ps[..|ps|] == ps;
      SentIsEnough(old(view), ps);
    }
  }

  lemma AnyEntry(l: seq<MonitoredPath>, v: View, key: PrefixString)
    requires ListHolds(l, v, key)
    ensures l == [] <==> forall source: nat :: (key, source) !in v
  {
    if l != [] {
      assert Has(l, l[0].source, l[0].attrs);
    } else {
      forall source: nat
        ensures (key, source) !in v
      {
        assert (key, source) in v ==> Has(l, source, v[(key, source)]);
      }
    }
  }

  /** The paths of a stream that are needed when they come. */
  ghost function Sent(v: View, ps: seq<MonitoredPath>): seq<MonitoredPath> {
    if ps == [] then []
    else
      var n := |ps| - 1;
      Sent(v, ps[..n]) + if Needed(Replay(v, ps[..n]), ps[n]) then [ps[n]] else []
  }

  /** A receiver of the filtered stream knows what a receiver of the whole stream knows. */
  lemma {:induction false} SentIsEnough(v: View, ps: seq<MonitoredPath>)
    ensures Replay(v, Sent(v, ps)) == Replay(v, ps)
  {
    if ps != [] {
      var n := |ps| - 1;
      SentIsEnough(v, ps[..n]);
      if Needed(Replay(v, ps[..n]), ps[n]) {
        assert (Sent(v, ps[..n]) + [ps[n]])[..|Sent(v, ps[..n])|] == Sent(v, ps[..n]);
      } else {
        assert Sent(v, ps[..n]) + [] == Sent(v, ps[..n]);
        UnneededChangesNothing(Replay(v, ps[..n]), ps[n]);
      }
    }
  }
}
