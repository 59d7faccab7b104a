/** Routes travelling through a network of speakers in different ASes, one speaker per AS. Each
    speaker prepends its AS when it re-advertises, may refuse to send to an AS on the path, and
    refuses what contains its own AS more often than it is allowed to. */
module LoopFreedom {
  import opened Common
  import opened AsPaths
  import opened Overlay

  function Count(s: seq<nat>, x: nat): nat {
    if s == [] then 0 else (if s[0] == x then 1 else 0) + Count(s[1..], x)
  }

  lemma {:induction false} CountConcat(a: seq<nat>, b: seq<nat>, x: nat)
    ensures Count(a + b, x) == Count(a, x) + Count(b, x)
  {
    if a == [] {
      assert a + b == b;
    } else {
      assert (a + b)[1..] == a[1..] + b;
      CountConcat(a[1..], b, x);
    }
  }

  /** Whether `ownAs` occurs more than `limit` times, in segments of any type. */
  predicate OwnAsLoop(ownAs: nat, limit: nat, path: AsPath) {
    Count(Flatten(path), ownAs) > limit
  }

  lemma FlattenGrows(path: AsPath, i: nat)
    requires i < |path|
    ensures Flatten(path[..i + 1]) == Flatten(path[..i]) + path[i].asns
  {
    assert path[..i + 1] == path[..i] + [path[i]];
    FlattenConcat(path[..i], [path[i]]);
    FlattenOne(path[i]);
  }

  lemma CountOfPrefix(path: AsPath, i: nat, j: nat, x: nat)
    requires i < |path| && j < |path[i].asns|
    ensures var c := Count(Flatten(path[..i]), x) + Count(path[i].asns[..j + 1], x);
            && c == Count(Flatten(path[..i]), x) + Count(path[i].asns[..j], x) + (if path[i].asns[j] == x then 1 else 0)
            && c <= Count(Flatten(path), x)
  {
    var s := path[i].asns;
    assert s[..j + 1] == s[..j] + [s[j]];
    CountConcat(s[..j], [s[j]], x);
    assert [s[j]][1..] == [];
    assert s == s[..j + 1] + s[j + 1..];
    CountConcat(s[..j + 1], s[j + 1..], x);
    FlattenGrows(path, i);
    CountConcat(Flatten(path[..i]), s, x);
    assert path == path[..i + 1] + path[i + 1..];
    FlattenConcat(path[..i + 1], path[i + 1..]);
    CountConcat(Flatten(path[..i + 1]), Flatten(path[i + 1..]), x);
  }

  method HasOwnASLoop(ownAs: nat, limit: nat, asPath: AsPath) returns (loop: bool)
    ensures loop <==> OwnAsLoop(ownAs, limit, asPath)
  {
    var cnt := 0;
    for i := 0 to |asPath|
      invariant cnt == Count(Flatten(asPath[..i]), ownAs) <= limit
    {
      var asns := asPath[i].asns;
      for j := 0 to |asns|
        invariant cnt == Count(Flatten(asPath[..i]), ownAs) + Count(asns[..j], ownAs) <= limit
      {
        CountOfPrefix(asPath, i, j, ownAs);
        if asns[j] == ownAs {
          cnt := cnt + 1;
          if cnt > limit {
            return true;
          }
        }
      }
      assert asns[..|asns|] == asns;
      FlattenGrows(asPath, i);
      CountConcat(Flatten(asPath[..i]), asns, ownAs);
    }
    assert asPath[..|asPath|] == asPath;
    return false;
  }

  // ----- The network

  /** A route that the speaker of the AS `at` has accepted or originated. */
  datatype Held = Held(at: nat, path: AsPath)

  datatype Message = Message(from: nat, to: nat, path: AsPath)

  /** The ASes; how often each tolerates itself on a path; which of them check before sending; the
      routes in use and the messages under way. */
  datatype Network = Network(
    ases: set<nat>, limit: nat, checking: set<nat>, held: set<Held>, wire: set<Message>)

  datatype Step =
    | Originate(at: nat)
    | Advertise(route: Held, to: nat)
    | Deliver(m: Message)
    | Lose(m: Message)
    | Withdraw(route: Held)

  predicate Enabled(n: Network, s: Step) {
    match s
    case Originate(at) => at in n.ases
    case Advertise(route, to) =>
      route in n.held && to in n.ases && to != route.at && SegmentsFit(route.path) &&
      (route.at in n.checking ==> to !in AsList(route.path))
    case Deliver(m) => m in n.wire
    case Lose(m) => m in n.wire
    case Withdraw(route) => route in n.held
  }

  function Next(n: Network, s: Step): Network
    requires Enabled(n, s)
  {
    match s
    case Originate(at) => n.(held := n.held + {Held(at, [])})
    case Advertise(route, to) => n.(wire := n.wire + {Message(route.at, to, Exported(route.path, route.at, false))})
    case Deliver(m) => if OwnAsLoop(m.to, n.limit, m.path) then n else n.(held := n.held + {Held(m.to, m.path)})
    case Lose(m) => n.(wire := n.wire - {m})
    case Withdraw(route) => n.(held := n.held - {route})
  }

  function After(n: Network, run: seq<Step>): Option<Network> {
    if run == [] then Some(n)
    else
      var k := |run| - 1;
      var m := After(n, run[..k]);
      if m.Some? && Enabled(m.value, run[k]) then Some(Next(m.value, run[k])) else None
  }

  // ----- What every reachable state satisfies

  predicate Plain(path: AsPath) {
    SegmentsFit(path) && forall i :: 0 <= i < |path| ==> !path[i].IsConfed()
  }

  /** No AS occurs more than `limit + 1` times, and with checking senders none occurs twice. */
  ghost predicate Bounded(n: Network, path: AsPath) {
    && Plain(path)
    && (forall x :: x in Flatten(path) ==> x in n.ases)
    && (forall x :: Count(Flatten(path), x) <= n.limit + 1)
    && (n.ases <= n.checking ==> forall x :: Count(Flatten(path), x) <= 1)
  }

  /** The receiver's own count: within its limit, and zero with checking senders. */
  ghost predicate OwnBounded(n: Network, asn: nat, path: AsPath) {
    Count(Flatten(path), asn) <= n.limit && (n.ases <= n.checking ==> Count(Flatten(path), asn) == 0)
  }

  ghost predicate Inv(n: Network) {
    && (forall h :: h in n.held ==> h.at in n.ases && Bounded(n, h.path) && OwnBounded(n, h.at, h.path))
    && (forall m :: m in n.wire ==> m.to in n.ases && Bounded(n, m.path))
    && (forall m :: m in n.wire && n.ases <= n.checking ==> Count(Flatten(m.path), m.to) == 0)
  }

  lemma {:induction false} PlainAsList(path: AsPath)
    requires Plain(path)
    ensures AsList(path) == Flatten(path)
  {
    if path != [] {
      PlainAsList(path[1..]);
    }
  }

  lemma ExportAddsOne(path: AsPath, asn: nat)
    requires Plain(path)
    ensures Plain(Exported(path, asn, false)) && Flatten(Exported(path, asn, false)) == [asn] + Flatten(path)
  {
    var p := Prepended(path, asn, 1, false);
    PrependIsExact(path, asn, 1, false);
    assert Copies(asn, 1) == [asn];
    assert Plain(p);
    NoConfed(p);
  }

  lemma {:induction false} CountZero(s: seq<nat>, x: nat)
    ensures Count(s, x) == 0 <==> x !in s
  {
    if s != [] {
      CountZero(s[1..], x);
      assert s == [s[0]] + s[1..];
    }
  }

  lemma CountOneMore(asn: nat, s: seq<nat>, x: nat)
    ensures Count([asn] + s, x) == Count(s, x) + if x == asn then 1 else 0
  {
    assert ([asn] + s)[1..] == s;
  }

  lemma AdvertiseKeepsInv(n: Network, route: Held, to: nat)
    requires Inv(n) && Enabled(n, Advertise(route, to))
    ensures Inv(Next(n, Advertise(route, to)))
  {
    var path := Exported(route.path, route.at, false);
    ExportAddsOne(route.path, route.at);
    PlainAsList(route.path);
    forall x ensures Count(Flatten(path), x) == Count(Flatten(route.path), x) + if x == route.at then 1 else 0 {
      CountOneMore(route.at, Flatten(route.path), x);
    }
    CountZero(Flatten(route.path), to);
    var t := Next(n, Advertise(route, to));
    assert Bounded(t, path);
    forall m | m in t.wire ensures m.to in t.ases && Bounded(t, m.path) {
      if m in n.wire {
        assert Bounded(n, m.path);
      }
    }
  }

  lemma StepKeepsInv(n: Network, s: Step)
    requires Inv(n) && Enabled(n, s)
    ensures Inv(Next(n, s))
  {
    match s
    case Advertise(route, to) => AdvertiseKeepsInv(n, route, to);
    case Originate(at) => assert Flatten([]) == [];
    case _ =>
  }

  /** The start of every run: ASes, and nothing announced yet. */
  predicate Initial(n: Network) {
    n.held == {} && n.wire == {}
  }

  lemma {:induction false} RunKeepsInv(n: Network, run: seq<Step>)
    requires Initial(n) && After(n, run).Some?
    ensures Inv(After(n, run).value)
    ensures var m := After(n, run).value; m.ases == n.ases && m.limit == n.limit && m.checking == n.checking
  {
    if run != [] {
      var k := |run| - 1;
      RunKeepsInv(n, run[..k]);
      StepKeepsInv(After(n, run[..k]).value, run[k]);
    }
  }

  // ----- Lengths

  function Others(s: seq<nat>, x: nat): (r: seq<nat>)
    ensures |s| == |r| + Count(s, x)
    ensures forall y :: y in r ==> y in s && y != x
  {
    if s == [] then [] else (if s[0] == x then [] else [s[0]]) + Others(s[1..], x)
  }

  lemma {:induction false} CountOthers(s: seq<nat>, x: nat, y: nat)
    ensures Count(Others(s, x), y) == if y == x then 0 else Count(s, y)
  {
    if s != [] {
      CountOthers(s[1..], x, y);
      if s[0] != x {
        CountOneMore(s[0], Others(s[1..], x), y);
      } else {
        assert Others(s, x) == Others(s[1..], x);
      }
    }
  }

  lemma {:induction false} Pigeonhole(s: seq<nat>, a: set<nat>, most: nat)
    requires forall x :: x in s ==> x in a
    requires forall x :: Count(s, x) <= most
    ensures |s| <= most * |a|
    decreases a
  {
    if s != [] {
      var x := s[0];
      assert x in s && a == a - {x} + {x};
      var rest := Others(s, x);
      forall y ensures Count(rest, y) <= most {
        CountOthers(s, x, y);
      }
      Pigeonhole(rest, a - {x}, most);
      OneMoreTime(most, |a - {x}|);
    }
  }

  lemma OneMoreTime(most: nat, k: nat)
    ensures most * (k + 1) == most * k + most
  {
  }

  /** In every reachable state of every network, no AS occurs more than `limit + 1` times on a path
      in use, so its length is bounded by the number of ASes; with no tolerance, or when every
      sender checks, no AS occurs twice and the holder does not occur at all. */
  lemma PathsAreBounded(n: Network, run: seq<Step>, h: Held)
    requires Initial(n) && After(n, run).Some? && h in After(n, run).value.held
    ensures forall x :: Count(Flatten(h.path), x) <= n.limit + 1
    ensures |Flatten(h.path)| <= (n.limit + 1) * |n.ases|
    ensures n.limit == 0 || n.ases <= n.checking ==>
              h.at !in Flatten(h.path) && |Flatten(h.path)| < |n.ases| &&
              forall x :: Count(Flatten(h.path), x) <= 1
  {
    RunKeepsInv(n, run);
    var s := Flatten(h.path);
    Pigeonhole(s, n.ases, n.limit + 1);
    if n.limit == 0 || n.ases <= n.checking {
      CountZero(s, h.at);
      Pigeonhole(s, n.ases - {h.at}, 1);
    }
  }

  /** A chain of re-advertisements: each route is the one before it, exported by its holder. */
  predicate Chain(hs: seq<Held>) {
    && (forall i :: 0 <= i < |hs| ==> Plain(hs[i].path))
    && forall i {:trigger hs[i]} :: 0 < i < |hs| ==> hs[i].path == Exported(hs[i - 1].path, hs[i - 1].at, false)
  }

  lemma {:induction false} ChainGrows(hs: seq<Held>)
    requires Chain(hs) && hs != []
    ensures |Flatten(hs[|hs| - 1].path)| >= |hs| - 1
  {
    if |hs| > 1 {
      var k := |hs| - 1;
      ChainGrows(hs[..k]);
      ExportAddsOne(hs[k - 1].path, hs[k - 1].at);
    }
  }

  /** Every chain of re-advertisements is finite: it has at most one route more than a path can
      have ASes. */
  lemma ChainsAreFinite(n: Network, run: seq<Step>, hs: seq<Held>)
    requires Initial(n) && After(n, run).Some? && hs != [] && Chain(hs)
    requires hs[|hs| - 1] in After(n, run).value.held
    ensures |hs| <= (n.limit + 1) * |n.ases| + 1
    ensures n.limit == 0 || n.ases <= n.checking ==> |hs| <= |n.ases|
  {
    ChainGrows(hs);
    PathsAreBounded(n, run, hs[|hs| - 1]);
  }
}
