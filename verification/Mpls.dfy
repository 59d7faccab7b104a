/** Handing out MPLS labels from chunks granted by zebra. */
module Mpls {
  import opened Common
  import opened Bitmaps

  const LABELS := 0x1_0000_0000

  type Word32 = n: nat | n < LABELS

  function Wrap32(n: int): Word32 {
    n % LABELS
  }

  datatype Chunk = Chunk(start: Word32, end: Word32) {
    /** The size as computed with 32-bit numbers. */
    function Size(): Word32 {
      Wrap32(end - start + 1)
    }

    /** The size rounded up to whole words of the bitmap. */
    function Rounded(): nat {
      WORD * ((Size() + WORD - 1) / WORD)
    }

    predicate Contains(mark: nat) {
      start <= mark <= end
    }

    /** Not inverted, and not all 32-bit numbers, whose size is computed as zero. */
    predicate Proper() {
      start <= end && end - start + 1 < LABELS
    }
  }

  predicate Disjoint(a: Chunk, b: Chunk) {
    a.end < b.start || b.end < a.start
  }

  // ----- One assignment

  /** The flagged indices of each chunk. */
  type Flags = map<Chunk, set<nat>>

  /** The lowest index from `k` on below `n` that is not flagged. */
  function FreeFrom(flags: set<nat>, k: nat, n: nat): (r: Option<nat>)
    ensures r.Some? ==> k <= r.value < n && r.value !in flags && forall j :: k <= j < r.value ==> j in flags
    ensures r.None? ==> forall j :: k <= j < n ==> j in flags
    decreases n - k
  {
    if k >= n then None else if k !in flags then Some(k) else FreeFrom(flags, k + 1, n)
  }

  /** The flags after trying chunks; the chunk that ended the search, if one did; and the label,
      where zero means failure. */
  datatype Attempt = Attempt(flags: Flags, from: Option<Chunk>, mark: Word32)

  /** Takes the lowest free bit of the chunk. It ends the search if its label, computed with 32-bit
      numbers, is not beyond the chunk; otherwise the bit stays flagged for nothing. */
  function Try(fs: Flags, c: Chunk): Attempt
    requires c in fs
  {
    match FreeFrom(fs[c], 0, c.Rounded())
    case None => Attempt(fs, None, 0)
    case Some(i) =>
      var taken := fs[c := fs[c] + {i}];
      if Wrap32(c.start + i) <= c.end then Attempt(taken, Some(c), Wrap32(c.start + i)) else Attempt(taken, None, 0)
  }

  /** Tries the chunks in order until one ends the search. */
  function TryAll(fs: Flags, order: seq<Chunk>): (a: Attempt)
    requires forall c :: c in order ==> c in fs
    ensures a.flags.Keys == fs.Keys
  {
    if order == [] then Attempt(fs, None, 0)
    else
      var n := |order| - 1;
      var a := TryAll(fs, order[..n]);
      if a.from.Some? then a else Try(a.flags, order[n])
  }

  /** The chunks come in an arbitrary order, each once, and all of them unless the search ends. */
  predicate IsOrder(fs: Flags, order: seq<Chunk>) {
    (forall c :: c in order ==> c in fs) && NoDuplicates(order) &&
    (TryAll(fs, order).from.None? ==> forall c :: c in fs ==> c in order)
  }

  // ----- Runs

  /** The flags, and the labels that have been assigned and not released. */
  datatype State = State(flags: Flags, out: multiset<nat>)

  datatype Event =
    | Grant(c: Chunk)
    | Assign(order: seq<Chunk>)
    | Release(mark: Word32, from: Option<Chunk>)

  predicate Defined(s: State, e: Event) {
    match e
    case Grant(_) => true
    case Assign(order) => IsOrder(s.flags, order)
    case Release(mark, from) =>
      if from.Some? then from.value in s.flags && from.value.Contains(mark)
      else forall c :: c in s.flags ==> !c.Contains(mark)
  }

  function Next(s: State, e: Event): State
    requires Defined(s, e)
  {
    match e
    case Grant(c) => s.(flags := s.flags[c := {}])
    case Assign(order) =>
      var a := TryAll(s.flags, order);
      State(a.flags, if a.mark != 0 then s.out + multiset{a.mark} else s.out)
    case Release(mark, from) =>
      State(if from.Some? then s.flags[from.value := s.flags[from.value] - {mark - from.value.start}] else s.flags,
            s.out - multiset{mark})
  }

  const INITIAL := State(map[], multiset{})

  /** Each chunk is one of `chunks` and granted once; labels released are not zero. */
  predicate Possible(chunks: set<Chunk>, s: State, e: Event) {
    Defined(s, e) && (e.Grant? ==> e.c in chunks && e.c !in s.flags) && (e.Release? ==> e.mark != 0)
  }

  function After(run: seq<Event>): State {
    if run == [] then INITIAL
    else
      var n := |run| - 1;
      var s := After(run[..n]);
      if Defined(s, run[n]) then Next(s, run[n]) else s
  }

  predicate PossibleRun(chunks: set<Chunk>, run: seq<Event>) {
    run == [] ||
    (PossibleRun(chunks, run[..|run| - 1]) && Possible(chunks, After(run[..|run| - 1]), run[|run| - 1]))
  }

  /** The run is possible and leads to `s`. */
  predicate Reaches(chunks: set<Chunk>, run: seq<Event>, s: State) {
    PossibleRun(chunks, run) && After(run) == s
  }

  ghost predicate Reachable(chunks: set<Chunk>, s: State) {
    exists run :: Reaches(chunks, run, s)
  }

  // ----- What every run keeps

  /** For the labels of a chunk, apart from zero, flagged means out, and none is out twice. */
  predicate Tracks(flags: set<nat>, out: multiset<nat>, c: Chunk) {
    forall x :: c.start <= x <= c.end && x > 0 ==> (x - c.start in flags <==> x in out) && out[x] <= 1
  }

  predicate AllProper(chunks: set<Chunk>) {
    (forall c :: c in chunks ==> c.Proper()) && forall c, d :: c in chunks && d in chunks && c != d ==> Disjoint(c, d)
  }

  predicate Inv(fs: Flags, out: multiset<nat>) {
    AllProper(fs.Keys) && forall c :: c in fs ==> Tracks(fs[c], out, c)
  }

  /** Every label of the chunk, apart from zero, is out. */
  predicate AllOut(out: multiset<nat>, c: Chunk) {
    forall x :: c.start <= x <= c.end && x > 0 ==> x in out
  }

  /** No bit of the chunk has a nonzero label outside it, or there is no other chunk to disturb. */
  predicate Harmless(chunks: set<Chunk>, c: Chunk) {
    c.start + c.Rounded() <= LABELS + 1 || forall d :: d in chunks ==> d == c
  }

  /** The label of a bit: within the chunk, beyond it, or wrapped around to below it. */
  lemma LabelOfBit(c: Chunk, i: nat)
    requires c.Proper() && i < c.Rounded()
    ensures c.start + i <= c.end ==> Wrap32(c.start + i) == c.start + i
    ensures c.end < c.start + i < LABELS ==> Wrap32(c.start + i) > c.end
    ensures LABELS <= c.start + i ==> Wrap32(c.start + i) == c.start + i - LABELS < c.start
  {
    RoundedSize(c);
  }

  lemma RoundedSize(c: Chunk)
    requires c.Proper()
    ensures c.end - c.start + 1 <= c.Rounded() <= LABELS
  {
    assert c.Size() == c.end - c.start + 1;
  }

  function OutAfter(out: multiset<nat>, a: Attempt): multiset<nat> {
    if a.mark != 0 then out + multiset{a.mark} else out
  }

  /** What each outcome of trying one chunk means. */
  predicate Meaning(out: multiset<nat>, a: Attempt) {
    if a.from.None? then a.mark == 0
    else
      var c := a.from.value;
      && (a.mark == 0 ==> c.start == 0 || (c.start + c.Rounded() > LABELS && AllOut(out, c)))
      && (a.mark != 0 && c.Contains(a.mark) ==> a.mark !in out)
      && (a.mark != 0 && c.start + c.Rounded() <= LABELS + 1 ==> c.Contains(a.mark))
  }

  lemma TryMeans(fs: Flags, out: multiset<nat>, c: Chunk)
    requires c in fs && c.Proper() && Tracks(fs[c], out, c)
    ensures var a := Try(fs, c);
            Meaning(out, a) && if a.from.None? then AllOut(out, c) else a.from.value == c
  {
    RoundedSize(c);
    match FreeFrom(fs[c], 0, c.Rounded())
    case None =>
    case Some(i) => LabelOfBit(c, i);
  }

  lemma TryKeeps(fs: Flags, out: multiset<nat>, c: Chunk)
    requires Inv(fs, out) && c in fs && Harmless(fs.Keys, c)
    ensures var a := Try(fs, c); Inv(a.flags, OutAfter(out, a))
  {
    var free, a := FreeFrom(fs[c], 0, c.Rounded()), Try(fs, c);
    if free.Some? {
      TryTakes(fs, out, c, free.value);
      TakenKeeps(fs, out, c, free.value, a.flags, OutAfter(out, a));
    } else {
      assert a.flags == fs && OutAfter(out, a) == out;
    }
  }

  lemma TryTakes(fs: Flags, out: multiset<nat>, c: Chunk, i: nat)
    requires c in fs && FreeFrom(fs[c], 0, c.Rounded()) == Some(i)
    ensures var a, x := Try(fs, c), Wrap32(c.start + i);
            && a.flags == fs[c := fs[c] + {i}]
            && OutAfter(out, a) == if x <= c.end && x != 0 then out + multiset{x} else out
  {
  }

  lemma TakenKeeps(fs: Flags, out: multiset<nat>, c: Chunk, i: nat, fs': Flags, out': multiset<nat>)
    requires Inv(fs, out) && c in fs && Harmless(fs.Keys, c) && i < c.Rounded() && i !in fs[c]
    requires fs' == fs[c := fs[c] + {i}]
    requires var x := Wrap32(c.start + i); out' == if x <= c.end && x != 0 then out + multiset{x} else out
    ensures Inv(fs', out')
  {
    var x := Wrap32(c.start + i);
    assert fs'.Keys == fs.Keys;
    FlaggedTracks(fs[c], out, c, i);
    LabelOfBit(c, i);
    if x <= c.end && x != 0 {
      if c.start + i <= c.end {
        OthersTrack(fs, out, c, x);
      } else {
        assert forall d :: d in fs ==> d == c;
      }
    }
  }

  /** Flagging a free bit puts its label out if it is in the chunk, and disturbs no label if not. */
  lemma FlaggedTracks(flags: set<nat>, out: multiset<nat>, c: Chunk, i: nat)
    requires c.Proper() && Tracks(flags, out, c) && i !in flags && i < c.Rounded()
    ensures var x := Wrap32(c.start + i);
            Tracks(flags + {i}, if x <= c.end && x != 0 then out + multiset{x} else out, c)
  {
    LabelOfBit(c, i);
  }

  lemma OthersTrack(fs: Flags, out: multiset<nat>, c: Chunk, x: nat)
    requires Inv(fs, out) && c in fs && c.Contains(x)
    ensures forall d :: d in fs && d != c ==> Tracks(fs[d], out + multiset{x}, d)
  {
    forall d | d in fs && d != c
      ensures Tracks(fs[d], out + multiset{x}, d)
    {
      assert Disjoint(c, d);
    }
  }

  /** Trying chunks in order. */
  lemma {:induction false} TryAllKeeps(fs: Flags, out: multiset<nat>, order: seq<Chunk>)
    requires Inv(fs, out) && forall c :: c in order ==> c in fs && Harmless(fs.Keys, c)
    ensures var a := TryAll(fs, order);
            && Inv(a.flags, OutAfter(out, a)) && Meaning(out, a)
            && (a.from.Some? ==> a.from.value in fs)
            && (a.from.None? ==> forall c :: c in order ==> AllOut(out, c))
  {
    if order != [] {
      var n := |order| - 1;
      assert order[n] in order;
      TryAllKeeps(fs, out, order[..n]);
      var a := TryAll(fs, order[..n]);
      if a.from.None? {
        assert a.flags.Keys == fs.Keys;
        TryKeeps(a.flags, out, order[n]);
        TryMeans(a.flags, out, order[n]);
        assert forall c :: c in order ==> c in order[..n] || c == order[n];
      }
    }
  }

  lemma ReleaseKeeps(s: State, mark: Word32, from: Option<Chunk>)
    requires Inv(s.flags, s.out) && Defined(s, Release(mark, from))
    ensures var t := Next(s, Release(mark, from)); Inv(t.flags, t.out)
  {
    var t := Next(s, Release(mark, from));
    assert t.flags.Keys == s.flags.Keys;
    forall c | c in t.flags
      ensures Tracks(t.flags[c], t.out, c)
    {
      assert Tracks(s.flags[c], s.out, c);
      if from.Some? && c != from.value {
        assert Disjoint(c, from.value);
      }
    }
  }

  /** What is known of the chunks that are granted over a run. */
  predicate AllHarmless(chunks: set<Chunk>) {
    AllProper(chunks) && forall c :: c in chunks ==> Harmless(chunks, c)
  }

  /** No label of a chunk that is still to be granted is out. */
  predicate Unused(chunks: set<Chunk>, s: State) {
    forall c, x :: c in chunks && c !in s.flags && x in s.out ==> !c.Contains(x)
  }

  predicate Sane(chunks: set<Chunk>, s: State) {
    s.flags.Keys <= chunks && Inv(s.flags, s.out) && Unused(chunks, s)
  }

  lemma GrantKeeps(chunks: set<Chunk>, s: State, c: Chunk)
    requires AllHarmless(chunks) && Sane(chunks, s) && c in chunks && c !in s.flags
    ensures Sane(chunks, Next(s, Grant(c)))
  {
    var t := Next(s, Grant(c));
    assert forall d :: d in s.flags ==> t.flags[d] == s.flags[d];
    assert forall x :: c.start <= x <= c.end && x in s.out ==> c.Contains(x);
  }

  lemma AssignKeeps(chunks: set<Chunk>, s: State, order: seq<Chunk>)
    requires AllHarmless(chunks) && Sane(chunks, s) && IsOrder(s.flags, order)
    ensures Sane(chunks, Next(s, Assign(order)))
  {
    TryAllKeeps(s.flags, s.out, order);
    var a := TryAll(s.flags, order);
    if a.mark != 0 {
      var from := a.from.value;
      forall c | c in chunks && c !in s.flags
        ensures !c.Contains(a.mark)
      {
        assert Disjoint(c, from) && Harmless(chunks, from);
      }
    }
  }

  lemma StepKeepsSane(chunks: set<Chunk>, s: State, e: Event)
    requires AllHarmless(chunks) && Sane(chunks, s) && Possible(chunks, s, e)
    ensures Sane(chunks, Next(s, e))
  {
    match e
    case Grant(c) => GrantKeeps(chunks, s, c);
    case Assign(order) => AssignKeeps(chunks, s, order);
    case Release(mark, from) => ReleaseKeeps(s, mark, from);
  }

  lemma {:induction false} RunKeepsSane(chunks: set<Chunk>, run: seq<Event>, s: State)
    requires AllHarmless(chunks) && Reaches(chunks, run, s)
    ensures Sane(chunks, s)
  {
    if run != [] {
      var n := |run| - 1;
      var before := After(run[..n]);
      RunKeepsSane(chunks, run[..n], before);
      StepKeepsSane(chunks, before, run[n]);
    }
  }

  // ----- What may go wrong, and when it cannot

  /** In every run, an assigned label is in the chunk that it was taken from. */
  ghost predicate AlwaysInside(chunks: set<Chunk>) {
    forall s, order {:trigger Reachable(chunks, s), IsOrder(s.flags, order)} ::
      Reachable(chunks, s) && IsOrder(s.flags, order) ==>
        var a := TryAll(s.flags, order); a.mark != 0 ==> a.from.value.Contains(a.mark)
  }

  /** In every run, an assignment fails only when every label of every granted chunk is out. */
  ghost predicate FailsOnlyWhenFull(chunks: set<Chunk>) {
    forall s, order {:trigger Reachable(chunks, s), IsOrder(s.flags, order)} ::
      Reachable(chunks, s) && IsOrder(s.flags, order) && TryAll(s.flags, order).mark == 0 ==>
        forall c, x :: c in s.flags && c.start <= x <= c.end ==> x in s.out
  }

  /** The chunk, rounded up to whole words, exceeds 32 bits by at most one bit. */
  predicate InsideChunk(c: Chunk) {
    c.start + c.Rounded() <= LABELS + 1
  }

  /** The chunk does not start at zero and, rounded up, does not exceed 32 bits unless it is the
      only one. */
  predicate FairChunk(chunks: set<Chunk>, c: Chunk) {
    c.start > 0 && (c.start + c.Rounded() <= LABELS || forall d :: d in chunks ==> d == c)
  }

  lemma InsideSuffices(chunks: set<Chunk>)
    requires AllProper(chunks) && forall c :: c in chunks ==> InsideChunk(c)
    ensures AlwaysInside(chunks)
  {
    forall s, order | Reachable(chunks, s) && IsOrder(s.flags, order)
      ensures var a := TryAll(s.flags, order); a.mark != 0 ==> a.from.value.Contains(a.mark)
    {
      var run :| Reaches(chunks, run, s);
      RunKeepsSane(chunks, run, s);
      TryAllKeeps(s.flags, s.out, order);
      var a := TryAll(s.flags, order);
      assert a.mark != 0 ==> InsideChunk(a.from.value);
    }
  }

  lemma FairSuffices(chunks: set<Chunk>)
    requires AllProper(chunks) && forall c :: c in chunks ==> FairChunk(chunks, c)
    ensures FailsOnlyWhenFull(chunks)
  {
    forall s, order | Reachable(chunks, s) && IsOrder(s.flags, order) && TryAll(s.flags, order).mark == 0
      ensures forall c, x :: c in s.flags && c.start <= x <= c.end ==> x in s.out
    {
      var run :| Reaches(chunks, run, s);
      RunKeepsSane(chunks, run, s);
      TryAllKeeps(s.flags, s.out, order);
      var a := TryAll(s.flags, order);
      forall c | c in s.flags
        ensures AllOut(s.out, c) && c.start > 0
      {
        assert FairChunk(chunks, c);
        if a.from.Some? {
          assert FairChunk(chunks, a.from.value);
        }
      }
    }
  }

  lemma OneStepMore(chunks: set<Chunk>, run: seq<Event>, s: State, e: Event)
    requires Reaches(chunks, run, s) && Possible(chunks, s, e)
    ensures Reaches(chunks, run + [e], Next(s, e))
  {
    assert (run + [e])[..|run|] == run;
  }

  function FirstBits(k: nat): (r: set<nat>)
    ensures forall i :: i in r <==> 0 <= i < k
  {
    if k == 0 then {} else FirstBits(k - 1) + {k - 1}
  }

  lemma {:induction false} FreeSkips(flags: set<nat>, j: nat, k: nat, n: nat)
    requires j <= k < n && k !in flags && forall i :: j <= i < k ==> i in flags
    ensures FreeFrom(flags, j, n) == Some(k)
    decreases k - j
  {
    if j < k {
      FreeSkips(flags, j + 1, k, n);
    }
  }

  /** The state after one chunk has been granted and `k` of its bits have been taken. */
  ghost predicate Filled(s: State, c: Chunk, k: nat) {
    s.flags == map[c := FirstBits(k)] && forall x :: x in s.out ==> c.Contains(x)
  }

  /** A chunk alone can be filled bit by bit, up to the one whose label wraps around to zero. */
  lemma {:induction false} Fill(chunks: set<Chunk>, c: Chunk, k: nat) returns (run: seq<Event>, s: State)
    requires c in chunks && c.Proper() && k <= c.Rounded() && c.start + k <= LABELS + 1
    ensures Reaches(chunks, run, s) && Filled(s, c, k)
  {
    if k == 0 {
      run, s := GrantAlone(chunks, c);
    } else {
      run, s := Fill(chunks, c, k - 1);
      FillOne(chunks, run, s, c, k - 1);
      run, s := run + [Assign([c])], Next(s, Assign([c]));
    }
  }

  lemma GrantAlone(chunks: set<Chunk>, c: Chunk) returns (run: seq<Event>, s: State)
    requires c in chunks
    ensures Reaches(chunks, run, s) && Filled(s, c, 0) && s.out == multiset{}
  {
    assert Reaches(chunks, [], INITIAL);
    OneStepMore(chunks, [], INITIAL, Grant(c));
    run, s := [] + [Grant(c)], Next(INITIAL, Grant(c));
  }

  lemma FillOne(chunks: set<Chunk>, run: seq<Event>, s: State, c: Chunk, k: nat)
    requires Reaches(chunks, run, s) && Filled(s, c, k) && c.Proper() && k < c.Rounded() && c.start + k <= LABELS
    ensures Defined(s, Assign([c])) && Reaches(chunks, run + [Assign([c])], Next(s, Assign([c])))
    ensures Filled(Next(s, Assign([c])), c, k + 1)
  {
    TakesNext(s, c, k);
    OneStepMore(chunks, run, s, Assign([c]));
  }

  lemma TryOne(fs: Flags, c: Chunk)
    requires c in fs
    ensures TryAll(fs, [c]) == Try(fs, c)
  {
    assert [c][..0] == [];
  }

  lemma TakesBit(fs: Flags, c: Chunk, k: nat)
    requires c in fs && fs[c] == FirstBits(k) && k < c.Rounded()
    ensures var x, taken := Wrap32(c.start + k), fs[c := FirstBits(k + 1)];
            Try(fs, c) == if x <= c.end then Attempt(taken, Some(c), x) else Attempt(taken, None, 0)
  {
    FreeSkips(fs[c], 0, k, c.Rounded());
    assert fs[c] + {k} == FirstBits(k + 1);
  }

  lemma TakesNext(s: State, c: Chunk, k: nat)
    requires Filled(s, c, k) && c.Proper() && k < c.Rounded()
    ensures IsOrder(s.flags, [c])
    ensures var a, x := TryAll(s.flags, [c]), Wrap32(c.start + k);
            a == if x <= c.end then Attempt(map[c := FirstBits(k + 1)], Some(c), x)
                 else Attempt(map[c := FirstBits(k + 1)], None, 0)
    ensures c.start + k <= LABELS ==> Filled(Next(s, Assign([c])), c, k + 1)
  {
    TakesBit(s.flags, c, k);
    TryOne(s.flags, c);
    LabelOfBit(c, k);
  }

  lemma InsideIsNeeded(chunks: set<Chunk>, c: Chunk)
    requires AllProper(chunks) && c in chunks && !InsideChunk(c)
    ensures !AlwaysInside(chunks)
  {
    var k := LABELS - c.start + 1;
    RoundedSize(c);
    var run, s := Fill(chunks, c, k);
    WrapsToOne(s, c, k);
    Outside(chunks, run, s, c);
  }

  lemma WrapsToOne(s: State, c: Chunk, k: nat)
    requires Filled(s, c, k) && c.Proper() && k < c.Rounded() && 1 < c.start == LABELS + 1 - k
    ensures IsOrder(s.flags, [c]) && TryAll(s.flags, [c]).mark == 1 && TryAll(s.flags, [c]).from == Some(c)
  {
    TakesNext(s, c, k);
  }

  /** An assignment that takes the label one from a chunk that starts above it. */
  lemma Outside(chunks: set<Chunk>, run: seq<Event>, s: State, c: Chunk)
    requires Reaches(chunks, run, s) && IsOrder(s.flags, [c])
    requires TryAll(s.flags, [c]).mark == 1 < c.start && TryAll(s.flags, [c]).from == Some(c)
    ensures !AlwaysInside(chunks)
  {
    assert Reachable(chunks, s);
  }

  /** Labels are always taken from within a chunk exactly if no chunk, rounded up, exceeds 32 bits by
      more than one bit. */
  lemma AlwaysInsideIff(chunks: set<Chunk>)
    requires AllProper(chunks)
    ensures AlwaysInside(chunks) <==> forall c :: c in chunks ==> InsideChunk(c)
  {
    if forall c :: c in chunks ==> InsideChunk(c) {
      InsideSuffices(chunks);
    } else {
      var c :| c in chunks && !InsideChunk(c);
      InsideIsNeeded(chunks, c);
    }
  }

  lemma FairIsNeeded(chunks: set<Chunk>, c: Chunk)
    requires AllProper(chunks) && c in chunks && !FairChunk(chunks, c)
    ensures !FailsOnlyWhenFull(chunks)
  {
    RoundedSize(c);
    if c.start == 0 {
      FairIsNeededAtZero(chunks, c);
    } else {
      var d :| d in chunks && d != c;
      FairIsNeededBesides(chunks, c, d);
    }
  }

  /** The first label of the chunk is zero, which reads as failure. */
  lemma FairIsNeededAtZero(chunks: set<Chunk>, c: Chunk)
    requires c in chunks && c.Proper() && c.start == 0
    ensures !FailsOnlyWhenFull(chunks)
  {
    RoundedSize(c);
    var run, s := GrantAlone(chunks, c);
    TakesNext(s, c, 0);
    Unfair(chunks, run, s, c, c);
  }

  lemma FairIsNeededBesides(chunks: set<Chunk>, c: Chunk, d: Chunk)
    requires AllProper(chunks) && c in chunks && d in chunks && c != d && c.start > 0 && c.start + c.Rounded() > LABELS
    ensures !FailsOnlyWhenFull(chunks)
  {
    var k := LABELS - c.start;
    var run, s := Fill(chunks, c, k);
    OneStepMore(chunks, run, s, Grant(d));
    var t := Next(s, Grant(d));
    assert t.flags[c] == FirstBits(k);
    assert Disjoint(c, d) && !c.Contains(d.start);
    WrapsToZero(t, c, k);
    Unfair(chunks, run + [Grant(d)], t, c, d);
  }

  /** The next bit has the label zero, which ends the search. */
  lemma WrapsToZero(s: State, c: Chunk, k: nat)
    requires c in s.flags && s.flags[c] == FirstBits(k) && c.Proper() && k < c.Rounded() && c.start + k == LABELS
    ensures IsOrder(s.flags, [c]) && TryAll(s.flags, [c]).mark == 0
  {
    TakesBit(s.flags, c, k);
    TryOne(s.flags, c);
  }

  /** An assignment that fails although the first label of `d` is not out. */
  lemma Unfair(chunks: set<Chunk>, run: seq<Event>, s: State, c: Chunk, d: Chunk)
    requires Reaches(chunks, run, s) && IsOrder(s.flags, [c]) && TryAll(s.flags, [c]).mark == 0
    requires d in s.flags && d.Proper() && d.start !in s.out
    ensures !FailsOnlyWhenFull(chunks)
  {
    assert Reachable(chunks, s);
  }

  /** Assignments fail only when every label is out, exactly if no chunk starts at zero and none
      exceeds 32 bits when rounded up, unless it is the only one. */
  lemma FailsOnlyWhenFullIff(chunks: set<Chunk>)
    requires AllProper(chunks)
    ensures FailsOnlyWhenFull(chunks) <==> forall c :: c in chunks ==> FairChunk(chunks, c)
  {
    if forall c :: c in chunks ==> FairChunk(chunks, c) {
      FairSuffices(chunks);
    } else {
      var c :| c in chunks && !FairChunk(chunks, c);
      FairIsNeeded(chunks, c);
    }
  }

  /** Starts above zero and, rounded up to whole words, ends within 32 bits. */
  predicate Sound(c: Chunk) {
    0 < c.start && c.start + c.Rounded() <= LABELS
  }

  /** With sound, disjoint chunks: in every state of every run, the labels out are distinct and
      within granted chunks; each assignment hands out one that is not out, or fails because
      every label is out. */
  lemma LabelsAreSafe(chunks: set<Chunk>, run: seq<Event>, s: State)
    requires AllProper(chunks) && forall c :: c in chunks ==> Sound(c)
    requires Reaches(chunks, run, s)
    ensures forall x :: s.out[x] <= 1
    ensures forall x :: x in s.out ==> exists c :: c in s.flags && c.Contains(x)
    ensures forall order :: IsOrder(s.flags, order) ==>
              var x := TryAll(s.flags, order).mark;
              if x != 0 then x !in s.out && exists c :: c in s.flags && c.Contains(x)
              else forall c, y :: c in s.flags && c.start <= y <= c.end ==> y in s.out
  {
    RunKeepsSane(chunks, run, s);
    OutIsInside(chunks, run, s);
    forall x
      ensures s.out[x] <= 1
    {
      if x in s.out {
        var c :| c in s.flags && c.Contains(x);
        assert Tracks(s.flags[c], s.out, c);
      }
    }
    assert Reachable(chunks, s);
    forall order | IsOrder(s.flags, order)
      ensures var x := TryAll(s.flags, order).mark;
              if x != 0 then x !in s.out && exists c :: c in s.flags && c.Contains(x)
              else forall c, y :: c in s.flags && c.start <= y <= c.end ==> y in s.out
    {
      TryAllKeeps(s.flags, s.out, order);
      FairSuffices(chunks);
    }
  }

  predicate OutInside(s: State) {
    forall x :: x in s.out ==> x > 0 && exists c :: c in s.flags && c.Contains(x)
  }

  lemma {:induction false} OutIsInside(chunks: set<Chunk>, run: seq<Event>, s: State)
    requires AllProper(chunks) && (forall c :: c in chunks ==> Sound(c)) && Reaches(chunks, run, s)
    ensures OutInside(s)
  {
    if run != [] {
      var n := |run| - 1;
      var before := After(run[..n]);
      OutIsInside(chunks, run[..n], before);
      RunKeepsSane(chunks, run[..n], before);
      OutStaysInside(chunks, before, run[n]);
    }
  }

  lemma OutStaysInside(chunks: set<Chunk>, s: State, e: Event)
    requires AllProper(chunks) && (forall c :: c in chunks ==> Sound(c)) && Sane(chunks, s) && OutInside(s)
    requires Possible(chunks, s, e)
    ensures OutInside(Next(s, e))
  {
    var t := Next(s, e);
    assert forall c :: c in s.flags ==> c in t.flags;
    if e.Assign? {
      TryAllKeeps(s.flags, s.out, e.order);
      var a := TryAll(s.flags, e.order);
      assert a.mark != 0 ==> Sound(a.from.value) && a.from.value in t.flags;
    }
  }

  // ----- The allocator

  class LabelAllocator {
    var maps: map<Chunk, Bitmap>
    ghost var flags: Flags
    ghost var out: multiset<nat>  // what has been assigned and not released

    /** Every chunk has a bitmap of its own, of the rounded size, with the flags of the chunk. */
    ghost predicate Valid()
      reads this`maps, this`flags, maps.Values
    {
      maps.Keys == flags.Keys &&
      (forall c :: c in maps ==> Kept(c)) &&
      forall c, d :: c in maps && d in maps && c != d ==> maps[c] != maps[d]
    }

    ghost predicate Kept(c: Chunk)
      requires c in maps && c in flags
      reads this`maps, this`flags, maps[c]
    {
      maps[c].Capacity() == c.Rounded() && maps[c].Flags() == flags[c]
    }

    ghost function Value(): State
      reads this
    {
      State(flags, out)
    }

    constructor ()
      ensures Valid() && Value() == INITIAL
    {
      maps, flags, out := map[], map[], multiset{};
    }

    /** The chunk starts over, even if the same one was granted before. */
    method GrantChunk(start: Word32, end: Word32)
      requires Valid()
      modifies this
      ensures Valid() && Value() == Next(old(Value()), Grant(Chunk(start, end)))
      ensures fresh(maps.Values - old(maps).Values)
    {
      var c := Chunk(start, end);
      var b := NewBitmap(c);
      Install(c, b);
    }

    method Install(c: Chunk, b: Bitmap)
      requires Valid() && b !in maps.Values
      requires b.Capacity() == c.Rounded() && b.Flags() == {}
      modifies this
      ensures Valid() && maps == old(maps)[c := b] && Value() == Next(old(Value()), Grant(c))
    {
      assert forall d :: d in maps ==> maps[d] in maps.Values && Kept(d);
      maps, flags := maps[c := b], flags[c := {}];
      assert Kept(c);
    }

    method TakeBit(c: Chunk) returns (found: bool, i: nat)
      requires Valid() && c in maps
      modifies this`flags, maps[c]
      ensures Valid()
      ensures FreeFrom(old(flags)[c], 0, c.Rounded()) == if found then Some(i) else None
      ensures flags == if found then old(flags)[c := old(flags)[c] + {i}] else old(flags)
    {
      assert Kept(c);
      found, i := maps[c].FindAndSetZeroBit();
      FoundIsFree(flags[c], c.Rounded(), found, i);
      if found {
        flags := flags[c := flags[c] + {i}];
      }
      assert forall d :: d in maps && d != c ==> maps[d] != maps[c] && old(Kept(d)) && Kept(d) == old(Kept(d));
    }

    /** Tries one chunk; `stop` tells that it had a bit that the last test admits. */
    method AssignFrom(c: Chunk) returns (stop: bool, mark: Word32)
      requires Valid() && c in maps
      modifies this`flags, maps[c]
      ensures Valid() && Try(old(flags), c) == Attempt(flags, if stop then Some(c) else None, mark)
    {
      ghost var before := flags;
      var found, i := TakeBit(c);
      BitTried(before, c, found, i);
      if found && Wrap32(c.start + i) <= c.end {
        return true, Wrap32(c.start + i);
      }
      return false, 0;
    }

    /** Tries one more of the chunks `todo`. */
    method AssignNext(c: Chunk, todo: set<Chunk>, ghost before: Flags, ghost order: seq<Chunk>)
      returns (stop: bool, mark: Word32)
      requires Valid() && c in maps && c in todo && Tried(before, flags, order, todo)
      modifies this`flags, maps[c]
      ensures Valid() && (!stop ==> mark == 0)
      ensures if stop then Ended(before, flags, order + [c], mark) else Tried(before, flags, order + [c], todo - {c})
    {
      OneMoreTried(before, order, c);
      stop, mark := AssignFrom(c);
    }

    /** Hands out a label; zero means failure. */
    method AssignMplsLabel() returns (mark: Word32, ghost order: seq<Chunk>)
      requires Valid()
      modifies this`flags, this`out, maps.Values
      ensures Valid() && IsOrder(old(flags), order)
      ensures Value() == Next(old(Value()), Assign(order)) && mark == TryAll(old(flags), order).mark
    {
      mark, order := Search();
      if mark != 0 {
        out := out + multiset{mark};
      }
    }

    /** Tries the chunks in the order in which the map yields them. */
    method Search() returns (mark: Word32, ghost order: seq<Chunk>)
      requires Valid()
      modifies this`flags, maps.Values
      ensures Valid() && Ended(old(flags), flags, order, mark)
    {
      mark, order := 0, [];
      var todo := maps.Keys;
      while todo != {}
        invariant Valid() && todo <= maps.Keys && mark == 0
        invariant Tried(old(flags), flags, order, todo)
      {
        var c :| c in todo;
        var stop;
        stop, mark := AssignNext(c, todo, old(flags), order);
        order := order + [c];
        if stop {
          break;
        }
        todo := todo - {c};
      }
    }

    /** `ok` is false where the index is beyond the bitmap, which panics. */
    method ReleaseMplsLabel(mark: Word32) returns (ok: bool, from: Option<Chunk>)
      requires Valid()
      modifies this`flags, this`out, maps.Values
      ensures Valid() && Defined(old(Value()), Release(mark, from))
      ensures ok <==> from.None? || mark - from.value.start < from.value.Rounded()
      ensures Value() == if ok then Next(old(Value()), Release(mark, from)) else old(Value())
    {
      ghost var s := Value();
      from := ChunkOf(mark);
      ok := true;
      if from.Some? {
        ok := GiveBit(from.value, mark - from.value.start);
      }
      if ok {
        ReleasedState(s, mark, from, flags);
        out := out - multiset{mark};
      }
    }

    /** The first chunk found that contains the label, in an arbitrary order. */
    method ChunkOf(mark: Word32) returns (from: Option<Chunk>)
      requires maps.Keys == flags.Keys
      ensures Defined(Value(), Release(mark, from))
    {
      var todo := maps.Keys;
      while todo != {}
        invariant todo <= maps.Keys
        invariant forall c :: c in maps.Keys - todo ==> !c.Contains(mark)
      {
        var c :| c in todo;
        if c.start <= mark && mark <= c.end {
          return Some(c);
        }
        todo := todo - {c};
      }
      return None;
    }

    method GiveBit(c: Chunk, i: nat) returns (ok: bool)
      requires Valid() && c in maps
      modifies this`flags, maps[c]
      ensures Valid() && (ok <==> i < c.Rounded())
      ensures flags == if ok then old(flags)[c := old(flags)[c] - {i}] else old(flags)
    {
      assert Kept(c);
      if i >= maps[c].Capacity() {
        return false;
      }
      maps[c].Unflag(i);
      flags := flags[c := flags[c] - {i}];
      assert forall d :: d in maps && d != c ==> maps[d] != maps[c] && old(Kept(d)) && Kept(d) == old(Kept(d));
      return true;
    }
  }

  lemma BitTried(fs: Flags, c: Chunk, found: bool, i: nat)
    requires c in fs && FreeFrom(fs[c], 0, c.Rounded()) == if found then Some(i) else None
    ensures var x, taken := Wrap32(c.start + i), fs[c := fs[c] + {i}];
            Try(fs, c) == if !found then Attempt(fs, None, 0)
                          else if x <= c.end then Attempt(taken, Some(c), x) else Attempt(taken, None, 0)
  {
  }

  lemma ReleasedState(s: State, mark: Word32, from: Option<Chunk>, flags: Flags)
    requires Defined(s, Release(mark, from))
    requires flags == if from.None? then s.flags
                      else s.flags[from.value := s.flags[from.value] - {mark - from.value.start}]
    ensures Next(s, Release(mark, from)) == State(flags, s.out - multiset{mark})
  {
  }

  method NewBitmap(c: Chunk) returns (b: Bitmap)
    ensures fresh(b) && b.Capacity() == c.Rounded() && b.Flags() == {}
  {
    b := new Bitmap(c.Size());
  }

  lemma FoundIsFree(flags: set<nat>, n: nat, found: bool, i: nat)
    requires found ==> i < n && i !in flags && forall k: nat :: k < i ==> k in flags
    requires !found ==> forall k: nat :: k < n ==> k in flags
    ensures FreeFrom(flags, 0, n) == if found then Some(i) else None
  {
    if found {
      FreeSkips(flags, 0, i, n);
    }
  }

  /** The chunks besides `todo` have been tried without ending the search. */
  ghost predicate Tried(before: Flags, now: Flags, order: seq<Chunk>, todo: set<Chunk>) {
    && (forall c :: c in order <==> c in before && c !in todo)
    && NoDuplicates(order) && now.Keys == before.Keys
    && TryAll(before, order) == Attempt(now, None, 0)
  }

  /** The search ended with the last chunk of the order. */
  ghost predicate Ended(before: Flags, now: Flags, order: seq<Chunk>, mark: Word32) {
    IsOrder(before, order) && TryAll(before, order).flags == now && TryAll(before, order).mark == mark
  }

  lemma OneMoreTried(before: Flags, order: seq<Chunk>, c: Chunk)
    requires (forall d :: d in order ==> d in before) && NoDuplicates(order) && c in before && c !in order
    requires TryAll(before, order).from.None?
    ensures NoDuplicates(order + [c])
    ensures forall d :: d in order + [c] <==> d in order || d == c
    ensures TryAll(before, order + [c]) == Try(TryAll(before, order).flags, c)
  {
    assert (order + [c])[..|order|] == order;
  }
}
