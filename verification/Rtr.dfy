/** The client of the RPKI-to-Router protocol: what the messages of cache servers do to the shared
    table of route origin authorisations. */
module Rtr {
  import opened Common
  import opened RoaTables

  const WORD := 0x1_0000_0000

  type Word32 = n: nat | n < WORD
  type Word16 = n: nat | n < 0x1_0000

  /** Whether the difference of two 32-bit serial numbers is negative as a signed number. */
  predicate Before(a: Word32, b: Word32) {
    (a - b) % WORD >= 0x8000_0000
  }

  /** A serial number is before the ones up to half the number space ahead of it. */
  lemma BeforeIffAhead(a: Word32, d: Word32)
    ensures Before(a, (a + d) % WORD) <==> 1 <= d <= 0x8000_0000
  {
    var b := (a + d) % WORD;
    assert b == a + d || b == a + d - WORD;
    if b == a + d {
      assert d > 0 ==> (a - b) % WORD == WORD - d;
    }
  }

  /** Of two different serial numbers exactly one is before the other, unless they are half the
      number space apart: then each is before the other. */
  lemma BeforeIsAntisymmetricIff(a: Word32, b: Word32)
    requires a != b
    ensures Before(a, b) || Before(b, a)
    ensures Before(a, b) && Before(b, a) <==> a - b == 0x8000_0000 || b - a == 0x8000_0000
  {
    if a > b {
      assert (b - a) % WORD == WORD - (a - b);
    } else {
      assert (a - b) % WORD == WORD - (b - a);
    }
  }

  // ----- State

  type Host = s: Source | s.HostPort? witness HostPort("", "")

  /** `timer` is the life timer that the client remembers; timers are told apart by a number. */
  datatype Client = Client(
    connected: bool, sessionID: Word16, oldSessionID: Word16, serialNumber: Word32,
    endOfData: bool, pending: seq<Roa>, timer: Option<nat>)

  const NEW_CLIENT := Client(false, 0, 0, 0, false, [], None)

  datatype Message =
    | SerialNotify(serial: Word32)
    | Query
    | CacheResponse
    | IpPrefix(announce: bool, ip6: bool, network: Prefix, maxLen: nat, asn: nat)
    | EndOfData(session: Word16, serial: Word32)
    | CacheReset
    | ErrorReport
    | Malformed

  /** `t` is the life timer that is armed, or that has expired; `writes` tells whether writing to
      the connection succeeds if it is tried. */
  datatype Event =
    | Connected(h: Host, writes: bool)
    | Disconnected(h: Host, t: nat)
    | Received(h: Host, msg: Message, writes: bool)
    | LifeTimeout(h: Host, t: nat)
    | AddServer(h: Host)
    | DeleteServer(h: Host)
    | Disable(h: Host)
    | SoftReset(h: Host, writes: bool)

  datatype State = State(clients: map<Host, Client>, stored: set<Roa>)

  // ----- What each event does

  function SoftlyReset(c: Client, writes: bool): Client {
    if c.connected && writes then c.(endOfData := false, pending := []) else c
  }

  function RoaOf(h: Host, m: Message): Roa
    requires m.IpPrefix?
  {
    Roa(m.ip6, m.network, m.maxLen, m.asn, h)
  }

  function ReceivedBy(h: Host, c: Client, stored: set<Roa>, m: Message, writes: bool): (Client, set<Roa>) {
    match m
    case SerialNotify(serial) =>
      (if Before(c.serialNumber, serial) || c.serialNumber == serial then c else SoftlyReset(c, writes), stored)
    case CacheResponse => (c.(endOfData := false), stored)
    case IpPrefix(announce, _, _, _, _) =>
      if !announce then (c, Edited(stored, Deleted(RoaOf(h, m))))
      else if c.endOfData then (c, Edited(stored, Added(RoaOf(h, m))))
      else (c.(pending := c.pending + [RoaOf(h, m)]), stored)
    case EndOfData(session, serial) =>
      (c.(sessionID := session, serialNumber := serial, endOfData := true, pending := [], timer := None),
       (if c.sessionID != session then Edited(stored, DeletedAll(h)) else stored) + SetOf(c.pending))
    case CacheReset => (SoftlyReset(c, writes), stored)
    case Query => (c, stored)
    case ErrorReport => (c, stored)
    case Malformed => (c, stored)
  }

  function HandledBy(h: Host, c: Client, stored: set<Roa>, e: Event): (Client, set<Roa>) {
    match e
    case Connected(_, writes) => (SoftlyReset(c.(connected := true), writes), stored)
    case Disconnected(_, t) =>
      (c.(connected := false, endOfData := false, pending := [], oldSessionID := c.sessionID, timer := Some(t)), stored)
    case Received(_, m, writes) => ReceivedBy(h, c, stored, m, writes)
    case LifeTimeout(_, _) =>
      (c, if c.oldSessionID != c.sessionID then stored else Edited(stored, DeletedAll(h)))
    case AddServer(_) => (c, stored)
    case DeleteServer(_) => (c, Edited(stored, DeletedAll(h)))
    case Disable(_) => (c, Edited(stored, DeletedAll(Bare(h.address))))
    case SoftReset(_, writes) => (SoftlyReset(c, writes), Edited(stored, DeletedAll(h)))
  }

  /** Events of hosts that are not configured have no effect. */
  function Step(s: State, e: Event): State {
    if e.h !in s.clients then
      if e.AddServer? then s.(clients := s.clients[e.h := NEW_CLIENT]) else s
    else
      var (c, stored) := HandledBy(e.h, s.clients[e.h], s.stored, e);
      State(if e.DeleteServer? then s.clients - {e.h} else s.clients[e.h := c], stored)
  }

  const INITIAL := State(map[], {})

  function After(s: State, es: seq<Event>): State {
    if es == [] then s else Step(After(s, es[..|es| - 1]), es[|es| - 1])
  }

  // ----- What holds in every state

  /** Pending authorisations are the client's own, and stored ones are filed under hosts. */
  predicate Inv(s: State) {
    (forall h :: h in s.clients ==> forall r :: r in s.clients[h].pending ==> r.src == h) &&
    forall r :: r in s.stored ==> r.src.HostPort?
  }

  lemma StepKeepsInv(s: State, e: Event)
    requires Inv(s)
    ensures Inv(Step(s, e))
  {
  }

  lemma {:induction false} RunKeepsInv(s: State, es: seq<Event>)
    requires Inv(s)
    ensures Inv(After(s, es))
  {
    if es != [] {
      RunKeepsInv(s, es[..|es| - 1]);
      StepKeepsInv(After(s, es[..|es| - 1]), es[|es| - 1]);
    }
  }

  // ----- Isolation

  function OfHost(s: State, h: Host): set<Roa> {
    OfSource(s.stored, h)
  }

  function Of(es: seq<Event>, h: Host): seq<Event> {
    if es == [] then []
    else
      var n := |es| - 1;
      Of(es[..n], h) + if es[n].h == h then [es[n]] else []
  }

  /** Two states look the same to a host: its client and its authorisations. */
  predicate SameFor(h: Host, s: State, t: State) {
    (h in s.clients <==> h in t.clients) && (h in s.clients ==> s.clients[h] == t.clients[h]) &&
      OfHost(s, h) == OfHost(t, h)
  }

  lemma OthersStepIsInvisible(h: Host, s: State, e: Event)
    requires Inv(s) && e.h != h
    ensures SameFor(h, s, Step(s, e))
  {
  }

  lemma OwnStepIsDetermined(h: Host, s: State, t: State, e: Event)
    requires Inv(s) && Inv(t) && SameFor(h, s, t) && e.h == h
    ensures SameFor(h, Step(s, e), Step(t, e))
  {
    if h in s.clients {
      var a, b := Step(s, e), Step(t, e);
      assert OfHost(a, h) == OfHost(b, h) by {
        forall r
          ensures r in OfHost(a, h) <==> r in OfHost(b, h)
        {
          assert r in OfHost(s, h) <==> r in OfHost(t, h);
        }
      }
    }
  }

  /** What a host has in the table depends on nothing but its own events, in every run. */
  lemma {:induction false} HostsAreIsolated(s: State, es: seq<Event>, h: Host)
    requires Inv(s)
    ensures SameFor(h, After(s, es), After(s, Of(es, h)))
  {
    if es != [] {
      var n := |es| - 1;
      HostsAreIsolated(s, es[..n], h);
      RunKeepsInv(s, es[..n]);
      RunKeepsInv(s, Of(es[..n], h));
      if es[n].h == h {
        OwnStepIsDetermined(h, After(s, es[..n]), After(s, Of(es[..n], h)), es[n]);
        assert (Of(es[..n], h) + [es[n]])[..|Of(es[..n], h)|] == Of(es[..n], h);
      } else {
        OthersStepIsInvisible(h, After(s, es[..n]), es[n]);
        assert Of(es[..n], h) + [] == Of(es[..n], h);
      }
    }
  }

  // ----- Publication

  predicate EndsData(e: Event, h: Host) {
    e.Received? && e.h == h && e.msg.EndOfData?
  }

  /** Until the End of Data message arrives, a host's authorisations in the table only disappear,
      whatever the host announces and whatever other hosts do. */
  lemma {:induction false} NothingPublishedBeforeEndOfData(s: State, es: seq<Event>, h: Host)
    requires Inv(s) && h in s.clients && !s.clients[h].endOfData
    requires forall e :: e in es ==> !EndsData(e, h)
    ensures OfHost(After(s, es), h) <= OfHost(s, h)
    ensures h in After(s, es).clients ==> !After(s, es).clients[h].endOfData
  {
    if es != [] {
      var n := |es| - 1;
      NothingPublishedBeforeEndOfData(s, es[..n], h);
      RunKeepsInv(s, es[..n]);
      assert es[n] in es;
      if es[n].h != h {
        OthersStepIsInvisible(h, After(s, es[..n]), es[n]);
      }
    }
  }

  /** The updates of one response, as edits of the table. */
  function EditsOf(h: Host, us: seq<Message>): (r: seq<Edit>)
    requires forall u :: u in us ==> u.IpPrefix?
    ensures |r| == |us|
    ensures forall i :: 0 <= i < |us| ==>
              r[i] == if us[i].announce then Added(RoaOf(h, us[i])) else Deleted(RoaOf(h, us[i]))
  {
    seq(|us|, i requires 0 <= i < |us| =>
      if us[i].announce then Added(RoaOf(h, us[i])) else Deleted(RoaOf(h, us[i])))
  }

  function Announced(h: Host, us: seq<Message>): set<Roa>
    requires forall u :: u in us ==> u.IpPrefix?
  {
    set u | u in us && u.announce :: RoaOf(h, u)
  }

  function Withdrawn(h: Host, us: seq<Message>): set<Roa>
    requires forall u :: u in us ==> u.IpPrefix?
  {
    set u | u in us && !u.announce :: RoaOf(h, u)
  }

  function ReceivedAll(h: Host, us: seq<Message>): (r: seq<Event>)
    ensures |r| == |us|
  {
    seq(|us|, i requires 0 <= i < |us| => Received(h, us[i], true))
  }

  /** While a response comes in, withdrawals take effect at once and announcements are kept. */
  lemma {:induction false} ResponseSoFar(s: State, h: Host, us: seq<Message>)
    requires Inv(s) && h in s.clients && !s.clients[h].endOfData
    requires forall u :: u in us ==> u.IpPrefix?
    ensures var t := After(s, ReceivedAll(h, us));
            h in t.clients && !t.clients[h].endOfData && t.clients[h].sessionID == s.clients[h].sessionID &&
            SetOf(t.clients[h].pending) == SetOf(s.clients[h].pending) + Announced(h, us) &&
            OfHost(t, h) == OfHost(s, h) - Withdrawn(h, us)
  {
    if us != [] {
      var n := |us| - 1;
      assert us == us[..n] + [us[n]];
      ResponseSoFar(s, h, us[..n]);
      assert ReceivedAll(h, us)[..n] == ReceivedAll(h, us[..n]);
      assert us[n] in us;
      var t := After(s, ReceivedAll(h, us[..n]));
      OneUpdateMore(h, us[..n], us[n], t.clients[h].pending);
      UpdateEffect(t, h, us[n]);
    }
  }

  lemma UpdateEffect(s: State, h: Host, u: Message)
    requires h in s.clients && !s.clients[h].endOfData && u.IpPrefix?
    ensures var t := Step(s, Received(h, u, true));
            t.clients == s.clients[h := s.clients[h].(pending :=
              if u.announce then s.clients[h].pending + [RoaOf(h, u)] else s.clients[h].pending)] &&
            OfHost(t, h) == OfHost(s, h) - if u.announce then {} else {RoaOf(h, u)}
  {
  }

  lemma OneUpdateMore(h: Host, us: seq<Message>, u: Message, pending: seq<Roa>)
    requires u.IpPrefix? && forall x :: x in us ==> x.IpPrefix?
    ensures Announced(h, us + [u]) == Announced(h, us) + if u.announce then {RoaOf(h, u)} else {}
    ensures Withdrawn(h, us + [u]) == Withdrawn(h, us) + if u.announce then {} else {RoaOf(h, u)}
    ensures SetOf(pending + [RoaOf(h, u)]) == SetOf(pending) + {RoaOf(h, u)}
  {
    assert forall x :: x in us + [u] <==> x in us || x == u;
    assert forall r :: r in pending + [RoaOf(h, u)] <==> r in pending || r == RoaOf(h, u);
  }

  /** The events of one complete response. */
  function Response(h: Host, us: seq<Message>, session: Word16, serial: Word32): seq<Event> {
    [Received(h, CacheResponse, true)] + ReceivedAll(h, us) + [Received(h, EndOfData(session, serial), true)]
  }

  /** The authorisations that a response starts from: none if it belongs to a new session. */
  function Base(s: State, h: Host, session: Word16): set<Roa>
    requires h in s.clients
  {
    if s.clients[h].sessionID == session then OfHost(s, h) else {}
  }

  /** After a complete response, among any events of other hosts, the host's authorisations are
      its former ones without the withdrawn ones, or none if the session is new, with the announced
      and the formerly pending ones. */
  lemma ResponseEffect(s: State, es: seq<Event>, h: Host, us: seq<Message>, session: Word16, serial: Word32)
    requires Inv(s) && h in s.clients
    requires forall u :: u in us ==> u.IpPrefix?
    requires Of(es, h) == Response(h, us, session, serial)
    ensures var t := After(s, es);
            h in t.clients && t.clients[h].endOfData && t.clients[h].pending == [] &&
            OfHost(t, h) == Base(s, h, session) - Withdrawn(h, us) + Announced(h, us) + SetOf(s.clients[h].pending)
  {
    HostsAreIsolated(s, es, h);
    AloneResponseEffect(s, h, us, session, serial);
  }

  lemma {:induction false} AfterConcat(s: State, a: seq<Event>, b: seq<Event>)
    ensures After(s, a + b) == After(After(s, a), b)
  {
    if b == [] {
      assert a + b == a;
    } else {
      var n := |b| - 1;
      AfterConcat(s, a, b[..n]);
      assert (a + b)[..|a| + n] == a + b[..n];
    }
  }

  lemma AloneResponseEffect(s: State, h: Host, us: seq<Message>, session: Word16, serial: Word32)
    requires Inv(s) && h in s.clients
    requires forall u :: u in us ==> u.IpPrefix?
    ensures var t := After(s, Response(h, us, session, serial));
            h in t.clients && t.clients[h].endOfData && t.clients[h].pending == [] &&
            OfHost(t, h) == Base(s, h, session) - Withdrawn(h, us) + Announced(h, us) + SetOf(s.clients[h].pending)
  {
    var start := Received(h, CacheResponse, true);
    var end := Received(h, EndOfData(session, serial), true);
    AfterConcat(s, [start] + ReceivedAll(h, us), [end]);
    AfterConcat(s, [start], ReceivedAll(h, us));
    var s1 := After(s, [start]);
    assert s1 == Step(s, start) by {
      assert After(s, []) == s;
    }
    ResponseSoFar(s1, h, us);
    var s2 := After(s1, ReceivedAll(h, us));
    assert After(s2, [end]) == Step(s2, end) by {
      assert After(s2, []) == s2;
    }
    RunKeepsInv(s1, ReceivedAll(h, us));
    PublishedAtEndOfData(s2, h, session, serial);
  }

  /** The End of Data message publishes what is pending. */
  lemma PublishedAtEndOfData(s: State, h: Host, session: Word16, serial: Word32)
    requires Inv(s) && h in s.clients
    ensures var t := Step(s, Received(h, EndOfData(session, serial), true));
            h in t.clients && t.clients[h].endOfData && t.clients[h].pending == [] &&
            OfHost(t, h) == Base(s, h, session) + SetOf(s.clients[h].pending)
  {
  }

  /** No announcement comes before a withdrawal of the same authorisation that is its last update. */
  predicate NoneWithdrawnAfterAnnounced(h: Host, us: seq<Message>)
    requires forall u :: u in us ==> u.IpPrefix?
  {
    forall i, j :: 0 <= i < j < |us| && us[i].announce && !us[j].announce && RoaOf(h, us[i]) == RoaOf(h, us[j]) ==>
      exists k :: j < k < |us| && us[k].announce && RoaOf(h, us[k]) == RoaOf(h, us[j])
  }

  /** Withdrawals take effect before the response's announcements do. The outcome is that of the
      updates in their order exactly if nothing is announced and then withdrawn for good. */
  lemma ResponseIsInOrderIff(base: set<Roa>, h: Host, us: seq<Message>)
    requires forall u :: u in us ==> u.IpPrefix?
    ensures (base - Withdrawn(h, us) + Announced(h, us) == EditedByAll(base, EditsOf(h, us))) <==>
            NoneWithdrawnAfterAnnounced(h, us)
  {
    if NoneWithdrawnAfterAnnounced(h, us) {
      forall r: Roa
        ensures r in base - Withdrawn(h, us) + Announced(h, us) <==> r in EditedByAll(base, EditsOf(h, us))
      {
        LastUpdateDecides(base, h, us, r);
      }
    } else {
      var i, j :| 0 <= i < j < |us| && us[i].announce && !us[j].announce && RoaOf(h, us[i]) == RoaOf(h, us[j]) &&
        forall k :: j < k < |us| && us[k].announce ==> RoaOf(h, us[k]) != RoaOf(h, us[j]);
      var r := RoaOf(h, us[j]);
      StoredIffLastEditAdded(base, EditsOf(h, us), r);
      assert EditsOf(h, us)[j].Concerns(r);
      assert us[i] in us && r in Announced(h, us);
      assert r !in EditedByAll(base, EditsOf(h, us));
    }
  }

  lemma LastUpdateDecides(base: set<Roa>, h: Host, us: seq<Message>, r: Roa)
    requires (forall u :: u in us ==> u.IpPrefix?) && NoneWithdrawnAfterAnnounced(h, us)
    ensures r in base - Withdrawn(h, us) + Announced(h, us) <==> r in EditedByAll(base, EditsOf(h, us))
  {
    var es := EditsOf(h, us);
    assert forall j :: 0 <= j < |es| ==> us[j] in us && (es[j].Concerns(r) <==> RoaOf(h, us[j]) == r);
    if j :| 0 <= j < |es| && es[j].Concerns(r) {
      var m := LastConcerning(es, r, j);
      AnnouncedIffLast(h, us, r, m);
      StoredIffLast(base, es, r, m);
      assert !us[m].announce ==> RoaOf(h, us[m]) in Withdrawn(h, us);
    } else {
      StoredIffLastEditAdded(base, es, r);
    }
  }

  lemma StoredIffLast(base: set<Roa>, es: seq<Edit>, r: Roa, m: nat)
    requires m < |es| && es[m].Concerns(r) && forall k :: m < k < |es| ==> !es[k].Concerns(r)
    ensures r in EditedByAll(base, es) <==> es[m] == Added(r)
  {
    StoredIffLastEditAdded(base, es, r);
  }

  lemma AnnouncedIffLast(h: Host, us: seq<Message>, r: Roa, m: nat)
    requires (forall u :: u in us ==> u.IpPrefix?) && NoneWithdrawnAfterAnnounced(h, us)
    requires m < |us| && RoaOf(h, us[m]) == r
    requires forall k :: m < k < |us| ==> RoaOf(h, us[k]) != r
    ensures r in Announced(h, us) <==> us[m].announce
  {
    assert us[m] in us;
    if r in Announced(h, us) {
      var u :| u in us && u.announce && RoaOf(h, u) == r;
      var i :| 0 <= i < |us| && us[i] == u;
      assert i <= m;
    }
  }

  lemma LastConcerning(es: seq<Edit>, r: Roa, j: nat) returns (m: nat)
    requires j < |es| && es[j].Concerns(r)
    ensures j <= m < |es| && es[m].Concerns(r) && forall k :: m < k < |es| ==> !es[k].Concerns(r)
  {
    m := j;
    for i := j + 1 to |es|
      invariant j <= m < i && es[m].Concerns(r)
      invariant forall k :: m < k < i ==> !es[k].Concerns(r)
    {
      if es[i].Concerns(r) {
        m := i;
      }
    }
  }

  // ----- Resets

  /** Disabling by address deletes under the bare address, so no authorisation disappears; a soft
      reset deletes all of the host's. */
  lemma DisableRemovesNothing(es: seq<Event>, h: Host, writes: bool)
    ensures var s := After(INITIAL, es);
            Step(s, Disable(h)).stored == s.stored &&
            (h in s.clients ==> OfHost(Step(s, SoftReset(h, writes)), h) == {})
  {
    RunKeepsInv(INITIAL, es);
  }

  // ----- The life timer

  /** The timers that run after a run of events, with the hosts of the clients that armed them. A
      client stops the timer that it remembers when it receives End of Data. */
  function Timers(es: seq<Event>): map<nat, Host> {
    if es == [] then map[]
    else
      var n := |es| - 1;
      var s, m := After(INITIAL, es[..n]), Timers(es[..n]);
      match es[n]
      case Disconnected(h, t) => if h in s.clients then m[t := h] else m
      case Received(h, EndOfData(_, _), _) =>
        if h in s.clients && s.clients[h].timer.Some? then m - {s.clients[h].timer.value} else m
      case LifeTimeout(_, t) => m - {t}
      case _ => m
  }

  /** The attempts to connect to the host that are under way: one for each new client, and one for
      each connection that a client lost. Attempts for a client deleted meanwhile may succeed. */
  function Dialling(es: seq<Event>, h: Host): int {
    if es == [] then 0
    else
      var n := |es| - 1;
      Dialling(es[..n], h) + if es[n].h == h then AttemptsBy(h in After(INITIAL, es[..n]).clients, es[n]) else 0
  }

  function AttemptsBy(known: bool, e: Event): int {
    match e
    case AddServer(_) => if known then 0 else 1
    case Connected(_, _) => -1
    case Disconnected(_, _) => if known then 1 else 0
    case _ => 0
  }

  /** The connections to the host that are read from. One that is made after the client was deleted
      is closed at once. */
  function Open(es: seq<Event>, h: Host): int {
    if es == [] then 0
    else
      var n := |es| - 1;
      Open(es[..n], h) + if es[n].h == h then ConnectionsBy(h in After(INITIAL, es[..n]).clients, es[n]) else 0
  }

  function ConnectionsBy(known: bool, e: Event): int {
    match e
    case Connected(_, _) => if known then 1 else 0
    case Disconnected(_, _) => -1
    case _ => 0
  }

  /** Connections are made by attempts, lost while they are open, and messages come in over open
      ones; every timer is new when it is armed, and expires while it runs. */
  predicate Possible(es: seq<Event>, e: Event) {
    match e
    case Connected(h, _) => Dialling(es, h) > 0
    case Received(h, _, _) => Open(es, h) > 0
    case Disconnected(h, t) => Open(es, h) > 0 && forall d :: d in es && d.Disconnected? ==> d.t != t
    case LifeTimeout(h, t) => t in Timers(es) && Timers(es)[t] == h
    case _ => true
  }

  predicate PossibleRun(es: seq<Event>) {
    es != [] ==> PossibleRun(es[..|es| - 1]) && Possible(es[..|es| - 1], es[|es| - 1])
  }

  /** The client of `h` arms the timer `t` at the event `i`. */
  predicate Arms(es: seq<Event>, h: Host, t: nat, i: nat) {
    i < |es| && es[i] == Disconnected(h, t) && h in After(INITIAL, es[..i]).clients
  }

  /** The event makes the client of `h` forget its timer without stopping it. */
  predicate Forgets(e: Event, h: Host) {
    e.h == h && (e.Disconnected? || e.DeleteServer?)
  }

  /** The timer armed at `i` has been neither forgotten nor stopped. */
  predicate Kept(es: seq<Event>, h: Host, i: nat) {
    forall k :: i < k < |es| ==> !Forgets(es[k], h) && !EndsData(es[k], h)
  }

  /** The timer armed at `i` has been forgotten before any End of Data message could stop it. */
  predicate Forgotten(es: seq<Event>, h: Host, i: nat) {
    exists j :: i < j < |es| && Forgets(es[j], h) && forall k :: i < k < j ==> !EndsData(es[k], h)
  }

  /** The host was disconnected, and disconnected again or deleted with no End of Data message in
      between, and the timer armed first has not expired yet. */
  ghost predicate LeftOver(es: seq<Event>, h: Host, t: nat) {
    LifeTimeout(h, t) !in es && exists i: nat :: Arms(es, h, t, i) && Forgotten(es, h, i)
  }

  // ----- Timers, event by event

  lemma ArmsOneMore(es: seq<Event>, e: Event, h: Host, t: nat, i: nat)
    ensures Arms(es + [e], h, t, i) <==>
            Arms(es, h, t, i) || (i == |es| && e == Disconnected(h, t) && h in After(INITIAL, es).clients)
  {
    if i < |es| {
      assert (es + [e])[..i] == es[..i];
    } else {
      assert (es + [e])[..|es|] == es;
    }
  }

  lemma KeptOneMore(es: seq<Event>, e: Event, h: Host, i: nat)
    requires i < |es|
    ensures Kept(es + [e], h, i) <==> Kept(es, h, i) && !Forgets(e, h) && !EndsData(e, h)
    ensures Forgotten(es + [e], h, i) <==> Forgotten(es, h, i) || (Kept(es, h, i) && Forgets(e, h))
  {
    var more := es + [e];
    assert more[|es|] == e && forall k :: 0 <= k < |es| ==> more[k] == es[k];
    if Forgotten(more, h, i) && !Forgotten(es, h, i) {
      var j :| i < j < |more| && Forgets(more[j], h) && forall k :: i < k < j ==> !EndsData(more[k], h);
      assert j == |es|;
    }
  }

  lemma OneEventMore(es: seq<Event>, e: Event)
    ensures After(INITIAL, es + [e]) == Step(After(INITIAL, es), e)
    ensures PossibleRun(es + [e]) ==> PossibleRun(es)
  {
    assert (es + [e])[..|es|] == es;
  }

  predicate Remembers(s: State, h: Host, t: nat) {
    h in s.clients && s.clients[h].timer == Some(t)
  }

  predicate RunsFor(m: map<nat, Host>, h: Host, t: nat) {
    t in m && m[t] == h
  }

  ghost predicate ArmedAndKept(es: seq<Event>, h: Host, t: nat) {
    exists i: nat :: Arms(es, h, t, i) && Kept(es, h, i)
  }

  lemma KeptAfter(es: seq<Event>, e: Event, h: Host, t: nat)
    ensures ArmedAndKept(es + [e], h, t) <==>
            (ArmedAndKept(es, h, t) && !Forgets(e, h) && !EndsData(e, h)) ||
            (e == Disconnected(h, t) && h in After(INITIAL, es).clients)
  {
    if i: nat :| Arms(es, h, t, i) && Kept(es, h, i) {
      ArmsOneMore(es, e, h, t, i);
      KeptOneMore(es, e, h, i);
    }
    if i: nat :| Arms(es + [e], h, t, i) && Kept(es + [e], h, i) {
      ArmsOneMore(es, e, h, t, i);
      if i < |es| {
        KeptOneMore(es, e, h, i);
      }
    }
    if e == Disconnected(h, t) && h in After(INITIAL, es).clients {
      ArmsOneMore(es, e, h, t, |es|);
      assert Kept(es + [e], h, |es|);
    }
  }

  /** A client remembers the timer that it armed last, until End of Data stops it. */
  lemma {:induction false} RemembersIff(es: seq<Event>, h: Host, t: nat)
    ensures Remembers(After(INITIAL, es), h, t) <==> ArmedAndKept(es, h, t)
  {
    if es != [] {
      var front, e := es[..|es| - 1], es[|es| - 1];
      RemembersIff(front, h, t);
      KeptAfter(front, e, h, t);
      RemembersAfter(After(INITIAL, front), e, h, t);
      assert es == front + [e];
    }
  }

  lemma RemembersAfter(s: State, e: Event, h: Host, t: nat)
    ensures Remembers(Step(s, e), h, t) <==>
            (Remembers(s, h, t) && !Forgets(e, h) && !EndsData(e, h)) || (e == Disconnected(h, t) && h in s.clients)
  {
  }

  /** A timer runs exactly if it has not expired and its client still remembers it or has forgotten
      it before End of Data could stop it. */
  ghost predicate StillRuns(es: seq<Event>, h: Host, t: nat) {
    LifeTimeout(h, t) !in es && exists i: nat :: Arms(es, h, t, i) && (Kept(es, h, i) || Forgotten(es, h, i))
  }

  /** A timer is new when it is armed, so it has not been armed, kept or heard of before. */
  lemma {:induction false} NotArmedBefore(es: seq<Event>, t: nat)
    requires PossibleRun(es) && forall e :: e in es && e.Disconnected? ==> e.t != t
    ensures t !in Timers(es)
    ensures forall h: Host :: LifeTimeout(h, t) !in es
  {
    if es != [] {
      var n := |es| - 1;
      assert forall e :: e in es[..n] ==> e in es;
      NotArmedBefore(es[..n], t);
      assert es == es[..n] + [es[n]] && es[n] in es;
    }
  }

  lemma RunsAfterOther(es: seq<Event>, e: Event, h: Host, t: nat)
    requires e != Disconnected(h, t) && e != LifeTimeout(h, t)
    ensures StillRuns(es + [e], h, t) <==> if EndsData(e, h) then LeftOver(es, h, t) else StillRuns(es, h, t)
  {
    assert LifeTimeout(h, t) in es + [e] <==> LifeTimeout(h, t) in es;
    if i: nat :| Arms(es + [e], h, t, i) && (Kept(es + [e], h, i) || Forgotten(es + [e], h, i)) {
      ArmsOneMore(es, e, h, t, i);
      KeptOneMore(es, e, h, i);
    }
    if EndsData(e, h) {
      if i: nat :| Arms(es, h, t, i) && Forgotten(es, h, i) {
        ArmsOneMore(es, e, h, t, i);
        KeptOneMore(es, e, h, i);
      }
    } else if i: nat :| Arms(es, h, t, i) && (Kept(es, h, i) || Forgotten(es, h, i)) {
      ArmsOneMore(es, e, h, t, i);
      KeptOneMore(es, e, h, i);
    }
  }

  lemma RunsAfterArming(es: seq<Event>, h: Host, t: nat)
    requires PossibleRun(es + [Disconnected(h, t)])
    ensures StillRuns(es + [Disconnected(h, t)], h, t) <==> h in After(INITIAL, es).clients
  {
    var e := Disconnected(h, t);
    assert (es + [e])[..|es|] == es;
    NotArmedBefore(es, t);
    assert LifeTimeout(h, t) !in es + [e];
    assert forall k :: 0 <= k < |es| ==> es[k] in es;
    if i: nat :| Arms(es + [e], h, t, i) && (Kept(es + [e], h, i) || Forgotten(es + [e], h, i)) {
      ArmsOneMore(es, e, h, t, i);
    }
    if h in After(INITIAL, es).clients {
      ArmsOneMore(es, e, h, t, |es|);
      assert Kept(es + [e], h, |es|);
    }
  }

  /** A timer that was kept has one armed event, so that it is not left over as well. */
  lemma {:induction false} ArmedOnce(es: seq<Event>, h: Host, t: nat)
    requires PossibleRun(es)
    ensures !(ArmedAndKept(es, h, t) && exists i: nat :: Arms(es, h, t, i) && Forgotten(es, h, i))
  {
    if i: nat, j: nat :| Arms(es, h, t, i) && Kept(es, h, i) && Arms(es, h, t, j) && Forgotten(es, h, j) {
      OnlyOnce(es, i, j);
    }
  }

  lemma {:induction false} OnlyOnce(es: seq<Event>, i: nat, j: nat)
    requires PossibleRun(es) && i < |es| && j < |es|
    requires es[i].Disconnected? && es[j].Disconnected? && es[i].t == es[j].t
    ensures i == j
  {
    var n := |es| - 1;
    assert forall k :: 0 <= k < n ==> es[k] in es[..n];
    if i < n && j < n {
      OnlyOnce(es[..n], i, j);
    }
  }

  lemma RememberedIsOwn(es: seq<Event>, h: Host, own: Host, t: nat)
    requires PossibleRun(es) && Remembers(After(INITIAL, es), own, t) && StillRuns(es, h, t)
    ensures own == h
  {
    RemembersIff(es, own, t);
    var i: nat :| Arms(es, own, t, i) && Kept(es, own, i);
    var j: nat :| Arms(es, h, t, j) && (Kept(es, h, j) || Forgotten(es, h, j));
    OnlyOnce(es, i, j);
  }

  /** The running timers are those that the events leave running. */
  lemma {:induction false} TimersIff(es: seq<Event>, h: Host, t: nat)
    requires PossibleRun(es)
    ensures RunsFor(Timers(es), h, t) <==> StillRuns(es, h, t)
  {
    if es != [] {
      var front, e := es[..|es| - 1], es[|es| - 1];
      assert es == front + [e];
      TimersIff(front, h, t);
      TimersStep(front, e, h, t);
    }
  }

  lemma TimersStep(es: seq<Event>, e: Event, h: Host, t: nat)
    requires PossibleRun(es + [e]) && PossibleRun(es) && (RunsFor(Timers(es), h, t) <==> StillRuns(es, h, t))
    ensures RunsFor(Timers(es + [e]), h, t) <==> StillRuns(es + [e], h, t)
  {
    assert (es + [e])[..|es|] == es;
    if e.Disconnected? && e.t == t {
      NotArmedBefore(es, t);
      if e.h == h {
        RunsAfterArming(es, h, t);
      } else {
        RunsAfterOther(es, e, h, t);
      }
    } else if e == LifeTimeout(h, t) {
      assert e in es + [e];
    } else {
      RunsAfterOther(es, e, h, t);
      if EndsData(e, e.h) {
        StoppedIff(es, e.h, h, t);
      }
    }
  }

  /** End of Data for `own` stops the timer `t` of `h` exactly if `own` is `h` and still remembers it. */
  lemma StoppedIff(es: seq<Event>, own: Host, h: Host, t: nat)
    requires PossibleRun(es)
    ensures own == h ==> (LeftOver(es, h, t) <==> StillRuns(es, h, t) && !Remembers(After(INITIAL, es), h, t))
    ensures own != h ==> StillRuns(es, h, t) ==> !Remembers(After(INITIAL, es), own, t)
  {
    RemembersIff(es, h, t);
    ArmedOnce(es, h, t);
    if StillRuns(es, h, t) && Remembers(After(INITIAL, es), own, t) {
      RememberedIsOwn(es, h, own, t);
    }
  }

  // ----- When data are lost

  /** A client whose data are complete remembers no timer. */
  lemma {:induction false} CompleteRemembersNone(es: seq<Event>, h: Host)
    ensures var s := After(INITIAL, es); h in s.clients && s.clients[h].endOfData ==> s.clients[h].timer == None
  {
    if es != [] {
      CompleteRemembersNone(es[..|es| - 1], h);
    }
  }

  /** A timer of a complete client runs exactly if it has been left over. */
  lemma RunsIffLeftOver(es: seq<Event>, h: Host, t: nat)
    requires PossibleRun(es)
    requires var s := After(INITIAL, es); h in s.clients && s.clients[h].endOfData
    ensures RunsFor(Timers(es), h, t) <==> LeftOver(es, h, t)
  {
    TimersIff(es, h, t);
    CompleteRemembersNone(es, h);
    RemembersIff(es, h, t);
  }

  /** The timer may be the next to expire, and deletes authorisations of the host if it is. */
  predicate Loses(es: seq<Event>, h: Host, t: nat) {
    var more := es + [LifeTimeout(h, t)];
    PossibleRun(more) && OfHost(After(INITIAL, more), h) != OfHost(After(INITIAL, es), h)
  }

  lemma TimeoutLosesIff(es: seq<Event>, h: Host, t: nat)
    requires PossibleRun(es) && h in After(INITIAL, es).clients
    ensures PossibleRun(es + [LifeTimeout(h, t)]) <==> RunsFor(Timers(es), h, t)
    ensures var s := After(INITIAL, es);
            OfHost(After(INITIAL, es + [LifeTimeout(h, t)]), h) == OfHost(s, h) <==>
            s.clients[h].oldSessionID != s.clients[h].sessionID || OfHost(s, h) == {}
  {
    var e := LifeTimeout(h, t);
    OneEventMore(es, e);
    assert (es + [e])[..|es|] == es;
    var s := After(INITIAL, es);
    assert s.clients[h].oldSessionID == s.clients[h].sessionID ==> OfHost(Step(s, e), h) == {};
  }

  /** After every possible run, authorisations of a client whose data are complete may be lost to a
      life timer if and only if the host has any, its session is the one from before it was
      disconnected, and it was disconnected twice, or deleted and added again, with no End of Data
      message in between to stop the first timer, which has not expired yet. */
  lemma CompleteClientMayLoseDataIff(es: seq<Event>, h: Host)
    requires PossibleRun(es)
    requires var s := After(INITIAL, es); h in s.clients && s.clients[h].endOfData
    ensures var s := After(INITIAL, es);
            (exists t :: Loses(es, h, t)) <==>
            OfHost(s, h) != {} && s.clients[h].oldSessionID == s.clients[h].sessionID &&
            exists t :: LeftOver(es, h, t)
  {
    var s := After(INITIAL, es);
    if t :| Loses(es, h, t) {
      TimeoutLosesIff(es, h, t);
      RunsIffLeftOver(es, h, t);
    }
    if OfHost(s, h) != {} && s.clients[h].oldSessionID == s.clients[h].sessionID {
      if t :| LeftOver(es, h, t) {
        LeftOverLoses(es, h, t);
      }
    }
  }

  lemma LeftOverLoses(es: seq<Event>, h: Host, t: nat)
    requires PossibleRun(es)
    requires var s := After(INITIAL, es); h in s.clients && s.clients[h].endOfData && OfHost(s, h) != {}
    requires var c := After(INITIAL, es).clients[h]; c.oldSessionID == c.sessionID
    requires LeftOver(es, h, t)
    ensures Loses(es, h, t)
  {
    TimeoutLosesIff(es, h, t);
    RunsIffLeftOver(es, h, t);
  }

  const CACHE: Host := HostPort("10.0.0.1", "323")
  const PREFIX := IpPrefix(true, false, [], 24, 65000)

  /** After the events the cache's client, its authorisations, the attempts to connect and the open
      connections are these. */
  predicate At(es: seq<Event>, c: Client, stored: set<Roa>, dialling: int, open: int) {
    && PossibleRun(es) && After(INITIAL, es) == State(map[CACHE := c], stored)
    && Dialling(es, CACHE) == dialling && Open(es, CACHE) == open
  }

  lemma Goes(es: seq<Event>, e: Event, c: Client, stored: set<Roa>, dialling: int, open: int)
    requires At(es, c, stored, dialling, open) && e.h == CACHE && Possible(es, e) && !e.DeleteServer?
    ensures var (d, left) := HandledBy(CACHE, c, stored, e);
            At(es + [e], d, left, dialling + AttemptsBy(true, e), open + ConnectionsBy(true, e))
  {
    assert (es + [e])[..|es|] == es;
  }

  /** The connection comes up. */
  lemma ComesUp(es: seq<Event>, c: Client, stored: set<Roa>)
    requires At(es, c, stored, 1, 0) && !c.endOfData && c.pending == []
    ensures At(es + [Connected(CACHE, true)], c.(connected := true), stored, 0, 1)
  {
    Goes(es, Connected(CACHE, true), c, stored, 1, 0);
  }

  lemma Falls(es: seq<Event>, t: nat, c: Client, stored: set<Roa>)
    requires At(es, c, stored, 0, 1) && forall d :: d in es && d.Disconnected? ==> d.t != t
    ensures var d := c.(connected := false, endOfData := false, pending := [],
                        oldSessionID := c.sessionID, timer := Some(t));
            At(es + [Disconnected(CACHE, t)], d, stored, 1, 0)
  {
    Goes(es, Disconnected(CACHE, t), c, stored, 0, 1);
  }

  function Transfer(session: Word16, serial: Word32): seq<Event> {
    Response(CACHE, [PREFIX], session, serial)
  }

  /** The cache sends one authorisation and End of Data. */
  lemma Transfers(es: seq<Event>, session: Word16, serial: Word32, c: Client, stored: set<Roa>)
    requires At(es, c, stored, 0, 1) && c.connected && !c.endOfData && c.pending == []
    requires c.sessionID == session || stored == {}
    ensures var d := c.(sessionID := session, serialNumber := serial, endOfData := true, timer := None);
            At(es + Transfer(session, serial), d, stored + {RoaOf(CACHE, PREFIX)}, 0, 1)
  {
    var roa := RoaOf(CACHE, PREFIX);
    var e1, e2, e3 := Received(CACHE, CacheResponse, true), Received(CACHE, PREFIX, true),
                      Received(CACHE, EndOfData(session, serial), true);
    Goes(es, e1, c, stored, 0, 1);
    Goes(es + [e1], e2, c, stored, 0, 1);
    assert [] + [roa] == [roa];
    Goes(es + [e1] + [e2], e3, c.(pending := [roa]), stored, 0, 1);
    assert SetOf([roa]) == {roa};
    assert es + [e1] + [e2] + [e3] == es + Transfer(session, serial);
  }

  /** The cache's data are complete, its connection is lost twice, and the data are complete again. */
  function Flapping(session: Word16): seq<Event> {
    Complete(session) + [Disconnected(CACHE, 0)] + [Connected(CACHE, true)] +
    [Disconnected(CACHE, 1)] + [Connected(CACHE, true)] + Transfer(session, 2)
  }

  function Complete(session: Word16): seq<Event> {
    [AddServer(CACHE)] + [Connected(CACHE, true)] + Transfer(session, 1)
  }

  lemma Completes(session: Word16)
    ensures At(Complete(session), Client(true, session, 0, 1, true, [], None), {RoaOf(CACHE, PREFIX)}, 0, 1)
  {
    var add := [AddServer(CACHE)];
    assert add[..0] == [] && After(INITIAL, []) == INITIAL && After(INITIAL, add) == Step(INITIAL, add[0]);
    assert Step(INITIAL, add[0]).clients == map[CACHE := NEW_CLIENT];
    assert Dialling([], CACHE) == 0 && Open([], CACHE) == 0;
    ComesUp(add, NEW_CLIENT, {});
    Transfers(add + [Connected(CACHE, true)], session, 1, NEW_CLIENT.(connected := true), {});
  }

  lemma Flaps(session: Word16)
    ensures At(Flapping(session), Client(true, session, session, 2, true, [], None), {RoaOf(CACHE, PREFIX)}, 0, 1)
  {
    Completes(session);
    var stored, up := {RoaOf(CACHE, PREFIX)}, [Connected(CACHE, true)];
    var c := Client(false, session, session, 1, false, [], Some(0));
    var es := Complete(session);
    Falls(es, 0, Client(true, session, 0, 1, true, [], None), stored);
    es := es + [Disconnected(CACHE, 0)];
    ComesUp(es, c, stored);
    Falls(es + up, 1, c.(connected := true), stored);
    es := es + up + [Disconnected(CACHE, 1)];
    ComesUp(es, c.(timer := Some(1)), stored);
    Transfers(es + up, session, 2, c.(connected := true, timer := Some(1)), stored);
  }

  /** Whatever the session, the first of the two timers outlives both End of Data messages and may
      delete what the second one left. */
  lemma FlappingLosesData(session: Word16)
    ensures Loses(Flapping(session), CACHE, 0)
  {
    Flaps(session);
    LeavesTimer(session);
    StoredIsLost(Flapping(session), Client(true, session, session, 2, true, [], None), RoaOf(CACHE, PREFIX));
  }

  lemma StoredIsLost(es: seq<Event>, c: Client, r: Roa)
    requires At(es, c, {r}, 0, 1) && r.src == CACHE && c.endOfData && c.oldSessionID == c.sessionID
    requires LeftOver(es, CACHE, 0)
    ensures Loses(es, CACHE, 0)
  {
    assert r in OfHost(After(INITIAL, es), CACHE);
    LeftOverLoses(es, CACHE, 0);
  }

  lemma LeavesTimer(session: Word16)
    ensures LeftOver(Flapping(session), CACHE, 0)
  {
    var es := Flapping(session);
    Completes(session);
    assert es[..5] == Complete(session);
    assert es[5] == Disconnected(CACHE, 0) && es[6] == Connected(CACHE, true) && es[7] == Disconnected(CACHE, 1);
    assert Arms(es, CACHE, 0, 5) && Forgets(es[7], CACHE) && Forgotten(es, CACHE, 5);
  }

  // ----- The client and the manager

  /** A query written to the connection. */
  datatype Sent = Nothing | SerialQuery(session: Word16, serial: Word32) | ResetQuery

  /** What a message is answered with: a cache that is ahead is asked for the difference, one that
      has gone back or asks for it is asked for everything. */
  function Answer(c: Client, m: Message, writes: bool): Sent {
    if !c.connected || !writes then Nothing
    else match m
      case SerialNotify(serial) =>
        if Before(c.serialNumber, serial) then SerialQuery(c.sessionID, c.serialNumber)
        else if c.serialNumber == serial then Nothing
        else ResetQuery
      case CacheReset => ResetQuery
      case _ => Nothing
  }

  class RoaClient {
    const host: Host
    var connected: bool
    var sessionID: Word16
    var oldSessionID: Word16
    var serialNumber: Word32
    var endOfData: bool
    var pendingROAs: seq<Roa>
    var timer: Option<nat>

    ghost function View(): Client
      reads this
    {
      Client(connected, sessionID, oldSessionID, serialNumber, endOfData, pendingROAs, timer)
    }

    constructor (host: Host)
      ensures this.host == host && View() == NEW_CLIENT
    {
      this.host := host;
      connected, sessionID, oldSessionID, serialNumber := false, 0, 0, 0;
      endOfData, pendingROAs, timer := false, [], None;
    }

    method Enable(serial: Word32, writes: bool) returns (sent: Sent)
      ensures sent == if connected && writes then SerialQuery(sessionID, serial) else Nothing
    {
      return if connected && writes then SerialQuery(sessionID, serial) else Nothing;
    }

    method SoftlyResets(writes: bool) returns (sent: Sent)
      modifies this
      ensures View() == SoftlyReset(old(View()), writes)
      ensures sent == if connected && writes then ResetQuery else Nothing
    {
      sent := Nothing;
      if connected && writes {
        sent := ResetQuery;
        endOfData, pendingROAs := false, [];
      }
    }

    /** Hands out what was pending. */
    method Completes(session: Word16, serial: Word32) returns (pending: seq<Roa>)
      modifies this
      ensures View() == ReceivedBy(host, old(View()), {}, EndOfData(session, serial), true).0
      ensures pending == old(pendingROAs)
    {
      sessionID, serialNumber, endOfData := session, serial, true;
      timer := None;
      pending := pendingROAs;
      pendingROAs := [];
    }

    /** The new timer takes the place of the remembered one, which is not stopped. */
    method Disconnects(t: nat)
      modifies this
      ensures View() == HandledBy(host, old(View()), {}, Disconnected(host, t)).0
    {
      endOfData, pendingROAs, connected := false, [], false;
      timer := Some(t);
      oldSessionID := sessionID;
    }
  }

  class RoaManager {
    var clientMap: map<Host, RoaClient>
    const table: RoaTable

    ghost predicate Valid()
      reads this, table, clientMap.Values
    {
      table.Valid() && forall h :: h in clientMap ==> clientMap[h].host == h
    }

    ghost function Value(): State
      reads this, table, clientMap.Values
    {
      State(map h | h in clientMap :: clientMap[h].View(), table.Stored())
    }

    constructor (table: RoaTable)
      requires table.Valid() && table.Stored() == {}
      ensures Valid() && Value() == INITIAL && this.table == table
    {
      this.table := table;
      clientMap := map[];
    }

    /** What one client's message does to the client and to the table. */
    method HandleRTRMsg(client: RoaClient, msg: Message, writes: bool) returns (sent: Sent)
      requires table.Valid()
      modifies client, table
      ensures table.Valid()
      ensures (client.View(), table.Stored()) ==
        ReceivedBy(client.host, old(client.View()), old(table.Stored()), msg, writes)
      ensures sent == Answer(old(client.View()), msg, writes)
    {
      sent := Nothing;
      match msg {
        case SerialNotify(serial) =>
          if Before(client.serialNumber, serial) {
            sent := client.Enable(client.serialNumber, writes);
          } else if client.serialNumber != serial {
            sent := client.SoftlyResets(writes);
          }
        case Query =>
        case CacheResponse =>
          client.endOfData := false;
        case IpPrefix(announce, ip6, network, maxLen, asn) =>
          var roa := Roa(ip6, network, maxLen, asn, client.host);
          if announce {
            if client.endOfData {
              table.Add(roa);
            } else {
              client.pendingROAs := client.pendingROAs + [roa];
            }
          } else {
            table.Delete(roa);
          }
        case EndOfData(session, serial) =>
          HandleEndOfData(client, session, serial);
        case CacheReset =>
          sent := client.SoftlyResets(writes);
        case ErrorReport =>
        case Malformed =>
      }
    }

    method HandleEndOfData(client: RoaClient, session: Word16, serial: Word32)
      requires table.Valid()
      modifies client, table
      ensures table.Valid()
      ensures (client.View(), table.Stored()) ==
                ReceivedBy(client.host, old(client.View()), old(table.Stored()), EndOfData(session, serial), true)
    {
      if client.sessionID != session {
        table.DeleteAll(client.host);
      }
      var pending := client.Completes(session, serial);
      Publish(pending);
    }

    method Publish(roas: seq<Roa>)
      requires table.Valid()
      modifies table
      ensures table.Valid() && table.Stored() == old(table.Stored()) + SetOf(roas)
    {
      for i := 0 to |roas|
        invariant table.Valid() && table.Stored() == old(table.Stored()) + SetOf(roas[..i])
      {
        assert SetOf(roas[..i + 1]) == SetOf(roas[..i]) + {roas[i]};
        table.Add(roas[i]);
      }
      assert roas[..|roas|] == roas;
    }

    method HandleFor(client: RoaClient, ev: Event)
      requires table.Valid() && (ev.Connected? || ev.Disconnected? || ev.Received? || ev.LifeTimeout?)
      modifies client, table
      ensures table.Valid()
      ensures (client.View(), table.Stored()) == HandledBy(client.host, old(client.View()), old(table.Stored()), ev)
    {
      match ev {
        case Disconnected(_, t) => client.Disconnects(t);
        case Connected(_, writes) =>
          client.connected := true;
          var _ := client.SoftlyResets(writes);
        case Received(_, msg, writes) =>
          var _ := HandleRTRMsg(client, msg, writes);
        case LifeTimeout(_, _) =>
          if client.oldSessionID == client.sessionID {
            table.DeleteAll(client.host);
          }
      }
    }

    method HandleROAEvent(ev: Event)
      requires Valid() && (ev.Connected? || ev.Disconnected? || ev.Received? || ev.LifeTimeout?)
      modifies clientMap.Values, table
      ensures Valid() && clientMap == old(clientMap) && Value() == Step(old(Value()), ev)
    {
      if ev.h in clientMap {
        HandleFor(clientMap[ev.h], ev);
      }
    }

    method AddServer(h: Host) returns (ok: bool)
      requires Valid()
      modifies this
      ensures Valid() && Value() == Step(old(Value()), Event.AddServer(h)) && (ok <==> h !in old(clientMap))
      ensures fresh(clientMap.Values - old(clientMap.Values))
    {
      if h in clientMap {
        return false;
      }
      var client := new RoaClient(h);
      clientMap := clientMap[h := client];
      return true;
    }

    method DeleteServer(h: Host) returns (ok: bool)
      requires Valid()
      modifies this, table
      ensures Valid() && Value() == Step(old(Value()), Event.DeleteServer(h)) && (ok <==> h in old(clientMap))
    {
      if h !in clientMap {
        return false;
      }
      table.DeleteAll(h);
      clientMap := clientMap - {h};
      return true;
    }

    /** The first client found at the address, in an arbitrary order of the clients. */
    method Find(address: string) returns (found: Option<Host>)
      requires Valid()
      ensures found.Some? ==> found.value in clientMap && found.value.address == address
      ensures found.None? ==> forall h :: h in clientMap ==> h.address != address
    {
      var todo := clientMap.Keys;
      while todo != {}
        invariant todo <= clientMap.Keys && forall h :: h in clientMap.Keys - todo ==> h.address != address
      {
        var h :| h in todo;
        if h.address == address {
          return Some(h);
        }
        todo := todo - {h};
      }
      return None;
    }

    method Disable(address: string) returns (found: Option<Host>)
      requires Valid()
      modifies table
      ensures Valid()
      ensures found.None? ==> Value() == old(Value()) && forall h :: h in clientMap ==> h.address != address
      ensures found.Some? ==> found.value in clientMap && found.value.address == address &&
                              Value() == Step(old(Value()), Event.Disable(found.value))
    {
      found := Find(address);
      if found.Some? {
        table.DeleteAll(Bare(found.value.address));
      }
    }

    method SoftReset(address: string, writes: bool) returns (found: Option<Host>)
      requires Valid()
      modifies clientMap.Values, table
      ensures Valid() && clientMap == old(clientMap)
      ensures found.None? ==> Value() == old(Value()) && forall h :: h in clientMap ==> h.address != address
      ensures found.Some? ==> found.value in clientMap && found.value.address == address &&
                              Value() == Step(old(Value()), Event.SoftReset(found.value, writes))
    {
      found := Find(address);
      if found.Some? {
        var _ := clientMap[found.value].SoftlyResets(writes);
        table.DeleteAll(found.value);
      }
    }
  }
}
