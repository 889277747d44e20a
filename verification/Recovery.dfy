/** The sending side of a connection: the pacing queue, packets in flight, acknowledgements, loss and
    retransmission. */
module Recovery {
  import opened Primitives
  import opened Bits
  import opened AckRanges
  import opened Unacked
  import opened Ledger
  import opened AckFate
  import opened StreamSend
  import Pmtud

  /** What happens to the packet sent under a given number: it left with this many bytes, the socket
      would block, the send failed, or building the packet failed for good. */
  datatype SendOutcome = Sent(bytes: nat) | WouldBlock | Failed | Unsendable

  datatype ConnState = Active | Closing | Closed

  datatype SendResult = Ok | Error(fatal: bool)

  datatype WireEntry = WireEntry(pn: nat, payload: Payload)

  /** The datagrams among the packets that left. */
  ghost function WireDatagrams(wire: seq<WireEntry>): multiset<Payload> {
    if wire == [] then multiset{} else WireDatagrams(wire[..|wire| - 1]) + IfDatagram(wire[|wire| - 1].payload)
  }

  /** The path state after a list of probe outcomes. */
  ghost function Replay(p: Pmtud.Path, log: seq<Pmtud.Event>): Pmtud.Path {
    if log == [] then p
    else
      var q := Replay(p, log[..|log| - 1]);
      match log[|log| - 1]
      case Acked(size) => Pmtud.OnProbeAcked(q, size)
      case Lost(size) => Pmtud.ProbeLost(q, size)
      case _ => q
  }

  ghost predicate ProbeIn(v: View, size: nat) {
    exists pn :: pn in v && v[pn].payload == MtuProbe(size)
  }

  /** The events are the acknowledgements of exactly the probe sizes in `v`. */
  ghost predicate AckedProbes(v: View, log: seq<Pmtud.Event>) {
    && (forall e | e in log :: e.Acked? && ProbeIn(v, e.size))
    && forall size | ProbeIn(v, size) :: Pmtud.Acked(size) in log
  }

  /** The events are the losses of exactly the probe sizes in `v`. */
  ghost predicate LostProbes(v: View, log: seq<Pmtud.Event>) {
    && (forall e | e in log :: e.Lost? && ProbeIn(v, e.size))
    && forall size | ProbeIn(v, size) :: Pmtud.Lost(size) in log
  }

  /** Acknowledged probes raise the size in use to the largest of them, and the lower bound with it. */
  lemma {:induction false} AckedReplay(p: Pmtud.Path, log: seq<Pmtud.Event>)
    requires forall e | e in log :: e.Acked?
    ensures var q := Replay(p, log);
            && q.max == p.max && q.base == p.base && p.mtu <= q.mtu
            && (forall e | e in log :: e.size <= q.mtu)
            && (q.mtu == p.mtu || Pmtud.Acked(q.mtu) in log)
            && q.min == if q.mtu == p.mtu then p.min else Max(p.min, q.mtu)
    decreases |log|
  {
    if log != [] {
      var before, e := log[..|log| - 1], log[|log| - 1];
      AckedReplay(p, before);
      assert log == before + [e];
    }
  }

  /** Lost probes lower the upper bound to just below the smallest of them, and nothing else. */
  lemma {:induction false} LostReplay(p: Pmtud.Path, log: seq<Pmtud.Event>)
    requires forall e | e in log :: e.Lost?
    ensures var q := Replay(p, log);
            && q == p.(max := q.max) && q.max <= p.max
            && (forall e | e in log :: q.max <= SaturatingSub(e.size, 1))
            && (q.max == p.max || exists e :: e in log && q.max == SaturatingSub(e.size, 1))
    decreases |log|
  {
    if log != [] {
      var before, e := log[..|log| - 1], log[|log| - 1];
      LostReplay(p, before);
      assert log == before + [e];
      assert e in log;
    }
  }

  /** What the probes `got` and `lost` do to a search: the size in use becomes the largest one that got
      through, and the upper bound falls just below the smallest one lost. */
  lemma ProbesResolved(p: Pmtud.Path, got: View, lost: View, acked: seq<Pmtud.Event>, failed: seq<Pmtud.Event>)
    requires AckedProbes(got, acked) && LostProbes(lost, failed)
    ensures var q := Replay(p, acked + failed);
            && p.mtu <= q.mtu && (forall size: nat | ProbeIn(got, size) :: size <= q.mtu)
            && (q.mtu == p.mtu || ProbeIn(got, q.mtu))
            && q.max <= p.max && (forall size: nat | ProbeIn(lost, size) :: q.max <= SaturatingSub(size, 1))
            && (q.max == p.max || exists size: nat :: ProbeIn(lost, size) && q.max == SaturatingSub(size, 1))
  {
    hide Replay, ProbeIn;
    ReplayConcat(p, acked, failed);
    AckedReplay(p, acked);
    LostReplay(Replay(p, acked), failed);
  }

  /** The sending half of one stream. */
  class TxStream {
    const id: nat
    const receiveOnly: bool
    var nextTxOffset: nat
    var txWindow: nat
    var sendStopped: bool

    constructor (id: nat, receiveOnly: bool, transmitWindow: nat)
      ensures this.id == id && this.receiveOnly == receiveOnly
      ensures nextTxOffset == 0 && txWindow == transmitWindow && !sendStopped
    {
      this.id, this.receiveOnly := id, receiveOnly;
      nextTxOffset, txWindow, sendStopped := 0, transmitWindow, false;
    }

    ghost function Credit(): Funds
      reads this`nextTxOffset, this`txWindow
    {
      Funds(nextTxOffset, txWindow)
    }

    /** A limit from the peer, possibly a stale one. */
    method HandleMaxStreamData(maxData: nat)
      modifies this`txWindow
      ensures Credit() == OnLimit(old(Credit()), maxData)
    {
      txWindow := SaturatingSub(maxData, nextTxOffset);
    }
  }

  datatype Admission = Admitted | FlowControlBlocked | StreamStopped | ReceiveOnly | CongestionWindowFull

  /** The longest retransmission timeout, in microseconds. */
  const MAX_RTO: nat := 10_000_000

  /** A packet's own timeout: the base timeout doubled per retry, at most 64-fold and at most ten seconds. */
  function PacketRto(rto: nat, retries: nat): nat {
    Min(rto * (if retries < 32 then Min(Pow2(retries), 64) else 64), MAX_RTO)
  }

  predicate Expired(p: Packet, now: nat, rto: nat) {
    SaturatingSub(now, p.sentAt) > PacketRto(rto, p.retries)
  }

  lemma {:induction false} SixDoublings(n: nat)
    ensures n <= 6 ==> Pow2(n) <= 64
    ensures n >= 6 ==> Pow2(n) >= 64
  {
    assert Pow2(3) == 8;
    assert Pow2(6) == 64;
    if n > 6 { SixDoublings(n - 1); }
  }

  /** The base timeout doubled once per retry, six times at most, and never over ten seconds. */
  lemma PacketRtoIs(rto: nat, retries: nat)
    ensures PacketRto(rto, retries) == Min(rto * Pow2(Min(retries, 6)), 10_000_000)
  {
    hide Pow2;
    SixDoublings(retries);
    SixDoublings(6);
  }

  /** When a packet is due: its timeout, doubled once per retry up to 64-fold but never over ten seconds,
      after it was sent. */
  ghost function Deadline(p: Packet, rto: nat): nat { p.sentAt + Min(rto * Pow2(Min(p.retries, 6)), 10_000_000) }

  lemma ExpiredExactly(p: Packet, now: nat, rto: nat)
    ensures Expired(p, now, rto) <==> now > Deadline(p, rto)
  {
    hide Pow2, PacketRto;
    PacketRtoIs(rto, p.retries);
  }

  /** A packet no older than the base timeout is never due; one older than ten seconds, or than 64 base
      timeouts, always is; and a packet once due stays due. */
  lemma ExpiryBounds(p: Packet, now: nat, later: nat, rto: nat)
    requires now <= later
    ensures now <= p.sentAt + Min(rto, 10_000_000) ==> !Expired(p, now, rto)
    ensures now > p.sentAt + 10_000_000 || now > p.sentAt + 64 * rto ==> Expired(p, now, rto)
    ensures Expired(p, now, rto) ==> Expired(p, later, rto)
  {
    hide Expired, Pow2;
    ExpiredExactly(p, now, rto);
    ExpiredExactly(p, later, rto);
    SixDoublings(Min(p.retries, 6));
    TimesBetween(rto, Pow2(Min(p.retries, 6)), 64);
  }

  lemma TimesBetween(n: nat, k: nat, limit: nat)
    requires 1 <= k <= limit
    ensures n <= n * k <= limit * n
  {
  }

  /** An expired packet that is sent again. */
  predicate Resends(p: Packet, now: nat, rto: nat) { Expired(p, now, rto) && p.payload.Reliable() }

  /** The flight after the timer looked at the listed packets: those to be sent again count one more
      retry and the current time. */
  ghost function TouchedIn(v: View, ks: seq<nat>, now: nat, rto: nat): View {
    map pn | pn in v :: if pn in ks && Resends(v[pn], now, rto) then v[pn].(retries := v[pn].retries + 1, sentAt := now)
                        else v[pn]
  }

  ghost function ExpiredPart(v: View, now: nat, rto: nat): View {
    map pn | pn in v && Expired(v[pn], now, rto) :: v[pn]
  }

  ghost function Unexpired(v: View, now: nat, rto: nat): View {
    map pn | pn in v && !Expired(v[pn], now, rto) :: v[pn]
  }

  /** Some packet that is due to be sent again was sent again `limit` times or more already. */
  ghost predicate Exhausted(v: View, limit: nat, now: nat, rto: nat) {
    exists pn :: pn in v && Resends(v[pn], now, rto) && v[pn].retries >= limit
  }

  /** Retries after which a connection gives up, and after which it suspects a black hole. */
  const GIVE_UP: nat := 10
  const SUSPECT: nat := 3

  /** Some reliable packet that was sent again `limit` times or more is older than its own timeout. */
  lemma ExhaustedExactly(v: View, limit: nat, now: nat, rto: nat)
    ensures Exhausted(v, limit, now, rto) <==>
              exists pn :: pn in v && v[pn].payload.Reliable() && v[pn].retries >= limit && now > Deadline(v[pn], rto)
  {
    hide Expired, Deadline;
    forall pn | pn in v ensures Expired(v[pn], now, rto) <==> now > Deadline(v[pn], rto) {
      ExpiredExactly(v[pn], now, rto);
    }
  }

  /** What the timer leaves in the flight: exactly the packets no older than their own timeout. */
  lemma TimerKeeps(v: View, w: View, next: nat, now: nat, rto: nat)
    requires Grew(Unexpired(v, now, rto), w, next) && forall pn | pn in v :: pn < next
    ensures forall pn | pn in v ::
              && (pn in w <==> now <= Deadline(v[pn], rto))
              && (pn in w ==> w[pn] == v[pn])
  {
    hide Expired, Deadline;
    forall pn | pn in v
      ensures pn in w <==> now <= Deadline(v[pn], rto)
      ensures pn in w ==> w[pn] == v[pn]
    {
      ExpiredExactly(v[pn], now, rto);
      assert pn in w <==> pn in Unexpired(v, now, rto);
    }
  }

  /** The payload of some packet of `lost`, reliable, with `more` retries added. */
  ghost predicate Again(x: Queued, lost: View, more: nat) {
    x.payload.Reliable() && exists pn :: pn in lost && lost[pn].payload == x.payload
                                         && x.retries == lost[pn].retries + more
  }

  /** From flight `v` and queue `q` to `w` and `r`, by sending what `lost` carried: each new packet was
      sent just now, what could not be sent waits in front of the queue, and both keep their retries. */
  ghost predicate SentAgain(lost: View, more: nat, v: View, w: View, q: seq<Queued>, r: seq<Queued>, now: nat) {
    && (forall pn | pn in w && pn !in v ::
          w[pn].sentAt == now && Again(Queued(w[pn].payload, w[pn].retries), lost, more))
    && |q| <= |r| && r[|r| - |q|..] == q
    && forall i | 0 <= i < |r| - |q| :: Again(r[i], lost, more)
  }

  lemma SentAgainNext(lost: View, more: nat, v: View, w: View, q: seq<Queued>, r: seq<Queued>, now: nat, x: Queued,
                      pn: nat, bytes: nat)
    requires SentAgain(lost, more, v, w, q, r, now) && Again(x, lost, more)
    ensures SentAgain(lost, more, v, w[pn := Packet(x.payload, now, x.retries, bytes)], q, r, now)
    ensures SentAgain(lost, more, v, w, q, [x] + r, now)
  {
    hide Again;
    var w' := w[pn := Packet(x.payload, now, x.retries, bytes)];
    forall k | k in w' && k !in v
      ensures w'[k].sentAt == now && Again(Queued(w'[k].payload, w'[k].retries), lost, more)
    {
      assert k != pn ==> w'[k] == w[k];
    }
    var r' := [x] + r;
    assert r'[|r'| - |q|..] == r[|r| - |q|..];
    forall i | 0 <= i < |r'| - |q| ensures Again(r'[i], lost, more) {
      assert i > 0 ==> r'[i] == r[i - 1];
    }
  }

  lemma NothingSentAgain(lost: View, v: View, q: seq<Queued>, now: nat)
    ensures SentAgain(lost, 0, v, v, q, q, now)
  {
  }

  lemma {:induction false} ResendAgain(v: View, ks: seq<nat>)
    requires forall k | k in ks :: k in v
    ensures forall x | x in ResendOf(v, ks) :: Again(x, Only(v, ks), 0)
    decreases |ks|
  {
    if ks != [] {
      var init, k := ks[..|ks| - 1], ks[|ks| - 1];
      ResendAgain(v, init);
      assert k in ks && k in Only(v, ks);
      forall x | x in ResendOf(v, ks) ensures Again(x, Only(v, ks), 0) {
        if x in ResendOf(v, init) {
          var pn :| pn in Only(v, init) && v[pn].payload == x.payload && x.retries == v[pn].retries;
          assert pn in Only(v, ks);
        } else {
          assert x == Queued(v[k].payload, v[k].retries);
          assert Only(v, ks)[k] == v[k];
        }
      }
    }
  }

  lemma LostAgain(v: View, lost: seq<nat>)
    requires KeysOf(v, lost)
    ensures forall x | x in ResendOf(v, lost) :: Again(x, Only(v, lost), 0)
  {
    ResendAgain(v, lost);
  }

  /** What the timer counted before sending again is one more retry than the flight had. */
  lemma TimerAgain(v: View, toDrop: seq<nat>, now: nat, rto: nat, x: Queued)
    requires forall pn :: pn in toDrop <==> pn in v && Expired(v[pn], now, rto)
    requires Again(x, Only(TouchedIn(v, toDrop, now, rto), toDrop), 0)
    ensures Again(x, ExpiredPart(v, now, rto), 1)
  {
    hide Expired;
    var w := Only(TouchedIn(v, toDrop, now, rto), toDrop);
    var pn :| pn in w && w[pn].payload == x.payload && x.retries == w[pn].retries;
    assert pn in ExpiredPart(v, now, rto) && ExpiredPart(v, now, rto)[pn] == v[pn];
    assert w[pn].payload == v[pn].payload;
  }

  lemma TimerSentAgain(v: View, toDrop: seq<nat>, now: nat, rto: nat, kept: View, w: View, q: seq<Queued>,
                       r: seq<Queued>)
    requires forall pn :: pn in toDrop <==> pn in v && Expired(v[pn], now, rto)
    requires SentAgain(Only(TouchedIn(v, toDrop, now, rto), toDrop), 0, kept, w, q, r, now)
    ensures SentAgain(ExpiredPart(v, now, rto), 1, kept, w, q, r, now)
  {
    hide Expired, Again, Only, TouchedIn, ExpiredPart;
    forall x | Again(x, Only(TouchedIn(v, toDrop, now, rto), toDrop), 0) ensures Again(x, ExpiredPart(v, now, rto), 1) {
      TimerAgain(v, toDrop, now, rto, x);
    }
  }

  /** From flight `v` to `w`: the first `k` payloads of the queue are packets now, in order, under the
      numbers from `next` on. */
  ghost predicate Flushed(v: View, w: View, q: seq<Queued>, next: nat, k: nat, now: nat, net: nat -> SendOutcome) {
    && k <= |q| && Grew(v, w, next)
    && (forall pn | pn in w && pn !in v :: pn < next + k)
    && forall pn | next <= pn < next + k ::
         net(pn).Sent? && pn in w && w[pn] == Packet(q[pn - next].payload, now, q[pn - next].retries, net(pn).bytes)
  }

  lemma NothingFlushed(v: View, q: seq<Queued>, next: nat, now: nat, net: nat -> SendOutcome)
    ensures Flushed(v, v, q, next, 0, now, net)
  {
  }

  lemma FlushedNext(v: View, w: View, q: seq<Queued>, next: nat, k: nat, now: nat, net: nat -> SendOutcome)
    requires Flushed(v, w, q, next, k, now, net) && k < |q| && net(next + k).Sent? && next + k !in w
    ensures var p := Packet(q[k].payload, now, q[k].retries, net(next + k).bytes);
            Flushed(v, w[next + k := p], q, next, k + 1, now, net)
  {
  }

  /** The queue after `k` payloads left it; only the retries of its front may have changed. */
  ghost predicate Drained(q: seq<Queued>, r: seq<Queued>, k: nat) {
    && |r| + k == |q|
    && forall i | 0 <= i < |r| :: r[i].payload == q[k + i].payload && (i > 0 ==> r[i] == q[k + i])
  }

  /** The same packets, apart from send times and retry counts. */
  ghost predicate Retouched(v: View, w: View) {
    v.Keys == w.Keys && forall pn | pn in v :: w[pn].payload == v[pn].payload && w[pn].sentBytes == v[pn].sentBytes
  }

  /** `w` is `v` with packets added under numbers from `next` on. */
  ghost predicate Grew(v: View, w: View, next: nat) {
    (forall pn | pn in v :: pn in w && w[pn] == v[pn]) && forall pn | pn in w :: pn in v || next <= pn
  }

  lemma GrewAgain(v: View, w: View, x: View, next: nat, later: nat)
    requires Grew(v, w, next) && Grew(w, x, later) && next <= later
    ensures Grew(v, x, next)
  {
  }

  lemma GrewOne(v: View, pn: nat, p: Packet)
    ensures Grew(v, v, pn) && (pn !in v ==> Grew(v, v[pn := p], pn))
  {
  }

  /** Every reliable payload accepted is in custody or retired; every datagram accepted is queued or
      has left. */
  ghost predicate Conserved(custody: multiset<Payload>, retired: multiset<Payload>, admitted: multiset<Payload>,
                            queuedOrSent: multiset<Payload>, datagrams: multiset<Payload>) {
    custody + retired == admitted && queuedOrSent == datagrams
  }

  lemma ConservedGrows(c: multiset<Payload>, r: multiset<Payload>, a: multiset<Payload>, d: multiset<Payload>,
                       dg: multiset<Payload>, x: multiset<Payload>, y: multiset<Payload>)
    requires Conserved(c, r, a, d, dg)
    ensures Conserved(c + x, r, a + x, d + y, dg + y)
  {
  }

  lemma ConservedRetires(c: multiset<Payload>, r: multiset<Payload>, a: multiset<Payload>, d: multiset<Payload>,
                         dg: multiset<Payload>, x: multiset<Payload>)
    requires Conserved(c + x, r, a, d, dg)
    ensures Conserved(c, r + x, a, d, dg)
  {
  }

  class ZtConnection {
    var nextPacketNumber: nat
    const unacked: UnackedWindow
    var bytesInFlight: nat
    var packetsLost: nat
    var mtuProbes: map<nat, nat>
    var path: Pmtud.Path
    var unpacedQueue: seq<Queued>
    var queuedBytes: nat
    var socketBlocked: bool
    var state: ConnState
    var remoteWindow: nat
    var connTxOffset: nat

    /** History: reliable payloads accepted for delivery and those retired by acknowledgements,
        datagrams accepted, and every packet that left. */
    ghost var admitted: multiset<Payload>
    ghost var retired: multiset<Payload>
    ghost var datagrams: multiset<Payload>
    ghost var wire: seq<WireEntry>

    constructor (mtuMin: nat, mtuMax: nat, initialMaxData: nat)
      ensures Valid() && fresh(unacked) && unacked.View() == map[] && nextPacketNumber == 0
      ensures unpacedQueue == [] && wire == [] && admitted == retired == datagrams == multiset{}
      ensures path == Pmtud.Path(mtuMin, mtuMin, mtuMax, mtuMin)
    {
      nextPacketNumber, bytesInFlight, packetsLost, mtuProbes := 0, 0, 0, map[];
      unacked := new UnackedWindow();
      path := Pmtud.Path(mtuMin, mtuMin, mtuMax, mtuMin);
      unpacedQueue, queuedBytes, socketBlocked, state := [], 0, false, Active;
      remoteWindow, connTxOffset := initialMaxData, 0;
      admitted, retired, datagrams, wire := multiset{}, multiset{}, multiset{}, [];
    }

    /** The reliable payloads this side is responsible for. */
    ghost function Custody(): multiset<Payload>
      reads this`unpacedQueue, unacked
    {
      Waiting(unpacedQueue) + Outstanding(unacked.View())
    }

    /** The datagrams queued and those that have left. */
    ghost function Datagrams(): multiset<Payload>
      reads this`unpacedQueue, this`wire
    {
      WaitingDatagrams(unpacedQueue) + WireDatagrams(wire)
    }

    /** Conservation: every reliable payload is queued, in flight or retired; every datagram is queued
        or has left exactly once. */
    ghost predicate Balanced()
      reads this`unpacedQueue, this`retired, this`admitted, this`wire, this`datagrams, unacked
    {
      Conserved(Custody(), retired, admitted, Datagrams(), datagrams)
    }

    ghost predicate Valid()
      reads this`unpacedQueue, this`retired, this`admitted, this`wire, this`datagrams
      reads this`bytesInFlight, this`nextPacketNumber, this`mtuProbes, this`queuedBytes, unacked
    {
      Tracking() && Balanced() && queuedBytes <= QueueLen(unpacedQueue) && NoProbeQueued(unpacedQueue)
    }

    /** The bytes in flight are exactly the sent bytes of the tracked packets, all of which carry
        numbers handed out before. */
    ghost predicate Tracking()
      reads this`bytesInFlight, this`nextPacketNumber, this`mtuProbes, unacked
    {
      && unacked.Valid()
      && bytesInFlight == InFlight(unacked.View())
      && nextPacketNumber <= U64_MAX
      && (forall pn | pn in unacked.View() :: pn < nextPacketNumber)
      && Probed(unacked.View(), mtuProbes)
    }

    /** An acknowledged packet that is a probe raises the MTU if it is larger than the one in use. */
    method ResolveAcked(pn: nat, up: Packet, ghost p: Pmtud.Path, ghost log0: seq<Pmtud.Event>)
      returns (ghost log: seq<Pmtud.Event>)
      requires path == Replay(p, log0)
      modifies this`mtuProbes, this`path
      ensures mtuProbes == if up.payload.MtuProbe? then old(mtuProbes) - {pn} else old(mtuProbes)
      ensures log == if up.payload.MtuProbe? && pn in old(mtuProbes)
                     then log0 + [Pmtud.Acked(up.payload.targetSize)] else log0
      ensures path == Replay(p, log)
    {
      log := log0;
      if up.payload.MtuProbe? {
        if pn in mtuProbes {
          log := log0 + [Pmtud.Acked(up.payload.targetSize)];
          assert log[..|log| - 1] == log0;
          if up.payload.Len() > path.mtu {
            path := Pmtud.ProbeAcked(path, up.payload.Len());
          }
        }
        mtuProbes := mtuProbes - {pn};
      }
    }

    /** Removes every tracked packet of one acknowledged range. */
    method AckOneRange(range: AckRange) returns (inFlightAcked: nat, ghost log: seq<Pmtud.Event>)
      requires unacked.Valid() && Probed(unacked.View(), mtuProbes)
      modifies unacked, this`mtuProbes, this`path
      ensures unacked.Valid() && Probed(unacked.View(), mtuProbes)
      ensures unacked.View() == Beyond(old(unacked.View()), range.start, range.end + 1)
      ensures inFlightAcked == InFlight(Between(old(unacked.View()), range.start, range.end + 1))
      ensures AckedProbes(Between(old(unacked.View()), range.start, range.end + 1), log)
      ensures path == Replay(old(path), log)
    {
      hide IfReliable, InFlight, Outstanding, Between, Beyond, Replay, Probed, AckedProbes, UnackedWindow.Valid,
           Tracked;
      ghost var v := unacked.View();
      var lower := Max(range.start, unacked.basePn);
      var upper := Min(range.end, unacked.basePn + |unacked.deque|);
      InWindow(unacked);
      BetweenNothing(v, lower);
      var pn := lower;
      inFlightAcked, log := 0, [];
      NothingYet(path);
      while pn <= upper
        invariant lower <= pn <= Max(lower, upper + 1) && unacked.Valid() && Probed(unacked.View(), mtuProbes)
        invariant unacked.View() == Beyond(v, lower, pn)
        invariant inFlightAcked == InFlight(Between(v, lower, pn))
        invariant AckedProbes(Between(v, lower, pn), log)
        invariant path == Replay(old(path), log)
      {
        BetweenNext(v, lower, pn);
        ghost var kept, taken := unacked.View(), Between(v, lower, pn);
        var up := unacked.Remove(pn);
        ProbedAt(kept, mtuProbes, pn);
        ProbedLess(kept, mtuProbes, pn);
        if up.Some? {
          TrackOne(taken, pn, up.value);
          inFlightAcked := inFlightAcked + up.value.sentBytes;
          ghost var log' := ResolveAcked(pn, up.value, old(path), log);
          TakenProbes(taken, log, pn, up.value, log');
          log := log';
        }
        pn := pn + 1;
      }
      BetweenClamped(v, lower, pn, range.start, range.end + 1);
    }

    /** The selective acknowledgements: exactly the tracked packets inside the ranges are removed. */
    method AckRanged(ranges: seq<AckRange>) returns (inFlightAcked: nat, ghost log: seq<Pmtud.Event>)
      requires unacked.Valid() && Probed(unacked.View(), mtuProbes)
      modifies unacked, this`mtuProbes, this`path
      ensures unacked.Valid() && Probed(unacked.View(), mtuProbes)
      ensures unacked.View() == Outside(old(unacked.View()), ranges)
      ensures inFlightAcked == InFlight(Inside(old(unacked.View()), ranges))
      ensures AckedProbes(Inside(old(unacked.View()), ranges), log) && path == Replay(old(path), log)
    {
      hide IfReliable, InFlight, Outstanding, Between, Beyond, Replay, Probed, AckedProbes, Inside, Outside, Split,
           UnackedWindow.Valid, Tracked;
      ghost var v := unacked.View();
      inFlightAcked, log := 0, [];
      InsideNothing(v);
      NothingYet(path);
      for i := 0 to |ranges|
        invariant unacked.Valid() && Probed(unacked.View(), mtuProbes)
        invariant unacked.View() == Outside(v, ranges[..i])
        invariant inFlightAcked == InFlight(Inside(v, ranges[..i]))
        invariant AckedProbes(Inside(v, ranges[..i]), log) && path == Replay(old(path), log)
      {
        var r := ranges[i];
        ghost var before, taken := Inside(v, ranges[..i]), Between(Outside(v, ranges[..i]), r.start, r.end + 1);
        var n; ghost var more;
        n, more := AckOneRange(r);
        inFlightAcked := inFlightAcked + n;
        InsideNext(v, ranges[..i], r);
        assert ranges[..i] + [r] == ranges[..i + 1];
        SplitSums(Inside(v, ranges[..i + 1]), before, taken);
        MoreProbes(Inside(v, ranges[..i + 1]), before, taken, log, more);
        ReplayConcat(old(path), log, more);
        log := log + more;
      }
      assert ranges[..|ranges|] == ranges;
    }

    /** Packets too old for the peer's window count as acknowledged without a range. */
    method RetireBelow(oldest: nat) returns (inFlightAcked: nat)
      requires unacked.Valid() && Probed(unacked.View(), mtuProbes)
      modifies unacked
      ensures unacked.Valid() && Probed(unacked.View(), mtuProbes)
      ensures unacked.View() == Beyond(old(unacked.View()), 0, oldest)
      ensures inFlightAcked == InFlight(Between(old(unacked.View()), 0, oldest))
    {
      hide IfReliable, InFlight, Outstanding, Only, Without, Probed, UnackedWindow.Valid, Tracked, KeysOf, Between,
           Beyond;
      ghost var v := unacked.View();
      var keys := unacked.Keys();
      var n := 0;
      while n < |keys| && keys[n] < oldest
        invariant n <= |keys| && forall i | 0 <= i < n :: keys[i] < oldest
      {
        n := n + 1;
      }
      var cumulative := keys[..n];
      PrefixKeys(v, keys, n, oldest);
      OnlyNothing(v);
      inFlightAcked := 0;
      assert InFlight(map[]) == 0 by { NothingYet(path); }
      for i := 0 to |cumulative|
        invariant unacked.Valid() && Probed(unacked.View(), mtuProbes)
        invariant unacked.View() == Without(v, cumulative[..i])
        invariant inFlightAcked == InFlight(Only(v, cumulative[..i]))
      {
        OnlyNext(v, cumulative, i);
        ProbedLess(unacked.View(), mtuProbes, cumulative[i]);
        TrackOne(Only(v, cumulative[..i]), cumulative[i], v[cumulative[i]]);
        var up := unacked.Remove(cumulative[i]);
        if up.Some? {
          inFlightAcked := inFlightAcked + up.value.sentBytes;
        }
      }
      assert cumulative[..|cumulative|] == cumulative;
    }

    /** The packets an ACK declares lost, in ascending order. */
    method FindLost(a: Ack) returns (lost: seq<nat>)
      requires unacked.Valid()
      ensures KeysOf(unacked.View(), lost)
      ensures forall pn :: pn in lost <==> pn in unacked.View() && DeclaredLost(a, pn, unacked.View()[pn])
      ensures forall pn | pn in unacked.View() ::
                pn in lost <==> pn < a.largest
                                && (pn + 3 <= a.largest || a.now > unacked.View()[pn].sentAt + a.threshold)
    {
      hide Tracked, UnackedWindow.Valid, DeclaredLost;
      lost := [];
      var keys := unacked.Keys();
      ghost var v := unacked.View();
      var n := 0;
      while n < |keys| && keys[n] < a.largest
        invariant n <= |keys| && KeysOf(v, lost)
        invariant forall i | 0 <= i < |lost| :: n > 0 && lost[i] <= keys[n - 1]
        invariant forall i | 0 <= i < |lost| :: DeclaredLost(a, lost[i], v[lost[i]])
        invariant forall i | 0 <= i < n :: DeclaredLost(a, keys[i], v[keys[i]]) ==> keys[i] in lost
      {
        var up := unacked.Get(keys[n]);
        if DeclaredLost(a, keys[n], up) {
          lost := lost + [keys[n]];
        }
        n := n + 1;
      }
      forall pn | pn in v
        ensures pn in lost <==> DeclaredLost(a, pn, v[pn])
        ensures pn in lost <==> pn < a.largest && (pn + 3 <= a.largest || a.now > v[pn].sentAt + a.threshold)
      {
        DeclaredExactly(a, pn, v[pn]);
        var i :| 0 <= i < |keys| && keys[i] == pn;
      }
    }

    /** A lost packet leaves the flight; a lost probe lowers the search's upper bound, a lost datagram
        is gone, anything else is to be sent again. */
    method DeclareLost(lost: seq<nat>, ghost inFlightAcked: nat)
      returns (resend: seq<Queued>, ghost log: seq<Pmtud.Event>)
      requires unacked.Valid() && Probed(unacked.View(), mtuProbes) && KeysOf(unacked.View(), lost)
      requires bytesInFlight == InFlight(unacked.View()) + inFlightAcked
      modifies unacked, this`bytesInFlight, this`mtuProbes, this`path
      ensures unacked.Valid() && Probed(unacked.View(), mtuProbes)
      ensures unacked.View() == Without(old(unacked.View()), lost)
      ensures bytesInFlight == InFlight(unacked.View()) + inFlightAcked
      ensures resend == ResendOf(old(unacked.View()), lost)
      ensures LostProbes(Only(old(unacked.View()), lost), log) && path == Replay(old(path), log)
    {
      hide IfReliable, InFlight, Outstanding, Only, Without, Probed, UnackedWindow.Valid, Tracked, ResendOf, Replay,
           LostProbes;
      ghost var v := unacked.View();
      resend, log := [], [];
      OnlyNothing(v);
      NothingYet(path);
      assert ResendOf(v, []) == [] by { NothingToResend(v); }
      for i := 0 to |lost|
        invariant unacked.Valid() && Probed(unacked.View(), mtuProbes)
        invariant unacked.View() == Without(v, lost[..i])
        invariant bytesInFlight == InFlight(unacked.View()) + inFlightAcked
        invariant resend == ResendOf(v, lost[..i])
        invariant LostProbes(Only(v, lost[..i]), log) && path == Replay(old(path), log)
      {
        var pn := lost[i];
        OnlyNext(v, lost, i);
        ResendNext(v, lost, i);
        ProbedLess(unacked.View(), mtuProbes, pn);
        InFlightWithout(unacked.View(), pn);
        ghost var taken := Only(v, lost[..i]);
        var up := unacked.Remove(pn);
        if up.Some? {
          bytesInFlight := SaturatingSub(bytesInFlight, up.value.sentBytes);
          match up.value.payload {
            case MtuProbe(targetSize) =>
              mtuProbes := mtuProbes - {pn};
              path := Pmtud.ProbeLost(path, targetSize);
              ReplayLost(old(path), log, targetSize);
              LostProbe(taken, log, pn, up.value, targetSize);
              log := log + [Pmtud.Lost(targetSize)];
            case Datagram(_) =>
              SameProbes(taken, log, pn, up.value);
            case _ =>
              SameProbes(taken, log, pn, up.value);
              resend := resend + [Queued(up.value.payload, up.value.retries)];
          }
        }
      }
      assert lost[..|lost|] == lost;
    }

    /**
     * One ACK frame: what the ranges cover and what lies below the horizon is retired, what the packet
     * or time threshold declares lost is removed and, if reliable, returned to be sent again. No
     * subtraction from the bytes in flight saturates.
     */
    method HandleAck(a: Ack)
      returns (resend: seq<Queued>, ghost lost: seq<nat>, ghost acked: seq<Pmtud.Event>, ghost failed: seq<Pmtud.Event>)
      requires Tracking()
      modifies unacked, this`bytesInFlight, this`mtuProbes, this`path, this`packetsLost
      ensures Tracking()
      ensures unacked.View() == With(old(unacked.View()), a, Kept)
      ensures forall pn | pn in unacked.View() ::
                && (forall r | r in a.ranges :: !(r.start <= pn <= r.end)) && a.largest <= pn + 2047
                && (pn < a.largest ==> a.largest < pn + 3 && a.now <= unacked.View()[pn].sentAt + a.threshold)
      ensures forall pn | pn in old(unacked.View()) && pn !in unacked.View() ::
                || (exists r :: r in a.ranges && r.start <= pn <= r.end) || a.largest > pn + 2047
                || (pn < a.largest
                    && (a.largest >= pn + 3 || a.now > old(unacked.View())[pn].sentAt + a.threshold))
      ensures packetsLost == SaturatingAdd(old(packetsLost), |lost|)
      ensures KeysOf(old(unacked.View()), lost) && Only(old(unacked.View()), lost) == With(old(unacked.View()), a, Lost)
      ensures resend == ResendOf(old(unacked.View()), lost)
      ensures AckedProbes(With(old(unacked.View()), a, Ranged), acked)
      ensures LostProbes(With(old(unacked.View()), a, Lost), failed)
      ensures path == Replay(old(path), acked + failed)
    {
      hide InFlight, Outstanding, Between, Beyond, Replay, AckedProbes, LostProbes, Probed, Inside, Outside, Split,
           With, UnackedWindow.Valid, Tracked, KeysOf, Only, Without, ResendOf, DeclaredLost;
      ghost var v := unacked.View();
      RangedThenHorizon(v, a);
      var n;
      n, acked := AckRanged(a.ranges);
      SplitSums(v, unacked.View(), With(v, a, Ranged));
      ghost var v1 := unacked.View();
      var m := RetireBelow(OldestTracked(a.largest));
      SplitSums(v1, unacked.View(), With(v, a, Horizon));
      var lostPns := FindLost(a);
      lost := lostPns;
      LostPhase(v, a, lost);
      ghost var v2 := unacked.View();
      ResendAgrees(v, v2, a, lost);
      packetsLost := SaturatingAdd(packetsLost, |lostPns|);
      resend, failed := DeclareLost(lostPns, n + m);
      ReplayConcat(old(path), acked, failed);
      bytesInFlight := SaturatingSub(bytesInFlight, n + m);
      KeptNumbers(v, a, nextPacketNumber);
      AllKeptExactly(v, a);
    }

    // ---------- sending ----------

    method GetNextPacketNumber() returns (pn: Option<nat>)
      modifies this`nextPacketNumber
      ensures pn.Some? <==> old(nextPacketNumber) < U64_MAX
      ensures pn.Some? ==> pn.value == old(nextPacketNumber) && nextPacketNumber == pn.value + 1
      ensures pn.None? ==> nextPacketNumber == old(nextPacketNumber)
    {
      if nextPacketNumber >= U64_MAX {
        return None;
      }
      pn := Some(nextPacketNumber);
      nextPacketNumber := nextPacketNumber + 1;
    }

    /** Starts tracking a packet that left under a fresh number. */
    method Track(pn: nat, packet: Packet)
      requires unacked.Valid() && bytesInFlight == InFlight(unacked.View())
      requires forall x | x in unacked.View() :: x < pn
      modifies unacked, this`bytesInFlight, this`wire
      ensures unacked.Valid() && unacked.View() == old(unacked.View())[pn := packet]
      ensures pn !in old(unacked.View()) && bytesInFlight == InFlight(unacked.View())
      ensures wire == old(wire) + [WireEntry(pn, packet.payload)]
    {
      hide InFlight, Outstanding, Tracked;
      if unacked.deque != [] {
        TrackedSlot(unacked.basePn, unacked.deque, unacked.basePn);
      }
      TrackOne(unacked.View(), pn, packet);
      unacked.Insert(pn, packet);
      bytesInFlight := bytesInFlight + packet.sentBytes;
      wire := wire + [WireEntry(pn, packet.payload)];
    }

    /** One attempt to send a payload. A number is used up even when the send fails; the payload is
        tracked exactly when it left. */
    method SendPayloadWithRetries(payload: Payload, retries: nat, now: nat, net: nat -> SendOutcome)
      returns (r: SendResult)
      requires Tracking() && !payload.MtuProbe?
      modifies unacked, this`nextPacketNumber, this`bytesInFlight, this`socketBlocked, this`wire
      ensures Tracking()
      ensures r.Ok? <==> old(nextPacketNumber) < U64_MAX && net(old(nextPacketNumber)).Sent?
      ensures nextPacketNumber == Min(old(nextPacketNumber) + 1, U64_MAX)
      ensures r.Ok? ==>
                var packet := Packet(payload, now, retries, net(old(nextPacketNumber)).bytes);
                && old(nextPacketNumber) !in old(unacked.View())
                && unacked.View() == old(unacked.View())[old(nextPacketNumber) := packet]
                && wire == old(wire) + [WireEntry(old(nextPacketNumber), payload)]
                && socketBlocked == old(socketBlocked)
      ensures !r.Ok? ==> unacked.View() == old(unacked.View()) && wire == old(wire)
      ensures !r.Ok? ==>
                var exhausted := old(nextPacketNumber) >= U64_MAX;
                && (r.fatal <==> exhausted || net(old(nextPacketNumber)).Unsendable?)
                && (socketBlocked <==> old(socketBlocked) || (!exhausted && net(old(nextPacketNumber)).WouldBlock?))
    {
      hide InFlight, Tracked, UnackedWindow.Valid;
      var pn := GetNextPacketNumber();
      if pn.None? {
        return Error(true);
      }
      match net(pn.value) {
        case Sent(bytes) =>
          Track(pn.value, Packet(payload, now, retries, bytes));
          return Ok;
        case WouldBlock =>
          socketBlocked := true;
          return Error(false);
        case Failed => return Error(false);
        case Unsendable => return Error(true);
      }
    }

    /** Sends a payload or, if that fails, puts it at the front of the pacing queue. */
    method RetransmitPayload(payload: Payload, retries: nat, now: nat, net: nat -> SendOutcome)
      requires Tracking() && !payload.MtuProbe? && NoProbeQueued(unpacedQueue)
      modifies unacked, this`nextPacketNumber, this`bytesInFlight, this`socketBlocked, this`wire, this`unpacedQueue
      ensures Tracking() && NoProbeQueued(unpacedQueue)
      ensures Custody() == old(Custody()) + IfReliable(payload)
      ensures Datagrams() == old(Datagrams()) + IfDatagram(payload)
      ensures QueueLen(unpacedQueue) >= old(QueueLen(unpacedQueue))
      ensures Grew(old(unacked.View()), unacked.View(), old(nextPacketNumber))
      ensures nextPacketNumber >= old(nextPacketNumber)
      ensures var pn := old(nextPacketNumber);
              var sent := pn < U64_MAX && net(pn).Sent?;
              && unpacedQueue == (if sent then [] else [Queued(payload, retries)]) + old(unpacedQueue)
              && wire == old(wire) + (if sent then [WireEntry(pn, payload)] else [])
              && unacked.View() == if sent then old(unacked.View())[pn := Packet(payload, now, retries, net(pn).bytes)]
                                   else old(unacked.View())
    {
      hide InFlight, Tracked, UnackedWindow.Valid, Outstanding, Waiting, WaitingDatagrams, QueueLen, IfReliable,
           IfDatagram, WireDatagrams, Grew, NoProbeQueued;
      QueueNoProbe(Queued(payload, retries), unpacedQueue);
      ghost var v, q, w := unacked.View(), unpacedQueue, wire;
      var pn := nextPacketNumber;
      var r := SendPayloadWithRetries(payload, retries, now, net);
      GrewOne(v, pn, Packet(payload, now, retries, if r.Ok? then unacked.View()[pn].sentBytes else 0));
      if r.Ok? {
        TrackOne(v, pn, unacked.View()[pn]);
        WireNext(w, WireEntry(pn, payload));
        CustodyMoves(Waiting(q), Outstanding(v), IfReliable(payload));
      } else {
        QueueFront(Queued(payload, retries), q);
        unpacedQueue := [Queued(payload, retries)] + unpacedQueue;
        CustodyMoves(Outstanding(v), Waiting(q), IfReliable(payload));
        CustodyMoves(WireDatagrams(w), WaitingDatagrams(q), IfDatagram(payload));
      }
    }

    /** Accepts a payload for delivery and tries to send it at once: datagrams, closes, limits. */
    method SendPayload(payload: Payload, now: nat, net: nat -> SendOutcome)
      requires Valid() && !payload.MtuProbe?
      modifies this, unacked
      ensures Valid() && retired == old(retired) && state == old(state)
      ensures admitted == old(admitted) + IfReliable(payload) && datagrams == old(datagrams) + IfDatagram(payload)
      ensures Grew(old(unacked.View()), unacked.View(), old(nextPacketNumber))
      ensures var pn := old(nextPacketNumber);
              if pn < U64_MAX && net(pn).Sent?
              then
                && unacked.View() == old(unacked.View())[pn := Packet(payload, now, 0, net(pn).bytes)]
                && unpacedQueue == old(unpacedQueue) && wire == old(wire) + [WireEntry(pn, payload)]
              else
                && unacked.View() == old(unacked.View()) && wire == old(wire)
                && unpacedQueue == [Queued(payload, 0)] + old(unpacedQueue)
    {
      hide Grew, InFlight, Tracked, UnackedWindow.Valid, Outstanding, Waiting, WaitingDatagrams, QueueLen, IfReliable,
           IfDatagram, WireDatagrams, ZtConnection.Tracking, ZtConnection.Custody, ZtConnection.Datagrams, Conserved;
      ConservedGrows(Custody(), retired, admitted, Datagrams(), datagrams, IfReliable(payload), IfDatagram(payload));
      RetransmitPayload(payload, 0, now, net);
      admitted := admitted + IfReliable(payload);
      datagrams := datagrams + IfDatagram(payload);
    }

    method InitiateClose(now: nat, net: nat -> SendOutcome)
      requires Valid()
      modifies this, unacked
      ensures Valid() && retired == old(retired) && state == Closing
      ensures admitted == old(admitted) + multiset{Close} && datagrams == old(datagrams)
      ensures Grew(old(unacked.View()), unacked.View(), old(nextPacketNumber))
    {
      hide Grew, ZtConnection.Tracking, ZtConnection.Balanced;
      state := Closing;
      SendPayload(Close, now, net);
    }

    /** Sends every listed payload again, or queues it, with the retries it comes with. */
    method ResendAll(resend: seq<Queued>, ghost lost: View, now: nat, net: nat -> SendOutcome)
      requires Tracking() && NoProbeQueued(unpacedQueue) && NoProbeQueued(resend)
      requires forall x | x in resend :: Again(x, lost, 0)
      requires WaitingDatagrams(resend) == multiset{}
      modifies unacked, this`nextPacketNumber, this`bytesInFlight, this`socketBlocked, this`wire, this`unpacedQueue
      ensures Tracking() && NoProbeQueued(unpacedQueue)
      ensures Custody() == old(Custody()) + Waiting(resend)
      ensures Datagrams() == old(Datagrams())
      ensures QueueLen(unpacedQueue) >= old(QueueLen(unpacedQueue))
      ensures Grew(old(unacked.View()), unacked.View(), old(nextPacketNumber))
      ensures SentAgain(lost, 0, old(unacked.View()), unacked.View(), old(unpacedQueue), unpacedQueue, now)
    {
      hide Again, SentAgain, Grew, InFlight, Tracked, UnackedWindow.Valid, Outstanding, QueueLen, IfReliable,
           IfDatagram, WireDatagrams, ZtConnection.Tracking, ZtConnection.Custody, ZtConnection.Datagrams, Waiting,
           WaitingDatagrams;
      EmptyQueue();
      GrewOne(unacked.View(), nextPacketNumber, Packet(Close, 0, 0, 0));
      NothingSentAgain(lost, unacked.View(), unpacedQueue, now);
      for i := 0 to |resend|
        invariant Grew(old(unacked.View()), unacked.View(), old(nextPacketNumber))
        invariant SentAgain(lost, 0, old(unacked.View()), unacked.View(), old(unpacedQueue), unpacedQueue, now)
        invariant nextPacketNumber >= old(nextPacketNumber)
        invariant Tracking() && NoProbeQueued(unpacedQueue)
        invariant Custody() == old(Custody()) + Waiting(resend[..i])
        invariant Datagrams() == old(Datagrams()) + WaitingDatagrams(resend[..i])
        invariant QueueLen(unpacedQueue) >= old(QueueLen(unpacedQueue))
      {
        ghost var v, next, q := unacked.View(), nextPacketNumber, unpacedQueue;
        RetransmitPayload(resend[i].payload, resend[i].retries, now, net);
        assert [] + q == q;
        SentAgainNext(lost, 0, old(unacked.View()), v, old(unpacedQueue), q, now, resend[i], next,
                      if unpacedQueue == q && net(next).Sent? then net(next).bytes else 0);
        GrewAgain(old(unacked.View()), v, unacked.View(), old(nextPacketNumber), next);
        QueueBack(resend[..i], resend[i]);
        assert resend[..i] + [resend[i]] == resend[..i + 1];
        CustodyMoves(old(Custody()), Waiting(resend[..i]), IfReliable(resend[i].payload));
        CustodyMoves(old(Datagrams()), WaitingDatagrams(resend[..i]), IfDatagram(resend[i].payload));
      }
      assert resend[..|resend|] == resend;
    }

    /**
     * An ACK frame as it arrives. An implausible one closes the connection. Otherwise exactly the
     * reliable payloads acknowledged by a range or below the horizon are retired, and every lost one is
     * on the wire or in the queue again.
     */
    method OnAckFrame(a: Ack, net: nat -> SendOutcome) returns (ok: bool)
      requires Valid()
      modifies this, unacked
      ensures Valid() && datagrams == old(datagrams)
      ensures ok <==> a.largest < old(nextPacketNumber) && forall r | r in a.ranges :: r.start <= r.end <= a.largest
      ensures ok ==> admitted == old(admitted) && state == old(state)
      ensures ok ==> retired == old(retired) + Outstanding(Acknowledged(old(unacked.View()), a))
      ensures ok ==> Grew(With(old(unacked.View()), a, Kept), unacked.View(), old(nextPacketNumber))
      ensures ok ==> SentAgain(With(old(unacked.View()), a, Lost), 0, With(old(unacked.View()), a, Kept),
                               unacked.View(), old(unpacedQueue), unpacedQueue, a.now)
      ensures !ok ==> admitted == old(admitted) + multiset{Close} && retired == old(retired) && state == Closing
    {
      hide InFlight, Tracked, UnackedWindow.Valid, Outstanding, QueueLen, IfReliable, IfDatagram, WireDatagrams,
           ZtConnection.Tracking, ZtConnection.Datagrams, Waiting, WaitingDatagrams, Conserved, With, ResendOf,
           KeysOf, Only, AckedProbes, LostProbes, Replay, Acknowledged, Grew, Again, SentAgain;
      ok := Plausible(a, nextPacketNumber);
      if !ok {
        InitiateClose(a.now, net);
        return;
      }
      ghost var v, c := unacked.View(), Custody();
      var resend; ghost var lost, acked, failed;
      resend, lost, acked, failed := HandleAck(a);
      LostReliable(v, lost);
      AckBalance(Waiting(unpacedQueue), v, a, lost);
      ghost var gone := Outstanding(Acknowledged(v, a));
      LostAgain(v, lost);
      ResendAll(resend, With(v, a, Lost), a.now, net);
      assert c == Custody() + gone;
      ConservedRetires(Custody(), retired, admitted, Datagrams(), datagrams, gone);
      retired := retired + gone;
    }

    /** The front payload was sent: it leaves the queue. */
    method PopFront()
      requires unpacedQueue != [] && queuedBytes <= QueueLen(unpacedQueue) && NoProbeQueued(unpacedQueue)
      modifies this`unpacedQueue, this`queuedBytes
      ensures unpacedQueue == old(unpacedQueue)[1..]
      ensures queuedBytes == SaturatingSub(old(queuedBytes), old(unpacedQueue)[0].payload.Len())
      ensures queuedBytes <= QueueLen(unpacedQueue) && NoProbeQueued(unpacedQueue)
      ensures old(Waiting(unpacedQueue)) == IfReliable(old(unpacedQueue)[0].payload) + Waiting(unpacedQueue)
      ensures old(WaitingDatagrams(unpacedQueue))
           == IfDatagram(old(unpacedQueue)[0].payload) + WaitingDatagrams(unpacedQueue)
    {
      hide Payload.Len, IfReliable, IfDatagram;
      queuedBytes := SaturatingSub(queuedBytes, unpacedQueue[0].payload.Len());
      unpacedQueue := unpacedQueue[1..];
    }

    /** A failed send counts one more retry for the front payload, or gives the connection up. */
    method FrontFailed()
      requires unpacedQueue != [] && queuedBytes <= QueueLen(unpacedQueue) && NoProbeQueued(unpacedQueue)
      modifies this`unpacedQueue, this`state
      ensures queuedBytes <= QueueLen(unpacedQueue) && NoProbeQueued(unpacedQueue)
      ensures unpacedQueue == [old(unpacedQueue)[0].(retries := old(unpacedQueue)[0].retries + 1)]
                              + old(unpacedQueue)[1..]
      ensures state == if old(unpacedQueue)[0].retries >= 10 then Closed else old(state)
      ensures forall w :: InOrder(w, unpacedQueue) == InOrder(w, old(unpacedQueue))
      ensures Waiting(unpacedQueue) == old(Waiting(unpacedQueue))
      ensures WaitingDatagrams(unpacedQueue) == old(WaitingDatagrams(unpacedQueue))
    {
      var front := unpacedQueue[0];
      var retried := front.(retries := front.retries + 1);
      QueueFront(front, unpacedQueue[1..]);
      QueueFront(retried, unpacedQueue[1..]);
      assert unpacedQueue == [front] + unpacedQueue[1..];
      SameOrder(unpacedQueue, retried);
      unpacedQueue := [retried] + unpacedQueue[1..];
      if retried.retries > 10 {
        state := Closed;
      }
    }

    /** Sends queued payloads while pacing allows; a payload leaves the queue exactly when it was sent. */
    method FlushPacingQueue(now: nat, mayPace: nat -> bool, net: nat -> SendOutcome) returns (ghost k: nat)
      requires Valid()
      modifies this, unacked
      ensures Valid() && admitted == old(admitted) && retired == old(retired) && datagrams == old(datagrams)
      ensures InOrder(wire, unpacedQueue) == old(InOrder(wire, unpacedQueue)) && old(wire) <= wire
      ensures unpacedQueue == [] || socketBlocked || !mayPace(nextPacketNumber) || nextPacketNumber == U64_MAX
              || (nextPacketNumber > old(nextPacketNumber) && !net(nextPacketNumber - 1).Sent?)
      ensures Flushed(old(unacked.View()), unacked.View(), old(unpacedQueue), old(nextPacketNumber), k, now, net)
      ensures Drained(old(unpacedQueue), unpacedQueue, k)
    {
      hide ZtConnection.Valid, Tracked, InOrder, Flushed, Grew;
      k := 0;
      NothingFlushed(unacked.View(), unpacedQueue, nextPacketNumber, now, net);
      if socketBlocked {
        return;
      }
      while unpacedQueue != []
        invariant Valid() && admitted == old(admitted) && retired == old(retired) && datagrams == old(datagrams)
        invariant InOrder(wire, unpacedQueue) == old(InOrder(wire, unpacedQueue)) && old(wire) <= wire
        invariant Flushed(old(unacked.View()), unacked.View(), old(unpacedQueue), old(nextPacketNumber), k, now, net)
        invariant nextPacketNumber == old(nextPacketNumber) + k && k <= |old(unpacedQueue)|
        invariant unpacedQueue == old(unpacedQueue)[k..]
        decreases |unpacedQueue|
      {
        if !mayPace(nextPacketNumber) {
          break;
        }
        ghost var v := unacked.View();
        var sent := SendFront(now, net);
        if !sent {
          return;
        }
        FlushedNext(old(unacked.View()), v, old(unpacedQueue), old(nextPacketNumber), k, now, net);
        k := k + 1;
      }
    }

    /** Sends the front payload: it leaves the queue, or stays there with one more retry. */
    method SendFront(now: nat, net: nat -> SendOutcome) returns (sent: bool)
      requires Valid() && unpacedQueue != []
      modifies this, unacked
      ensures Valid() && admitted == old(admitted) && retired == old(retired) && datagrams == old(datagrams)
      ensures InOrder(wire, unpacedQueue) == old(InOrder(wire, unpacedQueue)) && old(wire) <= wire
      ensures sent <==> old(nextPacketNumber) < U64_MAX && net(old(nextPacketNumber)).Sent?
      ensures nextPacketNumber == Min(old(nextPacketNumber) + 1, U64_MAX)
      ensures sent ==>
                var pn, front := old(nextPacketNumber), old(unpacedQueue)[0];
                && unpacedQueue == old(unpacedQueue)[1..] && state == old(state) && pn !in old(unacked.View())
                && unacked.View() == old(unacked.View())[pn := Packet(front.payload, now, front.retries, net(pn).bytes)]
      ensures !sent ==>
                var pn, front := old(nextPacketNumber), old(unpacedQueue)[0];
                var hopeless := pn >= U64_MAX || net(pn).Unsendable?;
                && unacked.View() == old(unacked.View())
                && (socketBlocked ==> unpacedQueue == old(unpacedQueue) && state == old(state))
                && (!socketBlocked && hopeless ==> unpacedQueue == old(unpacedQueue) && state == Closed)
                && (!socketBlocked && !hopeless ==>
                      && unpacedQueue == [front.(retries := front.retries + 1)] + old(unpacedQueue)[1..]
                      && state == if front.retries >= 10 then Closed else old(state))
                && (socketBlocked <==> old(socketBlocked) || (pn < U64_MAX && net(pn).WouldBlock?))
    {
      hide InFlight, Tracked, UnackedWindow.Valid, Outstanding, QueueLen, IfReliable, IfDatagram, WireDatagrams,
           ZtConnection.Tracking, Waiting, WaitingDatagrams, Conserved, InOrder;
      var front := unpacedQueue[0];
      ghost var v, w, pn := unacked.View(), wire, nextPacketNumber;
      var r := SendPayloadWithRetries(front.payload, front.retries, now, net);
      sent := r.Ok?;
      if sent {
        FrontSent(v, w, pn);
      } else {
        FrontNotSent(r.fatal);
      }
    }

    /** The front payload left in packet `pn`, so it leaves the queue. */
    method FrontSent(ghost v: View, ghost w: seq<WireEntry>, ghost pn: nat)
      requires Tracking() && queuedBytes <= QueueLen(unpacedQueue) && NoProbeQueued(unpacedQueue)
      requires unpacedQueue != [] && pn !in v && pn in unacked.View()
      requires unacked.View()[pn].payload == unpacedQueue[0].payload && unacked.View() == v[pn := unacked.View()[pn]]
      requires wire == w + [WireEntry(pn, unpacedQueue[0].payload)]
      requires Conserved(Waiting(unpacedQueue) + Outstanding(v), retired, admitted,
                         WaitingDatagrams(unpacedQueue) + WireDatagrams(w), datagrams)
      modifies this`unpacedQueue, this`queuedBytes
      ensures Valid() && unpacedQueue == old(unpacedQueue)[1..]
      ensures queuedBytes == SaturatingSub(old(queuedBytes), old(unpacedQueue)[0].payload.Len())
      ensures InOrder(wire, unpacedQueue) == old(InOrder(w, unpacedQueue))
    {
      hide InFlight, Tracked, UnackedWindow.Valid, Outstanding, QueueLen, IfReliable, IfDatagram, WireDatagrams,
           ZtConnection.Tracking, Waiting, WaitingDatagrams, Conserved, InOrder;
      var front := unpacedQueue[0];
      TrackOne(v, pn, unacked.View()[pn]);
      WireNext(w, WireEntry(pn, front.payload));
      OrderShifts(w, unpacedQueue, pn);
      PopFront();
      CustodyShifts(IfReliable(front.payload), Waiting(unpacedQueue), Outstanding(v));
      CustodyShifts(IfDatagram(front.payload), WaitingDatagrams(unpacedQueue), WireDatagrams(w));
    }

    /** The front payload stays: the socket is blocked, the connection is over, or a retry is counted. */
    method FrontNotSent(fatal: bool)
      requires Valid() && unpacedQueue != []
      modifies this`unpacedQueue, this`state
      ensures Valid() && InOrder(wire, unpacedQueue) == old(InOrder(wire, unpacedQueue))
      ensures var front := old(unpacedQueue)[0];
              if socketBlocked then unpacedQueue == old(unpacedQueue) && state == old(state)
              else if fatal then unpacedQueue == old(unpacedQueue) && state == Closed
              else
                && unpacedQueue == [front.(retries := front.retries + 1)] + old(unpacedQueue)[1..]
                && state == if front.retries >= 10 then Closed else old(state)
    {
      hide InFlight, Tracked, UnackedWindow.Valid, Outstanding, QueueLen, WireDatagrams, ZtConnection.Tracking, Waiting,
           WaitingDatagrams, Conserved, InOrder;
      if socketBlocked {
        return;
      } else if fatal {
        state := Closed;
      } else {
        FrontFailed();
      }
    }

    // ---------- admission, probes, retransmission timeout ----------

    /** Admission of stream data: within the peer's connection and stream windows and the congestion
        window, the data joins the end of the pacing queue at the stream's next offset. */
    method ProcessOutgoingData(stream: TxStream, data: seq<byte>, cwnd: nat) returns (r: Admission)
      requires Valid()
      modifies this, stream
      ensures Valid() && retired == old(retired) && datagrams == old(datagrams)
      ensures var n, window, credit := |data|, old(remoteWindow), old(stream.txWindow);
              var inUse := old(bytesInFlight + queuedBytes);
              && (r == Admitted <==> !old(stream.sendStopped) && !stream.receiveOnly && n <= window && n <= credit
                                     && inUse + n <= cwnd)
              && (r == StreamStopped <==> n <= window && old(stream.sendStopped))
              && (r == ReceiveOnly <==> n <= window && !old(stream.sendStopped) && stream.receiveOnly)
              && (r == FlowControlBlocked <==>
                    n > window || (!old(stream.sendStopped) && !stream.receiveOnly && n > credit))
      ensures r == Admitted ==>
                && unpacedQueue == old(unpacedQueue) + [Queued(Stream(stream.id, old(stream.nextTxOffset), data), 0)]
                && admitted == old(admitted) + multiset{Stream(stream.id, old(stream.nextTxOffset), data)}
                && stream.nextTxOffset == old(stream.nextTxOffset) + |data| && |data| <= old(stream.txWindow)
                && stream.Credit() == Spend(old(stream.Credit()), |data|)
                && remoteWindow + |data| == old(remoteWindow)
                && connTxOffset == SaturatingAdd(old(connTxOffset), |data|)
                && queuedBytes == old(queuedBytes) + |data|
      ensures r != Admitted ==>
                && unpacedQueue == old(unpacedQueue) && admitted == old(admitted) && remoteWindow == old(remoteWindow)
                && connTxOffset == old(connTxOffset) && queuedBytes == old(queuedBytes)
                && stream.nextTxOffset == old(stream.nextTxOffset) && stream.txWindow == old(stream.txWindow)
    {
      hide Tracked, UnackedWindow.Valid, ZtConnection.Tracking, ZtConnection.Balanced;
      r := Admissible(stream, |data|, cwnd);
      if r != Admitted {
        return;
      }
      var start := stream.nextTxOffset;
      stream.nextTxOffset := stream.nextTxOffset + |data|;
      stream.txWindow := stream.txWindow - |data|;
      connTxOffset := SaturatingAdd(connTxOffset, |data|);
      remoteWindow := remoteWindow - |data|;
      Enqueue(Stream(stream.id, start, data));
    }

    /** A reliable payload joins the end of the pacing queue. */
    method Enqueue(payload: Payload)
      requires Valid() && payload.Reliable()
      modifies this`unpacedQueue, this`queuedBytes, this`admitted, this`datagrams
      ensures Valid() && datagrams == old(datagrams)
      ensures unpacedQueue == old(unpacedQueue) + [Queued(payload, 0)] && admitted == old(admitted) + multiset{payload}
      ensures queuedBytes == old(queuedBytes) + payload.Len()
    {
      hide InFlight, Tracked, UnackedWindow.Valid, Outstanding, QueueLen, WireDatagrams, IfReliable, IfDatagram,
           ZtConnection.Tracking, Waiting, WaitingDatagrams, Conserved;
      ghost var x, y := IfReliable(payload), IfDatagram(payload);
      ReliableOnly(datagrams, payload);
      ConservedGrows(Custody(), retired, admitted, Datagrams(), datagrams, x, y);
      QueueBack(unpacedQueue, Queued(payload, 0));
      CustodyMoves(Waiting(unpacedQueue), Outstanding(unacked.View()), x);
      CustodyMoves(WaitingDatagrams(unpacedQueue), WireDatagrams(wire), y);
      unpacedQueue := unpacedQueue + [Queued(payload, 0)];
      queuedBytes := queuedBytes + payload.Len();
      admitted := admitted + x;
    }

    function Admissible(stream: TxStream, len: nat, cwnd: nat): Admission
      reads this`remoteWindow, this`bytesInFlight, this`queuedBytes, stream
    {
      if remoteWindow < len then FlowControlBlocked
      else if stream.sendStopped then StreamStopped
      else if stream.receiveOnly then ReceiveOnly
      else if stream.txWindow < len then FlowControlBlocked
      else if bytesInFlight + len + queuedBytes > cwnd then CongestionWindowFull
      else Admitted
    }

    /** Sends a probe at the midpoint of the search unless it has converged. A probe that could not be
        sent leaves nothing behind but its packet number. */
    method SendMtuProbe(now: nat, net: nat -> SendOutcome)
      requires Valid()
      modifies this, unacked
      ensures Valid() && admitted == old(admitted) && retired == old(retired) && datagrams == old(datagrams)
      ensures path == old(path) && unpacedQueue == old(unpacedQueue)
      ensures var next := old(nextPacketNumber);
              unacked.View()
              == if state == Active && !Pmtud.Converged(path) && next < U64_MAX && net(next).Sent?
                 then old(unacked.View())[next := Packet(MtuProbe(Pmtud.ProbeSize(path)), now, 0, net(next).bytes)]
                 else old(unacked.View())
    {
      hide InFlight, Tracked, UnackedWindow.Valid, Outstanding, QueueLen, WireDatagrams, Waiting, WaitingDatagrams,
           Conserved, Probed, NoProbeQueued, Pmtud.Converged, Pmtud.ProbeSize;
      if state != Active || Pmtud.Converged(path) {
        return;
      }
      var target := Pmtud.ProbeSize(path);
      ghost var v, w := unacked.View(), wire;
      var pn := GetNextPacketNumber();
      if pn.None? || !net(pn.value).Sent? {
        return;
      }
      var packet := Packet(MtuProbe(target), now, 0, net(pn.value).bytes);
      TrackOne(v, pn.value, packet);
      WireNext(w, WireEntry(pn.value, packet.payload));
      NothingAdded(Outstanding(v), WireDatagrams(w));
      ProbedMore(v, mtuProbes, pn.value, packet, target);
      Track(pn.value, packet);
      mtuProbes := mtuProbes[pn.value := target];
    }

    /** The scan of the retransmission timer: expired packets are listed, reliable ones get one more
        retry and the current time; more than ten retries end the scan. */
    method ExpireScan(now: nat, rto: nat) returns (toDrop: seq<nat>, blackhole: bool, timedOut: bool)
      requires unacked.Valid()
      modifies unacked
      ensures unacked.Valid() && Retouched(old(unacked.View()), unacked.View())
      ensures InFlight(unacked.View()) == old(InFlight(unacked.View()))
      ensures Outstanding(unacked.View()) == old(Outstanding(unacked.View()))
      ensures KeysOf(unacked.View(), toDrop)
      ensures timedOut == Exhausted(old(unacked.View()), GIVE_UP, now, rto)
      ensures !timedOut ==> TimerScan(old(unacked.View()), unacked.View(), toDrop, blackhole, now, rto)
    {
      hide InFlight, Outstanding, Tracked, UnackedWindow.Valid, Expired, Retouched, TouchedIn, ExpiredOf, KeysOf,
           AnyDue, Exhausted;
      ghost var v := unacked.View();
      var keys := unacked.Keys();
      toDrop, blackhole, timedOut := [], false, false;
      ExpiryScanStart(v, keys, now, rto);
      var i := 0;
      while i < |keys| && !timedOut
        invariant i <= |keys| && (timedOut ==> i > 0) && unacked.Valid() && Retouched(v, unacked.View())
        invariant InFlight(unacked.View()) == InFlight(v) && Outstanding(unacked.View()) == Outstanding(v)
        invariant !timedOut ==> unacked.View() == TouchedIn(v, keys[..i], now, rto)
        invariant toDrop == ExpiredOf(v, keys[..if timedOut then i - 1 else i], now, rto)
        invariant timedOut == AnyDue(v, keys[..i], GIVE_UP, now, rto)
        invariant !timedOut ==> blackhole == AnyDue(v, keys[..i], SUSPECT, now, rto)
      {
        var pn := keys[i];
        TouchNext(v, keys, i, now, rto);
        ExpiredNext(v, keys, i, now, rto);
        AnyDueNext(v, keys, i, GIVE_UP, now, rto);
        AnyDueNext(v, keys, i, SUSPECT, now, rto);
        var up := unacked.Get(pn);
        if Expired(up, now, rto) {
          if up.payload.Reliable() {
            var retries := up.retries + 1;
            timedOut := retries > 10;
            blackhole := blackhole || 3 < retries <= 10;
            var touched := up.(retries := retries, sentAt := if timedOut then up.sentAt else now);
            RetouchOne(unacked.View(), pn, touched);
            RetouchMore(v, unacked.View(), pn, touched);
            unacked.Replace(pn, touched);
          }
          if !timedOut {
            toDrop := toDrop + [pn];
          }
        }
        i := i + 1;
      }
      ScanEnds(v, unacked.View(), keys, if timedOut then i - 1 else i, now, rto);
      ScanAnswers(v, keys, i, GIVE_UP, now, rto);
      ScanAnswers(v, keys, i, SUSPECT, now, rto);
    }

    /**
     * The retransmission timer. Exactly the expired packets leave the flight; their payloads, if
     * reliable, are on the wire under fresh numbers or in the queue again; lost probes count for the MTU
     * search, and a packet due for the fourth time or later starts it afresh. When a packet is due for
     * the eleventh time the connection is closed instead, and nothing leaves the flight.
     */
    method HandleRetransmits(now: nat, rto: nat, net: nat -> SendOutcome)
      returns (ok: bool, ghost log: seq<Pmtud.Event>)
      requires Valid()
      modifies this, unacked
      ensures Valid() && retired == old(retired) && datagrams == old(datagrams)
      ensures ok <==>
                forall pn | pn in old(unacked.View()) ::
                  var p := old(unacked.View())[pn];
                  p.payload.Reliable() && p.retries >= 10 ==> now <= Deadline(p, rto)
      ensures ok ==>
                forall pn | pn in old(unacked.View()) ::
                  var p := old(unacked.View())[pn];
                  && (pn in unacked.View() <==> now <= Deadline(p, rto))
                  && (pn in unacked.View() ==> unacked.View()[pn] == p)
      ensures ok ==> SentAgain(ExpiredPart(old(unacked.View()), now, rto), 1, Unexpired(old(unacked.View()), now, rto),
                               unacked.View(), old(unpacedQueue), unpacedQueue, now)
      ensures ok ==> admitted == old(admitted) && state == old(state)
      ensures ok ==> Grew(Unexpired(old(unacked.View()), now, rto), unacked.View(), old(nextPacketNumber))
      ensures ok ==> LostProbes(ExpiredPart(old(unacked.View()), now, rto), log)
      ensures ok ==>
                var v := old(unacked.View());
                var suspected := exists pn :: pn in v && v[pn].payload.Reliable() && v[pn].retries >= 3
                                              && now > Deadline(v[pn], rto);
                path == if suspected then Pmtud.BlackHole(Replay(old(path), log)) else Replay(old(path), log)
      ensures !ok ==> admitted == old(admitted) + multiset{Close} && state == Closing
      ensures !ok ==> old(unacked.View()).Keys <= unacked.View().Keys
    {
      hide ZtConnection.Valid, Tracked, KeysOf, Replay, Exhausted, Expired, LostProbes, TouchedIn, SentAgain,
           Deadline, Unexpired, ExpiredPart;
      log := [];
      ghost var v, next, q := unacked.View(), nextPacketNumber, unpacedQueue;
      NumbersBelow();
      ExhaustedExactly(v, GIVE_UP, now, rto);
      ExhaustedExactly(v, SUSPECT, now, rto);
      var toDrop, blackhole, timedOut := ScanExpired(now, rto);
      if timedOut {
        InitiateClose(now, net);
        return false, log;
      }
      TimerSplits(v, toDrop, now, rto);
      log := DropExpired(toDrop, blackhole, now, net);
      TimerProbes(v, toDrop, now, rto, log);
      TimerKeeps(v, unacked.View(), next, now, rto);
      TimerSentAgain(v, toDrop, now, rto, Unexpired(v, now, rto), unacked.View(), q, unpacedQueue);
      return true, log;
    }

    lemma NumbersBelow()
      requires Valid()
      ensures forall pn | pn in unacked.View() :: pn < nextPacketNumber
    {
      hide UnackedWindow.Valid, Tracked, InFlight, ZtConnection.Balanced;
    }

    method ScanExpired(now: nat, rto: nat) returns (toDrop: seq<nat>, blackhole: bool, timedOut: bool)
      requires Valid()
      modifies unacked
      ensures Valid() && KeysOf(unacked.View(), toDrop) && unacked.View().Keys == old(unacked.View()).Keys
      ensures timedOut == Exhausted(old(unacked.View()), GIVE_UP, now, rto)
      ensures !timedOut ==> TimerScan(old(unacked.View()), unacked.View(), toDrop, blackhole, now, rto)
    {
      hide InFlight, Tracked, UnackedWindow.Valid, Outstanding, QueueLen, Waiting, WaitingDatagrams, WireDatagrams,
           Conserved, KeysOf, Probed, NoProbeQueued, Expired, Exhausted, TimerScan;
      ghost var v := unacked.View();
      toDrop, blackhole, timedOut := ExpireScan(now, rto);
      RetouchedKeeps(v, unacked.View(), mtuProbes, nextPacketNumber);
    }

    method DropExpired(toDrop: seq<nat>, blackhole: bool, now: nat, net: nat -> SendOutcome)
      returns (ghost log: seq<Pmtud.Event>)
      requires Valid() && KeysOf(unacked.View(), toDrop)
      modifies this, unacked
      ensures Valid() && retired == old(retired) && datagrams == old(datagrams)
      ensures admitted == old(admitted) && state == old(state)
      ensures Grew(Without(old(unacked.View()), toDrop), unacked.View(), old(nextPacketNumber))
      ensures SentAgain(Only(old(unacked.View()), toDrop), 0, Without(old(unacked.View()), toDrop), unacked.View(),
                        old(unpacedQueue), unpacedQueue, now)
      ensures LostProbes(Only(old(unacked.View()), toDrop), log) && path == AfterTimer(old(path), log, blackhole)
    {
      hide InFlight, Tracked, UnackedWindow.Valid, Outstanding, QueueLen, WireDatagrams, ZtConnection.Tracking,
           ZtConnection.Custody, ZtConnection.Datagrams, Waiting, WaitingDatagrams, Conserved, KeysOf, Replay,
           NoProbeQueued, Grew, Without, Only, LostProbes, AfterTimer, SentAgain, Again, ResendOf;
      var resend;
      ghost var v := unacked.View();
      LostAgain(v, toDrop);
      resend, log := Expel(toDrop, blackhole);
      ResendAll(resend, Only(v, toDrop), now, net);
    }

    /** Stops tracking the expired packets; what they carried reliably is handed back. */
    method Expel(toDrop: seq<nat>, blackhole: bool) returns (resend: seq<Queued>, ghost log: seq<Pmtud.Event>)
      requires Tracking() && KeysOf(unacked.View(), toDrop)
      modifies unacked, this`bytesInFlight, this`mtuProbes, this`path, this`packetsLost
      ensures Tracking() && Custody() + Waiting(resend) == old(Custody())
      ensures unacked.View() == Without(old(unacked.View()), toDrop) && resend == ResendOf(old(unacked.View()), toDrop)
      ensures NoProbeQueued(resend) && WaitingDatagrams(resend) == multiset{}
      ensures LostProbes(Only(old(unacked.View()), toDrop), log) && path == AfterTimer(old(path), log, blackhole)
      ensures packetsLost == SaturatingAdd(old(packetsLost), |resend|)
    {
      hide InFlight, Tracked, UnackedWindow.Valid, Outstanding, Waiting, WaitingDatagrams, ResendOf, KeysOf, Only,
           Without, LostProbes, Replay, Probed, NoProbeQueued;
      ghost var w := unacked.View();
      DropBalance(Waiting(unpacedQueue), w, toDrop);
      resend, log := DeclareLost(toDrop, 0);
      WithoutKeeps(w, toDrop, nextPacketNumber);
      LostReliable(w, toDrop);
      if blackhole && path.mtu > path.base {
        path := Pmtud.BlackHole(path);
      }
      packetsLost := SaturatingAdd(packetsLost, |resend|);
    }
  }

  /** The MTU search after the timer: lost probes first, then a suspected black hole. */
  ghost function AfterTimer(p: Pmtud.Path, log: seq<Pmtud.Event>, blackhole: bool): Pmtud.Path {
    if blackhole then Pmtud.BlackHole(Replay(p, log)) else Replay(p, log)
  }

  lemma TimerSplits(v: View, toDrop: seq<nat>, now: nat, rto: nat)
    requires forall pn :: pn in toDrop <==> pn in v && Expired(v[pn], now, rto)
    ensures Without(TouchedIn(v, toDrop, now, rto), toDrop) == Unexpired(v, now, rto)
  {
    hide Expired;
  }

  lemma TimerProbes(v: View, toDrop: seq<nat>, now: nat, rto: nat, log: seq<Pmtud.Event>)
    requires forall pn :: pn in toDrop <==> pn in v && Expired(v[pn], now, rto)
    requires LostProbes(Only(TouchedIn(v, toDrop, now, rto), toDrop), log)
    ensures LostProbes(ExpiredPart(v, now, rto), log)
  {
    hide Expired, ProbeIn;
    forall size: nat
      ensures ProbeIn(Only(TouchedIn(v, toDrop, now, rto), toDrop), size) <==> ProbeIn(ExpiredPart(v, now, rto), size)
    {
      TimerProbe(v, toDrop, now, rto, size);
    }
  }

  lemma TimerProbe(v: View, toDrop: seq<nat>, now: nat, rto: nat, size: nat)
    requires forall pn :: pn in toDrop <==> pn in v && Expired(v[pn], now, rto)
    ensures ProbeIn(Only(TouchedIn(v, toDrop, now, rto), toDrop), size) <==> ProbeIn(ExpiredPart(v, now, rto), size)
  {
    hide Expired;
    var w, x := Only(TouchedIn(v, toDrop, now, rto), toDrop), ExpiredPart(v, now, rto);
    forall pn | pn in w ensures pn in x && w[pn].payload == x[pn].payload {}
    forall pn | pn in x ensures pn in w && w[pn].payload == x[pn].payload {}
    if ProbeIn(w, size) {
      var pn :| pn in w && w[pn].payload == MtuProbe(size);
      assert x[pn].payload == MtuProbe(size);
    }
    if ProbeIn(x, size) {
      var pn :| pn in x && x[pn].payload == MtuProbe(size);
      assert w[pn].payload == MtuProbe(size);
    }
  }

  /** What a scan that did not give up found: the expired packets, and whether one was due for the fourth
      time or later. */
  ghost predicate TimerScan(v: View, w: View, toDrop: seq<nat>, blackhole: bool, now: nat, rto: nat) {
    && (forall pn :: pn in toDrop <==> pn in v && Expired(v[pn], now, rto))
    && w == TouchedIn(v, toDrop, now, rto)
    && blackhole == Exhausted(v, SUSPECT, now, rto)
  }

  /** Some listed packet is due to be sent again and was so `limit` times or more already. */
  ghost predicate AnyDue(v: View, ks: seq<nat>, limit: nat, now: nat, rto: nat)
    requires forall k | k in ks :: k in v
  {
    ks != [] && (AnyDue(v, ks[..|ks| - 1], limit, now, rto)
                 || (Resends(v[ks[|ks| - 1]], now, rto) && v[ks[|ks| - 1]].retries >= limit))
  }

  lemma AnyDueNext(v: View, keys: seq<nat>, i: nat, limit: nat, now: nat, rto: nat)
    requires i < |keys| && forall k | k in keys :: k in v
    ensures AnyDue(v, keys[..i + 1], limit, now, rto)
        <==> AnyDue(v, keys[..i], limit, now, rto) || (Resends(v[keys[i]], now, rto) && v[keys[i]].retries >= limit)
  {
    assert keys[..i + 1][..i] == keys[..i];
  }

  lemma {:induction false} AnyDueMember(v: View, ks: seq<nat>, limit: nat, now: nat, rto: nat)
    requires forall k | k in ks :: k in v
    ensures AnyDue(v, ks, limit, now, rto) <==> exists k :: k in ks && Resends(v[k], now, rto) && v[k].retries >= limit
    decreases |ks|
  {
    hide Resends;
    if ks != [] {
      var init, last := ks[..|ks| - 1], ks[|ks| - 1];
      AnyDueMember(v, init, limit, now, rto);
      assert ks == init + [last];
    }
  }

  /** The scanned prefix answers for the whole flight: it is all of it, or it already holds a case. */
  lemma ScanAnswers(v: View, keys: seq<nat>, i: nat, limit: nat, now: nat, rto: nat)
    requires i <= |keys| && forall pn: nat :: pn in keys <==> pn in v
    ensures AnyDue(v, keys[..i], limit, now, rto) ==> Exhausted(v, limit, now, rto)
    ensures i == |keys| ==> (AnyDue(v, keys[..i], limit, now, rto) <==> Exhausted(v, limit, now, rto))
  {
    hide AnyDue, Resends;
    AnyDueMember(v, keys[..i], limit, now, rto);
    assert i == |keys| ==> keys[..i] == keys;
  }

  lemma TouchMore(v: View, ks: seq<nat>, k: nat, now: nat, rto: nat)
    requires k in v && k !in ks
    ensures var w := TouchedIn(v, ks, now, rto);
            && k in w && w[k] == v[k]
            && TouchedIn(v, ks + [k], now, rto)
               == if Resends(v[k], now, rto) then w[k := v[k].(retries := v[k].retries + 1, sentAt := now)] else w
  {
    hide Resends;
    assert forall pn :: pn in ks + [k] <==> pn in ks || pn == k;
  }

  lemma TouchNext(v: View, keys: seq<nat>, i: nat, now: nat, rto: nat)
    requires (forall a, b | 0 <= a < b < |keys| :: keys[a] < keys[b]) && (forall k | k in keys :: k in v) && i < |keys|
    ensures var w, k := TouchedIn(v, keys[..i], now, rto), keys[i];
            && k in v && k in w && w[k] == v[k]
            && TouchedIn(v, keys[..i + 1], now, rto)
               == if Resends(v[k], now, rto) then w[k := v[k].(retries := v[k].retries + 1, sentAt := now)] else w
  {
    hide Resends, TouchedIn;
    assert keys[..i + 1] == keys[..i] + [keys[i]];
    assert keys[i] !in keys[..i];
    TouchMore(v, keys[..i], keys[i], now, rto);
  }

  /** The expired ones among the listed packets, in order. */
  ghost function ExpiredOf(v: View, ks: seq<nat>, now: nat, rto: nat): seq<nat>
    requires forall k | k in ks :: k in v
  {
    if ks == [] then []
    else
      var k := ks[|ks| - 1];
      ExpiredOf(v, ks[..|ks| - 1], now, rto) + (if Expired(v[k], now, rto) then [k] else [])
  }

  lemma ExpiryScanStart(v: View, keys: seq<nat>, now: nat, rto: nat)
    requires forall i, j | 0 <= i < j < |keys| :: keys[i] < keys[j]
    requires forall pn: nat :: pn in keys <==> pn in v
    ensures TouchedIn(v, keys[..0], now, rto) == v && Retouched(v, v) && ExpiredOf(v, keys[..0], now, rto) == []
    ensures !AnyDue(v, keys[..0], GIVE_UP, now, rto) && !AnyDue(v, keys[..0], SUSPECT, now, rto)
  {
  }

  lemma RetouchMore(v: View, w: View, pn: nat, p: Packet)
    requires Retouched(v, w) && pn in w && p.payload == w[pn].payload && p.sentBytes == w[pn].sentBytes
    ensures Retouched(v, w[pn := p])
  {
  }

  lemma ExpiredNext(v: View, keys: seq<nat>, i: nat, now: nat, rto: nat)
    requires i < |keys| && forall k | k in keys :: k in v
    ensures ExpiredOf(v, keys[..i + 1], now, rto)
         == ExpiredOf(v, keys[..i], now, rto) + (if Expired(v[keys[i]], now, rto) then [keys[i]] else [])
  {
    assert keys[..i + 1][..i] == keys[..i];
  }

  lemma {:induction false} ExpiredKeys(v: View, ks: seq<nat>, now: nat, rto: nat)
    requires (forall k | k in ks :: k in v) && forall i, j | 0 <= i < j < |ks| :: ks[i] < ks[j]
    ensures KeysOf(v, ExpiredOf(v, ks, now, rto))
    ensures forall k :: k in ExpiredOf(v, ks, now, rto) <==> k in ks && Expired(v[k], now, rto)
    decreases |ks|
  {
    hide Expired, KeysOf;
    if ks == [] {
      NoKeys(v);
    } else {
      var init, k := ks[..|ks| - 1], ks[|ks| - 1];
      ExpiredKeys(v, init, now, rto);
      assert ks == init + [k];
      var es := ExpiredOf(v, init, now, rto);
      assert es + [] == es;
      if Expired(v[k], now, rto) { OneMoreKey(v, es, k); }
    }
  }

  lemma NoKeys(v: View)
    ensures KeysOf(v, [])
  {
  }

  lemma OneMoreKey(v: View, ks: seq<nat>, k: nat)
    requires KeysOf(v, ks) && k in v && forall x | x in ks :: x < k
    ensures KeysOf(v, ks + [k])
  {
    assert forall i | 0 <= i < |ks| :: ks[i] in ks;
  }

  lemma ScanEnds(v: View, w: View, keys: seq<nat>, n: nat, now: nat, rto: nat)
    requires Retouched(v, w) && n <= |keys|
    requires forall i, j | 0 <= i < j < |keys| :: keys[i] < keys[j]
    requires forall pn: nat :: pn in keys <==> pn in v
    ensures KeysOf(w, ExpiredOf(v, keys[..n], now, rto))
    ensures n == |keys| ==>
              forall pn :: pn in ExpiredOf(v, keys[..n], now, rto) <==> pn in v && Expired(v[pn], now, rto)
    ensures n == |keys| ==>
              TouchedIn(v, keys[..n], now, rto) == TouchedIn(v, ExpiredOf(v, keys[..n], now, rto), now, rto)
  {
    hide Expired, ExpiredOf;
    ExpiredKeys(v, keys[..n], now, rto);
    assert n == |keys| ==> keys[..n] == keys;
  }

  /** The keys below a bound, taken from the ascending list of all keys. */
  lemma PrefixKeys(v: View, keys: seq<nat>, n: nat, bound: nat)
    requires forall i, j | 0 <= i < j < |keys| :: keys[i] < keys[j]
    requires forall pn: nat :: pn in keys <==> pn in v
    requires n <= |keys| && (forall i | 0 <= i < n :: keys[i] < bound) && (n < |keys| ==> bound <= keys[n])
    ensures KeysOf(v, keys[..n]) && Only(v, keys[..n]) == Between(v, 0, bound)
    ensures Without(v, keys[..n]) == Beyond(v, 0, bound)
  {
    forall pn: nat | pn in v ensures pn in keys[..n] <==> pn < bound {
      PrefixMember(keys, n, bound, pn);
    }
    SplitAt(v, keys[..n], bound);
  }

  lemma PrefixMember(keys: seq<nat>, n: nat, bound: nat, pn: nat)
    requires forall i, j | 0 <= i < j < |keys| :: keys[i] < keys[j]
    requires n <= |keys| && (forall i | 0 <= i < n :: keys[i] < bound) && (n < |keys| ==> bound <= keys[n])
    requires pn in keys
    ensures pn in keys[..n] <==> pn < bound
  {
    var i :| 0 <= i < |keys| && keys[i] == pn;
    if pn < bound {
      assert i < n;
      assert keys[..n][i] == pn;
    }
  }

  lemma SplitAt(v: View, ks: seq<nat>, bound: nat)
    requires forall pn: nat | pn in v :: pn in ks <==> pn < bound
    ensures Only(v, ks) == Between(v, 0, bound) && Without(v, ks) == Beyond(v, 0, bound)
  {
  }

  lemma QueueNoProbe(x: Queued, q: seq<Queued>)
    requires NoProbeQueued(q) && !x.payload.MtuProbe?
    ensures NoProbeQueued([x] + q)
  {
  }

  ghost predicate NoProbeQueued(q: seq<Queued>) {
    forall x | x in q :: !x.payload.MtuProbe?
  }

  /** The packets an ACK takes as delivered. */
  ghost function Acknowledged(v: View, a: Ack): View { With(v, a, Ranged) + With(v, a, Horizon) }

  lemma LostReliable(v: View, lost: seq<nat>)
    requires KeysOf(v, lost)
    ensures NoProbeQueued(ResendOf(v, lost)) && WaitingDatagrams(ResendOf(v, lost)) == multiset{}
  {
    ResendReliable(v, lost);
  }

  /** What the queue and the flight held before an ACK is what they hold after it, plus what is to be
      sent again, plus what was acknowledged. */
  lemma AckBalance(queue: multiset<Payload>, v: View, a: Ack, lost: seq<nat>)
    requires KeysOf(v, lost) && Only(v, lost) == With(v, a, Lost)
    ensures queue + Outstanding(v)
         == (queue + Outstanding(With(v, a, Kept))) + Waiting(ResendOf(v, lost)) + Outstanding(Acknowledged(v, a))
  {
    hide With, Outstanding, Waiting, ResendOf, Only;
    FatesAddUp(v, a);
    AcknowledgedSum(v, a);
    ResendIsOutstanding(v, lost);
  }

  lemma AcknowledgedSum(v: View, a: Ack)
    ensures Outstanding(Acknowledged(v, a)) == Outstanding(With(v, a, Ranged)) + Outstanding(With(v, a, Horizon))
  {
    hide FateOf, Outstanding;
    SplitSums(Acknowledged(v, a), With(v, a, Ranged), With(v, a, Horizon));
  }

  lemma CustodyShifts(x: multiset<Payload>, a: multiset<Payload>, b: multiset<Payload>)
    ensures (x + a) + b == a + (x + b) && (x + a) + b == a + (b + x)
  {
  }

  /** The payloads that left, followed by those still queued. */
  ghost function InOrder(wire: seq<WireEntry>, q: seq<Queued>): seq<Payload> {
    seq(|wire|, i requires 0 <= i < |wire| => wire[i].payload) + seq(|q|, i requires 0 <= i < |q| => q[i].payload)
  }

  lemma OrderShifts(wire: seq<WireEntry>, q: seq<Queued>, pn: nat)
    requires q != []
    ensures InOrder(wire + [WireEntry(pn, q[0].payload)], q[1..]) == InOrder(wire, q)
  {
  }

  lemma SameOrder(q: seq<Queued>, x: Queued)
    requires q != [] && x.payload == q[0].payload
    ensures forall w :: InOrder(w, [x] + q[1..]) == InOrder(w, q)
  {
  }

  lemma ReliableOnly(d: multiset<Payload>, p: Payload)
    requires p.Reliable()
    ensures d + IfDatagram(p) == d && IfReliable(p) == multiset{p}
  {
  }

  lemma NothingAdded(a: multiset<Payload>, b: multiset<Payload>)
    ensures multiset{} + a == a && b + multiset{} == b
  {
  }

  lemma RetouchedKeeps(v: View, w: View, probes: map<nat, nat>, bound: nat)
    requires Retouched(v, w) && Probed(v, probes) && forall pn | pn in v :: pn < bound
    ensures Probed(w, probes) && forall pn | pn in w :: pn < bound
  {
  }

  lemma WithoutKeeps(v: View, ks: seq<nat>, bound: nat)
    requires forall pn | pn in v :: pn < bound
    ensures forall pn | pn in Without(v, ks) :: pn < bound
  {
  }

  lemma DropBalance(queue: multiset<Payload>, v: View, ks: seq<nat>)
    requires KeysOf(v, ks)
    ensures queue + Outstanding(v) == (queue + Outstanding(Without(v, ks))) + Waiting(ResendOf(v, ks))
  {
    hide Outstanding, Waiting, ResendOf, Only, Without, Split;
    OnlySplits(v, ks);
    SplitSums(v, Without(v, ks), Only(v, ks));
    ResendIsOutstanding(v, ks);
  }

  lemma EmptyQueue()
    ensures Waiting([]) == multiset{} && WaitingDatagrams([]) == multiset{}
  {
  }

  lemma WireNext(wire: seq<WireEntry>, e: WireEntry)
    ensures WireDatagrams(wire + [e]) == WireDatagrams(wire) + IfDatagram(e.payload)
  {
    assert (wire + [e])[..|wire|] == wire;
  }

  lemma CustodyMoves(a: multiset<Payload>, b: multiset<Payload>, x: multiset<Payload>)
    ensures a + (x + b) == a + b + x && (x + b) + a == b + a + x && a + (b + x) == a + b + x && (a + x) + b == a + b + x
  {
  }

  lemma ResendAgrees(v: View, w: View, a: Ack, lost: seq<nat>)
    requires w == Beyond(Outside(v, a.ranges), 0, OldestTracked(a.largest)) && KeysOf(w, lost)
    ensures forall k | k in lost :: k in v && k in w
    ensures ResendOf(w, lost) == ResendOf(v, lost)
  {
    hide InRanges;
    ResendSame(v, w, lost);
  }

  lemma KeptNumbers(v: View, a: Ack, bound: nat)
    requires forall pn | pn in v :: pn < bound
    ensures forall pn | pn in With(v, a, Kept) :: pn < bound
  {
  }

  lemma NothingToResend(v: View)
    ensures ResendOf(v, []) == []
  {
  }

  lemma ReplayLost(p: Pmtud.Path, log: seq<Pmtud.Event>, size: nat)
    ensures Replay(p, log + [Pmtud.Lost(size)]) == Pmtud.ProbeLost(Replay(p, log), size)
  {
    assert (log + [Pmtud.Lost(size)])[..|log|] == log;
  }

  lemma ProbeInMore(v: View, pn: nat, up: Packet, size: nat)
    requires pn !in v
    ensures ProbeIn(v[pn := up], size) <==> ProbeIn(v, size) || up.payload == MtuProbe(size)
  {
    var w := v[pn := up];
    if ProbeIn(v, size) {
      var x :| x in v && v[x].payload == MtuProbe(size);
      assert x in w && w[x].payload == MtuProbe(size);
    }
    if up.payload == MtuProbe(size) { assert pn in w && w[pn].payload == MtuProbe(size); }
  }

  lemma SameProbes(v: View, log: seq<Pmtud.Event>, pn: nat, up: Packet)
    requires LostProbes(v, log) && pn !in v && !up.payload.MtuProbe?
    ensures LostProbes(v[pn := up], log)
  {
    hide ProbeIn;
    forall size: nat ensures ProbeIn(v[pn := up], size) <==> ProbeIn(v, size) { ProbeInMore(v, pn, up, size); }
  }

  lemma LostProbe(v: View, log: seq<Pmtud.Event>, pn: nat, up: Packet, size: nat)
    requires LostProbes(v, log) && pn !in v && up.payload == MtuProbe(size)
    ensures LostProbes(v[pn := up], log + [Pmtud.Lost(size)])
  {
    hide ProbeIn;
    forall x: nat ensures ProbeIn(v[pn := up], x) <==> ProbeIn(v, x) || x == size { ProbeInMore(v, pn, up, x); }
  }

  lemma InsideNothing(v: View)
    ensures Inside(v, []) == map[] && Outside(v, []) == v
  {
  }

  lemma NothingYet(p: Pmtud.Path)
    ensures AckedProbes(map[], []) && LostProbes(map[], []) && Replay(p, []) == p && InFlight(map[]) == 0
  {
  }

  lemma {:induction false} ReplayConcat(p: Pmtud.Path, a: seq<Pmtud.Event>, b: seq<Pmtud.Event>)
    ensures Replay(p, a + b) == Replay(Replay(p, a), b)
    decreases |b|
  {
    if b == [] {
      assert a + b == a;
    } else {
      ReplayConcat(p, a, b[..|b| - 1]);
      assert (a + b)[..|a + b| - 1] == a + b[..|b| - 1];
    }
  }

  lemma MoreProbes(v: View, a: View, b: View, log: seq<Pmtud.Event>, more: seq<Pmtud.Event>)
    requires Split(v, a, b) && AckedProbes(a, log) && AckedProbes(b, more)
    ensures AckedProbes(v, log + more)
  {
    hide ProbeIn, Split;
    forall size: nat ensures ProbeIn(v, size) <==> ProbeIn(a, size) || ProbeIn(b, size) { ProbeInParts(v, a, b, size); }
  }

  lemma ProbeInParts(v: View, a: View, b: View, size: nat)
    requires Split(v, a, b)
    ensures ProbeIn(v, size) <==> ProbeIn(a, size) || ProbeIn(b, size)
  {
    if ProbeIn(v, size) {
      var x :| x in v && v[x].payload == MtuProbe(size);
      assert (x in a && a[x] == v[x]) || (x in b && b[x] == v[x]);
    }
    if ProbeIn(a, size) {
      var x :| x in a && a[x].payload == MtuProbe(size);
      assert x in v && v[x] == a[x];
    }
    if ProbeIn(b, size) {
      var x :| x in b && b[x].payload == MtuProbe(size);
      assert x in v && v[x] == b[x];
    }
  }

  /** Every tracked probe is registered. */
  ghost predicate Probed(v: View, probes: map<nat, nat>) {
    forall pn | pn in v :: v[pn].payload.MtuProbe? ==> pn in probes
  }

  lemma ProbedMore(v: View, probes: map<nat, nat>, pn: nat, p: Packet, target: nat)
    requires Probed(v, probes)
    ensures Probed(v[pn := p], probes[pn := target])
  {
  }

  lemma ProbedLess(v: View, probes: map<nat, nat>, pn: nat)
    requires Probed(v, probes)
    ensures Probed(v - {pn}, probes) && Probed(v - {pn}, probes - {pn})
  {
  }

  lemma ProbedAt(v: View, probes: map<nat, nat>, pn: nat)
    requires Probed(v, probes)
    ensures pn in v && v[pn].payload.MtuProbe? ==> pn in probes
  {
  }

  lemma TakenProbes(v: View, log: seq<Pmtud.Event>, pn: nat, up: Packet, log': seq<Pmtud.Event>)
    requires AckedProbes(v, log) && pn !in v
    requires log' == if up.payload.MtuProbe? then log + [Pmtud.Acked(up.payload.targetSize)] else log
    ensures AckedProbes(v[pn := up], log')
  {
    hide ProbeIn;
    forall size: nat ensures ProbeIn(v[pn := up], size) <==> ProbeIn(v, size) || up.payload == MtuProbe(size) {
      ProbeInMore(v, pn, up, size);
    }
  }

  lemma InWindow(w: UnackedWindow)
    ensures forall pn | pn in w.View() :: w.basePn <= pn < w.basePn + |w.deque|
  {
    forall pn | pn in w.View() ensures w.basePn <= pn < w.basePn + |w.deque| {
      TrackedSlot(w.basePn, w.deque, pn);
    }
  }
}
