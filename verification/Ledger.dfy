/** Sums and multisets over tracked packets and queued payloads. */
module Ledger {
  import opened Primitives
  import opened Unacked

  type View = map<nat, Packet>

  /** A payload waiting in the pacing queue. */
  datatype Queued = Queued(payload: Payload, retries: nat)

  /** Bytes in flight: the sent sizes of all tracked packets. */
  ghost function InFlight(v: View): nat {
    if v == map[] then 0 else var k :| k in v; v[k].sentBytes + InFlight(v - {k})
  }

  /** `p` alone if it must be delivered reliably, nothing otherwise. */
  ghost function IfReliable(p: Payload): multiset<Payload> {
    if p.Reliable() then multiset{p} else multiset{}
  }

  ghost function IfDatagram(p: Payload): multiset<Payload> {
    if p.Datagram? then multiset{p} else multiset{}
  }

  /** The reliable payloads of all tracked packets. */
  ghost function Outstanding(v: View): multiset<Payload> {
    if v == map[] then multiset{} else var k :| k in v; IfReliable(v[k].payload) + Outstanding(v - {k})
  }

  ghost function Waiting(q: seq<Queued>): multiset<Payload> {
    if q == [] then multiset{} else IfReliable(q[0].payload) + Waiting(q[1..])
  }

  ghost function WaitingDatagrams(q: seq<Queued>): multiset<Payload> {
    if q == [] then multiset{} else IfDatagram(q[0].payload) + WaitingDatagrams(q[1..])
  }

  ghost function QueueLen(q: seq<Queued>): nat {
    if q == [] then 0 else q[0].payload.Len() + QueueLen(q[1..])
  }

  // ---------- one packet more or less ----------

  lemma {:induction false} InFlightWithout(v: View, pn: nat)
    requires pn in v
    ensures InFlight(v) == v[pn].sentBytes + InFlight(v - {pn})
    decreases v.Keys
  {
    var k :| k in v && InFlight(v) == v[k].sentBytes + InFlight(v - {k});
    if k != pn {
      InFlightWithout(v - {k}, pn);
      InFlightWithout(v - {pn}, k);
      assert v - {k} - {pn} == v - {pn} - {k};
    }
  }

  lemma {:induction false} OutstandingWithout(v: View, pn: nat)
    requires pn in v
    ensures Outstanding(v) == IfReliable(v[pn].payload) + Outstanding(v - {pn})
    decreases v.Keys
  {
    hide IfReliable;
    var k :| k in v && Outstanding(v) == IfReliable(v[k].payload) + Outstanding(v - {k});
    if k != pn {
      OutstandingWithout(v - {k}, pn);
      OutstandingWithout(v - {pn}, k);
      assert v - {k} - {pn} == v - {pn} - {k};
      Swap(IfReliable(v[k].payload), IfReliable(v[pn].payload), Outstanding(v - {k} - {pn}));
    }
  }

  lemma Swap(a: multiset<Payload>, b: multiset<Payload>, c: multiset<Payload>)
    ensures a + (b + c) == b + (a + c)
  {
  }

  lemma TrackOne(v: View, pn: nat, p: Packet)
    requires pn !in v
    ensures InFlight(v[pn := p]) == p.sentBytes + InFlight(v)
    ensures Outstanding(v[pn := p]) == IfReliable(p.payload) + Outstanding(v)
  {
    hide InFlight, Outstanding, IfReliable;
    InFlightWithout(v[pn := p], pn);
    OutstandingWithout(v[pn := p], pn);
    assert v[pn := p] - {pn} == v;
  }

  /** Changing only the send time and retry count of a packet changes neither sum. */
  lemma RetouchOne(v: View, pn: nat, p: Packet)
    requires pn in v && p.payload == v[pn].payload && p.sentBytes == v[pn].sentBytes
    ensures InFlight(v[pn := p]) == InFlight(v) && Outstanding(v[pn := p]) == Outstanding(v)
  {
    hide InFlight, Outstanding, IfReliable;
    InFlightWithout(v, pn);
    OutstandingWithout(v, pn);
    TrackOne(v - {pn}, pn, p);
    assert (v - {pn})[pn := p] == v[pn := p];
  }

  lemma {:induction false} QueueBack(q: seq<Queued>, x: Queued)
    ensures Waiting(q + [x]) == Waiting(q) + IfReliable(x.payload)
    ensures WaitingDatagrams(q + [x]) == WaitingDatagrams(q) + IfDatagram(x.payload)
    ensures QueueLen(q + [x]) == QueueLen(q) + x.payload.Len()
  {
    hide IfReliable, IfDatagram;
    if q == [] {
      assert q + [x] == [x] && [x][1..] == [];
    } else {
      QueueBack(q[1..], x);
      assert (q + [x])[1..] == q[1..] + [x];
    }
  }

  lemma QueueFront(x: Queued, q: seq<Queued>)
    ensures Waiting([x] + q) == IfReliable(x.payload) + Waiting(q)
    ensures WaitingDatagrams([x] + q) == IfDatagram(x.payload) + WaitingDatagrams(q)
    ensures QueueLen([x] + q) == x.payload.Len() + QueueLen(q)
  {
    hide IfReliable, IfDatagram;
    assert ([x] + q)[1..] == q;
  }
}
