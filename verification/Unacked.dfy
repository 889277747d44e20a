/** Payloads, sent packets, and the ring buffer of packets that wait for an acknowledgement. */
module Unacked {
  import opened Primitives

  datatype Payload =
    | Stream(streamId: nat, offset: nat, data: seq<byte>)
    | MtuProbe(targetSize: nat)
    | StreamClose(streamId: nat, finalSize: nat)
    | MaxStreamData(streamId: nat, maxData: nat)
    | ResetStream(streamId: nat, errorCode: nat, finalSize: nat)
    | Close
    | ConnectionCloseV2(errorCode: nat, reason: seq<byte>)
    | Datagram(data: seq<byte>)
  {
    /** The length that counts for pacing and congestion control. */
    function Len(): nat {
      match this
      case Stream(_, _, data) => |data|
      case Datagram(data) => |data|
      case MtuProbe(targetSize) => targetSize
      case _ => 0
    }

    /** Lost datagrams and probes are not sent again; everything else is. */
    predicate Reliable() { !Datagram? && !MtuProbe? }
  }

  datatype Packet = Packet(payload: Payload, sentAt: nat, retries: nat, sentBytes: nat)

  /** The packets a deque tracks, its front slot standing for number `base`. */
  ghost function Tracked(base: nat, deque: seq<Option<Packet>>): map<nat, Packet> {
    var span := Interval(base, base + |deque|);
    map pn | pn in span && deque[pn - base].Some? :: deque[pn - base].value
  }

  lemma DropEmptyFront(base: nat, deque: seq<Option<Packet>>)
    requires deque != [] && deque[0].None?
    ensures Tracked(base + 1, deque[1..]) == Tracked(base, deque)
  {
  }

  lemma FillSlot(base: nat, deque: seq<Option<Packet>>, pn: nat, packet: Packet)
    requires base <= pn < base + |deque|
    ensures Tracked(base, deque[pn - base := Some(packet)]) == Tracked(base, deque)[pn := packet]
  {
  }

  lemma EmptySlot(base: nat, deque: seq<Option<Packet>>, pn: nat)
    requires base <= pn < base + |deque|
    ensures Tracked(base, deque[pn - base := None]) == Tracked(base, deque) - {pn}
  {
  }

  lemma GrowDeque(base: nat, deque: seq<Option<Packet>>, more: seq<Option<Packet>>)
    requires forall i | 0 <= i < |more| :: more[i].None?
    ensures Tracked(base, deque + more) == Tracked(base, deque)
  {
  }

  lemma TrackedSlot(base: nat, deque: seq<Option<Packet>>, pn: nat)
    ensures pn in Tracked(base, deque) <==> base <= pn < base + |deque| && deque[pn - base].Some?
    ensures pn in Tracked(base, deque) ==> Tracked(base, deque)[pn] == deque[pn - base].value
  {
  }

  class UnackedWindow {
    var basePn: nat
    var deque: seq<Option<Packet>>
    var len: nat

    /** The front slot is occupied, and `len` counts the occupied slots. */
    ghost predicate Valid()
      reads this
    {
      && (deque != [] ==> deque[0].Some?)
      && len == |View()|
    }

    ghost function View(): map<nat, Packet>
      reads this
    {
      Tracked(basePn, deque)
    }

    constructor ()
      ensures Valid() && View() == map[]
    {
      basePn, deque, len := 0, [], 0;
    }

    /** Under numbers that only grow, inserting is a map update. A number below the base is ignored. */
    method Insert(pn: nat, packet: Packet)
      requires Valid()
      modifies this
      ensures Valid()
      ensures View() == if old(deque) == [] || old(basePn) <= pn then old(View())[pn := packet] else old(View())
    {
      hide Tracked;
      EmptyDeque(basePn);
      EmptyDeque(pn);
      if len == 0 && deque == [] {
        basePn := pn;
      }
      if pn < basePn {
        return;
      }
      var idx := pn - basePn;
      if idx >= |deque| {
        var more := seq(idx + 1 - |deque|, _ => None);
        GrowDeque(basePn, deque, more);
        deque := deque + more;
      }
      TrackedSlot(basePn, deque, pn);
      if deque[idx].None? {
        len := len + 1;
      }
      FillSlot(basePn, deque, pn, packet);
      CountUpdate(View(), pn, packet);
      deque := deque[idx := Some(packet)];
    }

    /** Removes one packet and then pops the emptied front slots. */
    method Remove(pn: nat) returns (removed: Option<Packet>)
      requires Valid()
      modifies this
      ensures Valid()
      ensures View() == old(View()) - {pn}
      ensures removed == if pn in old(View()) then Some(old(View())[pn]) else None
      ensures basePn >= old(basePn) && basePn + |deque| == old(basePn + |deque|)
    {
      hide Tracked;
      TrackedSlot(basePn, deque, pn);
      CountRemove(View(), pn);
      if pn < basePn || pn - basePn >= |deque| {
        return None;
      }
      var idx := pn - basePn;
      EmptySlot(basePn, deque, pn);
      removed := deque[idx];
      deque := deque[idx := None];
      if removed.Some? {
        len := len - 1;
      }
      while deque != [] && deque[0].None?
        invariant View() == old(View()) - {pn} && len == |View()|
        invariant basePn >= old(basePn) && basePn + |deque| == old(basePn + |deque|)
        decreases |deque|
      {
        DropEmptyFront(basePn, deque);
        deque := deque[1..];
        basePn := basePn + 1;
      }
    }

    function Get(pn: nat): (p: Packet)
      requires pn in View()
      reads this
      ensures p == View()[pn]
    {
      TrackedSlot(basePn, deque, pn);
      deque[pn - basePn].value
    }

    /** Changes a tracked packet in place. */
    method Replace(pn: nat, packet: Packet)
      requires Valid() && pn in View()
      modifies this`deque
      ensures Valid() && View() == old(View())[pn := packet] && |deque| == old(|deque|)
    {
      hide Tracked;
      TrackedSlot(basePn, deque, pn);
      FillSlot(basePn, deque, pn, packet);
      CountUpdate(View(), pn, packet);
      deque := deque[pn - basePn := Some(packet)];
    }

    method Clear()
      modifies this
      ensures Valid() && View() == map[]
    {
      basePn, deque, len := 0, [], 0;
    }

    /** The tracked numbers in ascending order. */
    method Keys() returns (keys: seq<nat>)
      ensures forall i, j | 0 <= i < j < |keys| :: keys[i] < keys[j]
      ensures forall pn: nat :: pn in keys <==> pn in View()
    {
      hide Tracked;
      keys := [];
      forall pn: nat ensures pn in View() <==> basePn <= pn < basePn + |deque| && deque[pn - basePn].Some? {
        TrackedSlot(basePn, deque, pn);
      }
      for i := 0 to |deque|
        invariant forall a, b | 0 <= a < b < |keys| :: keys[a] < keys[b]
        invariant forall a | 0 <= a < |keys| :: keys[a] < basePn + i
        invariant forall pn: nat :: pn in keys <==> pn in View() && pn < basePn + i
      {
        if deque[i].Some? {
          keys := keys + [basePn + i];
        }
      }
    }
  }

  lemma CountUpdate(v: map<nat, Packet>, pn: nat, p: Packet)
    ensures |v[pn := p]| == if pn in v then |v| else |v| + 1
  {
    assert v[pn := p].Keys == v.Keys + {pn};
  }

  lemma EmptyDeque(base: nat)
    ensures Tracked(base, []) == map[]
  {
  }

  lemma CountRemove(v: map<nat, Packet>, pn: nat)
    ensures |v - {pn}| == if pn in v then |v| - 1 else |v|
    ensures pn !in v ==> v - {pn} == v
  {
    assert (v - {pn}).Keys == v.Keys - {pn};
  }
}
