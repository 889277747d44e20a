/** What an acknowledgement does to each tracked packet. */
module AckFate {
  import opened Primitives
  import opened AckRanges
  import opened Unacked
  import opened Ledger

  /** An ACK frame with the receive time and the loss-time threshold in force. */
  datatype Ack = Ack(largest: nat, ranges: seq<AckRange>, now: nat, threshold: nat)

  /** Acknowledged by a range, below the 2048-packet horizon, declared lost, or still waiting. */
  datatype Fate = Ranged | Horizon | Lost | Kept

  ghost predicate InRanges(rs: seq<AckRange>, pn: nat) {
    rs != [] && (InRanges(rs[..|rs| - 1], pn) || rs[|rs| - 1].start <= pn <= rs[|rs| - 1].end)
  }

  lemma {:induction false} InRangesIs(rs: seq<AckRange>, pn: nat)
    ensures InRanges(rs, pn) <==> exists r :: r in rs && r.start <= pn <= r.end
    decreases |rs|
  {
    if rs != [] {
      var init, last := rs[..|rs| - 1], rs[|rs| - 1];
      InRangesIs(init, pn);
      assert rs == init + [last];
    }
  }

  /** The frame names only numbers that were sent, and its ranges are ordered and below its largest. */
  predicate Plausible(a: Ack, next: nat) {
    a.largest < next && forall r | r in a.ranges :: r.start <= r.end <= a.largest
  }

  /** Lowest number the peer's 2048-packet window can still report. */
  function OldestTracked(largest: nat): nat { SaturatingSub(largest, 2047) }

  predicate DeclaredLost(a: Ack, pn: nat, p: Packet) {
    pn < a.largest && (pn + 3 <= a.largest || SaturatingSub(a.now, p.sentAt) > a.threshold)
  }

  lemma DeclaredExactly(a: Ack, pn: nat, p: Packet)
    ensures DeclaredLost(a, pn, p) <==> pn < a.largest && (pn + 3 <= a.largest || a.now > p.sentAt + a.threshold)
  {
  }

  ghost function FateOf(a: Ack, pn: nat, p: Packet): Fate {
    if InRanges(a.ranges, pn) then Ranged
    else if pn < OldestTracked(a.largest) then Horizon
    else if DeclaredLost(a, pn, p) then Lost
    else Kept
  }

  /** What decides each fate, on the frame and the packet alone. */
  lemma FateExactly(a: Ack, pn: nat, p: Packet)
    ensures var ranged := exists r :: r in a.ranges && r.start <= pn <= r.end;
            var fate := FateOf(a, pn, p);
            && (fate == Ranged <==> ranged)
            && (fate == Horizon <==> !ranged && pn + 2047 < a.largest)
            && (fate == Lost <==>
                  && !ranged && pn < a.largest <= pn + 2047
                  && (a.largest >= pn + 3 || a.now > p.sentAt + a.threshold))
            && (fate == Kept <==>
                  && !ranged && a.largest <= pn + 2047
                  && (pn < a.largest ==> a.largest < pn + 3 && a.now <= p.sentAt + a.threshold))
  {
    hide InRanges;
    InRangesIs(a.ranges, pn);
  }

  /** The tracked packets with the given fate. */
  ghost function With(v: View, a: Ack, f: Fate): View {
    map pn | pn in v && FateOf(a, pn, v[pn]) == f :: v[pn]
  }

  /** `v` is the disjoint union of `kept` and `taken`. */
  ghost predicate Split(v: View, kept: View, taken: View) {
    kept.Keys !! taken.Keys && v == kept + taken
  }

  lemma {:induction false} SplitSums(v: View, kept: View, taken: View)
    requires Split(v, kept, taken)
    ensures InFlight(v) == InFlight(kept) + InFlight(taken)
    ensures Outstanding(v) == Outstanding(kept) + Outstanding(taken)
    decreases taken.Keys
  {
    hide IfReliable;
    if taken == map[] {
      assert v == kept;
    } else {
      var k :| k in taken;
      SplitSums(v - {k}, kept, taken - {k});
      InFlightWithout(v, k);
      OutstandingWithout(v, k);
      InFlightWithout(taken, k);
      OutstandingWithout(taken, k);
      Swap(IfReliable(v[k].payload), Outstanding(kept), Outstanding(taken - {k}));
    }
  }

  // ---------- removing numbers in ascending order ----------

  /** The packets of `v` with numbers in `[lo, hi)`. */
  ghost function Between(v: View, lo: nat, hi: nat): View {
    map pn | pn in v && lo <= pn < hi :: v[pn]
  }

  /** The packets of `v` with numbers outside `[lo, hi)`. */
  ghost function Beyond(v: View, lo: nat, hi: nat): View {
    map pn | pn in v && !(lo <= pn < hi) :: v[pn]
  }

  lemma BetweenNext(v: View, lo: nat, pn: nat)
    requires lo <= pn
    ensures pn in Beyond(v, lo, pn) <==> pn in v
    ensures pn in v ==> Beyond(v, lo, pn)[pn] == v[pn]
    ensures Beyond(v, lo, pn + 1) == Beyond(v, lo, pn) - {pn}
    ensures Between(v, lo, pn + 1) == if pn in v then Between(v, lo, pn)[pn := v[pn]] else Between(v, lo, pn)
    ensures pn !in Between(v, lo, pn)
  {
  }

  lemma BetweenNothing(v: View, lo: nat)
    ensures Between(v, lo, lo) == map[] && Beyond(v, lo, lo) == v
  {
  }

  /** Numbers outside the tracked span do not matter. */
  lemma BetweenClamped(v: View, lo: nat, hi: nat, lo': nat, hi': nat)
    requires forall pn | pn in v :: lo <= pn < hi <==> lo' <= pn < hi'
    ensures Between(v, lo, hi) == Between(v, lo', hi') && Beyond(v, lo, hi) == Beyond(v, lo', hi')
  {
  }

  /** The packets of `v` that a list of ranges covers, and the others. */
  ghost function Inside(v: View, rs: seq<AckRange>): View {
    map pn | pn in v && InRanges(rs, pn) :: v[pn]
  }

  ghost function Outside(v: View, rs: seq<AckRange>): View {
    map pn | pn in v && !InRanges(rs, pn) :: v[pn]
  }

  lemma InsideNext(v: View, rs: seq<AckRange>, r: AckRange)
    ensures Outside(v, rs + [r]) == Beyond(Outside(v, rs), r.start, r.end + 1)
    ensures Split(Inside(v, rs + [r]), Inside(v, rs), Between(Outside(v, rs), r.start, r.end + 1))
  {
    assert (rs + [r])[..|rs|] == rs;
    forall pn: nat ensures InRanges(rs + [r], pn) <==> InRanges(rs, pn) || r.start <= pn <= r.end {
    }
    hide InRanges;
  }

  // ---------- removing a list of numbers ----------

  ghost function Only(v: View, ks: seq<nat>): View {
    map pn | pn in v && pn in ks :: v[pn]
  }

  ghost function Without(v: View, ks: seq<nat>): View {
    map pn | pn in v && pn !in ks :: v[pn]
  }

  /** Ascending numbers, all of them tracked. */
  ghost predicate KeysOf(v: View, ks: seq<nat>) {
    && (forall i, j | 0 <= i < j < |ks| :: ks[i] < ks[j])
    && (forall i | 0 <= i < |ks| :: ks[i] in v)
  }

  lemma OnlyNext(v: View, ks: seq<nat>, i: nat)
    requires KeysOf(v, ks) && i < |ks|
    ensures ks[i] in Without(v, ks[..i]) && ks[i] !in Only(v, ks[..i])
    ensures Without(v, ks[..i])[ks[i]] == v[ks[i]]
    ensures Without(v, ks[..i + 1]) == Without(v, ks[..i]) - {ks[i]}
    ensures Only(v, ks[..i + 1]) == Only(v, ks[..i])[ks[i] := v[ks[i]]]
  {
    assert ks[..i + 1] == ks[..i] + [ks[i]];
  }

  lemma OnlyNothing(v: View)
    ensures Only(v, []) == map[] && Without(v, []) == v
  {
  }

  lemma OnlySplits(v: View, ks: seq<nat>)
    ensures Split(v, Without(v, ks), Only(v, ks))
  {
  }

  /** The reliable payloads among the listed packets, in order, with their retry counts. */
  ghost function ResendOf(v: View, ks: seq<nat>): seq<Queued>
    requires forall k | k in ks :: k in v
  {
    if ks == [] then []
    else
      var p := v[ks[|ks| - 1]];
      ResendOf(v, ks[..|ks| - 1]) + (if p.payload.Reliable() then [Queued(p.payload, p.retries)] else [])
  }

  /** What is sent again is exactly what the lost packets carried. */
  lemma {:induction false} ResendIsOutstanding(v: View, ks: seq<nat>)
    requires KeysOf(v, ks)
    ensures Waiting(ResendOf(v, ks)) == Outstanding(Only(v, ks))
    decreases |ks|
  {
    if ks == [] {
      OnlyNothing(v);
    } else {
      hide Only, Without, Outstanding, Waiting, InFlight;
      var init, k := ks[..|ks| - 1], ks[|ks| - 1];
      assert KeysOf(v, init);
      var xs := ResendOf(v, init);
      assert xs + [] == xs;
      ResendIsOutstanding(v, init);
      OnlyNext(v, ks, |ks| - 1);
      assert ks[..|ks|] == ks;
      TrackOne(Only(v, init), k, v[k]);
      QueueBack(xs, Queued(v[k].payload, v[k].retries));
    }
  }

  lemma {:induction false} ResendReliable(v: View, ks: seq<nat>)
    requires forall k | k in ks :: k in v
    ensures forall x | x in ResendOf(v, ks) :: x.payload.Reliable()
    ensures WaitingDatagrams(ResendOf(v, ks)) == multiset{}
    decreases |ks|
  {
    if ks != [] {
      var init, p := ks[..|ks| - 1], v[ks[|ks| - 1]];
      ResendReliable(v, init);
      var xs := ResendOf(v, init);
      if p.payload.Reliable() { QueueBack(xs, Queued(p.payload, p.retries)); } else { assert xs + [] == xs; }
    }
  }

  lemma ResendNext(v: View, ks: seq<nat>, i: nat)
    requires KeysOf(v, ks) && i < |ks|
    ensures ResendOf(v, ks[..i + 1])
         == ResendOf(v, ks[..i])
            + (if v[ks[i]].payload.Reliable() then [Queued(v[ks[i]].payload, v[ks[i]].retries)] else [])
  {
    assert ks[..i + 1][..i] == ks[..i];
  }

  // ---------- the three phases of an acknowledgement ----------

  /** Removing what the ranges cover and then what lies below the horizon. */
  lemma RangedThenHorizon(v: View, a: Ack)
    ensures Inside(v, a.ranges) == With(v, a, Ranged)
    ensures Between(Outside(v, a.ranges), 0, OldestTracked(a.largest)) == With(v, a, Horizon)
    ensures Split(v, Outside(v, a.ranges), With(v, a, Ranged))
    ensures Split(Outside(v, a.ranges), Beyond(Outside(v, a.ranges), 0, OldestTracked(a.largest)), With(v, a, Horizon))
  {
    hide InRanges, DeclaredLost;
  }

  /** Removing the lost packets from what the first two phases left keeps exactly the rest. */
  lemma LostPhase(v: View, a: Ack, lost: seq<nat>)
    requires var w := Beyond(Outside(v, a.ranges), 0, OldestTracked(a.largest));
             KeysOf(w, lost) && forall pn :: pn in lost <==> pn in w && DeclaredLost(a, pn, w[pn])
    ensures var w := Beyond(Outside(v, a.ranges), 0, OldestTracked(a.largest));
            && KeysOf(v, lost) && Only(w, lost) == Only(v, lost) == With(v, a, Lost)
            && Without(w, lost) == With(v, a, Kept)
  {
    hide InRanges, DeclaredLost;
  }

  lemma {:induction false} ResendSame(v: View, w: View, ks: seq<nat>)
    requires forall k | k in ks :: k in v && k in w && v[k] == w[k]
    ensures ResendOf(v, ks) == ResendOf(w, ks)
    decreases |ks|
  {
    if ks != [] { ResendSame(v, w, ks[..|ks| - 1]); }
  }

  lemma FatesSplit(v: View, a: Ack)
    ensures var rest := v - With(v, a, Ranged).Keys;
            var late := rest - With(v, a, Horizon).Keys;
            && Split(v, rest, With(v, a, Ranged)) && Split(rest, late, With(v, a, Horizon))
            && Split(late, With(v, a, Kept), With(v, a, Lost))
  {
    hide FateOf;
  }

  /** Every tracked packet has exactly one fate, so the payloads add up. */
  lemma FatesAddUp(v: View, a: Ack)
    ensures InFlight(v) == InFlight(With(v, a, Ranged)) + InFlight(With(v, a, Horizon))
                         + InFlight(With(v, a, Lost)) + InFlight(With(v, a, Kept))
    ensures Outstanding(v) == Outstanding(With(v, a, Ranged)) + Outstanding(With(v, a, Horizon))
                            + Outstanding(With(v, a, Lost)) + Outstanding(With(v, a, Kept))
  {
    hide With, Split, InFlight, Outstanding;
    FatesSplit(v, a);
    var rest := v - With(v, a, Ranged).Keys;
    var late := rest - With(v, a, Horizon).Keys;
    SplitSums(v, rest, With(v, a, Ranged));
    SplitSums(rest, late, With(v, a, Horizon));
    SplitSums(late, With(v, a, Kept), With(v, a, Lost));
  }

  /** A packet that survives an ACK is in no acknowledged range and fewer than 3 below the largest. */
  /** A packet stays exactly when no range covers it, it is at most 2047 below the largest number and,
      if below it at all, less than three below and not older than the threshold. */
  lemma KeptExactly(v: View, a: Ack, pn: nat)
    ensures pn in With(v, a, Kept) <==>
              && pn in v && (forall r | r in a.ranges :: !(r.start <= pn <= r.end)) && a.largest <= pn + 2047
              && (pn < a.largest ==> a.largest < pn + 3 && a.now <= v[pn].sentAt + a.threshold)
  {
    hide FateOf;
    if pn in v { FateExactly(a, pn, v[pn]); }
  }

  lemma AllKeptExactly(v: View, a: Ack)
    ensures var w := With(v, a, Kept);
            && (forall pn | pn in w ::
                  && (forall r | r in a.ranges :: !(r.start <= pn <= r.end)) && a.largest <= pn + 2047
                  && (pn < a.largest ==> a.largest < pn + 3 && a.now <= w[pn].sentAt + a.threshold))
            && (forall pn | pn in v && pn !in w ::
                  || (exists r :: r in a.ranges && r.start <= pn <= r.end) || a.largest > pn + 2047
                  || (pn < a.largest && (a.largest >= pn + 3 || a.now > v[pn].sentAt + a.threshold)))
  {
    hide FateOf;
    forall pn | pn in v
      ensures pn in With(v, a, Kept) <==>
                && (forall r | r in a.ranges :: !(r.start <= pn <= r.end)) && a.largest <= pn + 2047
                && (pn < a.largest ==> a.largest < pn + 3 && a.now <= v[pn].sentAt + a.threshold)
    {
      KeptExactly(v, a, pn);
    }
  }
}
