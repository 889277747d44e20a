/**
 * Acknowledgements between two endpoints over a network that loses, duplicates and reorders: one
 * side sends packets, the other processes them and reports what it processed.
 */
module AckExchange {
  import opened Primitives
  import opened PacketMask
  import opened PacketWindow
  import opened AckRanges
  import opened Unacked
  import opened Ledger
  import opened AckFate
  import opened Wire
  import opened Frames
  import opened FrameCodec

  /** What an ACK frame reports. */
  datatype Report = Report(largest: nat, ranges: seq<AckRange>)

  /**
   * The sender's next number and tracked packets; the receiver's window and what it ever processed;
   * every report ever sent; and the numbers a range has confirmed at the sender.
   */
  datatype State = State(next: nat, tracked: View, window: Window, processed: set<nat>, reports: set<Report>,
                         confirmed: set<nat>)

  /** `SendUntracked` uses up a number without tracking it: an ACK-only packet, or a send that failed. */
  datatype Step =
    | Send(packet: Packet)
    | SendUntracked
    | Arrive(pn: nat)
    | Acknowledge
    | ReceiveReport(report: Report, now: nat, threshold: nat)
    | Expire(pns: set<nat>)

  const START: State := State(0, map[], EMPTY, {}, {}, {})

  ghost function Next(s: State, step: Step): State {
    match step
    case Send(packet) => s.(next := s.next + 1, tracked := s.tracked[s.next := packet])
    case SendUntracked => s.(next := s.next + 1)
    case Arrive(pn) =>
      if pn >= s.next || IsReplay(s.window, pn) then s
      else s.(window := Mark(s.window, pn), processed := s.processed + {pn})
    case Acknowledge =>
      if s.window.highest.None? then s
      else s.(reports := s.reports + {Report(s.window.highest.value, TopRuns(s.window.seen, s.window.highest.value))})
    case ReceiveReport(report, now, threshold) =>
      if report !in s.reports then s
      else
        var a := Ack(report.largest, report.ranges, now, threshold);
        s.(tracked := With(s.tracked, a, Kept), confirmed := s.confirmed + With(s.tracked, a, Ranged).Keys)
    case Expire(pns) => s.(tracked := s.tracked - pns)
  }

  ghost function Run(steps: seq<Step>): State {
    if steps == [] then START else Next(Run(steps[..|steps| - 1]), steps[|steps| - 1])
  }

  /** A report the sender accepts, and every number it names was processed. */
  ghost predicate Truthful(r: Report, next: nat, processed: set<nat>) {
    && r.largest < next && |r.ranges| <= MAX_ACK_RANGES
    && forall i | 0 <= i < |r.ranges| ::
         && r.ranges[i].start <= r.ranges[i].end <= r.largest
         && forall pn: nat | r.ranges[i].start <= pn <= r.ranges[i].end :: pn in processed
  }

  ghost predicate Inv(s: State) {
    && Tracks(s.window, s.processed)
    && (forall pn | pn in s.processed :: pn < s.next)
    && (forall r | r in s.reports :: Truthful(r, s.next, s.processed))
    && s.confirmed <= s.processed
  }

  /** The ranges of an acknowledgement name processed numbers only. */
  lemma TopRunsTruthful(w: Window, processed: set<nat>, next: nat)
    requires Tracks(w, processed) && w.highest.Some? && forall pn | pn in processed :: pn < next
    ensures Truthful(Report(w.highest.value, TopRuns(w.seen, w.highest.value)), next, processed)
  {
    hide Runs;
    var h := w.highest.value;
    RunsAreRuns(w.seen, h);
    var top := TopRuns(w.seen, h);
    forall i | 0 <= i < |top|
      ensures top[i].start <= top[i].end <= h
      ensures forall pn: nat | top[i].start <= pn <= top[i].end :: pn in processed
    {
      assert top[i] == Runs(w.seen, h)[i];
      assert IsRun(w.seen, top[i]);
      forall pn: nat | top[i].start <= pn <= top[i].end ensures pn in processed {
        assert pn in w.seen;
        assert w.seen == Recent(processed, h);
      }
    }
  }

  lemma {:induction false} RangedWasProcessed(rs: seq<AckRange>, largest: nat, next: nat, processed: set<nat>, pn: nat)
    requires InRanges(rs, pn) && Truthful(Report(largest, rs), next, processed)
    ensures pn in processed
    decreases |rs|
  {
    var init, last := rs[..|rs| - 1], rs[|rs| - 1];
    if !(last.start <= pn <= last.end) {
      assert forall i | 0 <= i < |init| :: init[i] == rs[i];
      RangedWasProcessed(init, largest, next, processed, pn);
    }
  }

  lemma NextKeeps(s: State, step: Step)
    requires Inv(s)
    ensures Inv(Next(s, step))
  {
    match step
    case Send(_) =>
    case SendUntracked =>
    case Expire(_) =>
    case Arrive(pn) =>
      MarkTracks(s.window, s.processed, pn);
    case Acknowledge =>
      if s.window.highest.Some? { TopRunsTruthful(s.window, s.processed, s.next); }
    case ReceiveReport(report, now, threshold) =>
      if report in s.reports {
        var a := Ack(report.largest, report.ranges, now, threshold);
        forall pn | pn in With(s.tracked, a, Ranged) ensures pn in s.processed {
          RangedWasProcessed(report.ranges, report.largest, s.next, s.processed, pn);
        }
      }
  }

  /**
   * In every run: each number a range confirmed at the sender was processed by the receiver, and
   * every report that ever arrives passes the sender's plausibility check.
   */
  lemma {:induction false} ConfirmedWasProcessed(steps: seq<Step>)
    ensures var s := Run(steps);
            && s.confirmed <= s.processed
            && (forall r | r in s.reports ::
                  r.largest < s.next && forall x | x in r.ranges :: x.start <= x.end <= r.largest)
    ensures Inv(Run(steps))
  {
    if steps != [] {
      ConfirmedWasProcessed(steps[..|steps| - 1]);
      NextKeeps(Run(steps[..|steps| - 1]), steps[|steps| - 1]);
    }
  }

  /** In every run the sender accepts every report that was ever made, whenever it arrives. */
  lemma ReportsAccepted(steps: seq<Step>, r: Report, now: nat, threshold: nat)
    requires r in Run(steps).reports
    ensures Plausible(Ack(r.largest, r.ranges, now, threshold), Run(steps).next)
  {
    hide Run;
    ConfirmedWasProcessed(steps);
  }

  lemma {:induction false} TruthfulRangesFit(rs: seq<AckRange>, largest: nat)
    requires forall i | 0 <= i < |rs| :: rs[i].start <= rs[i].end <= largest
    requires largest <= U64_MAX
    ensures Ordered(rs)
  {
    if rs != [] {
      assert forall i | 0 <= i < |rs[1..]| :: rs[1..][i] == rs[i + 1];
      TruthfulRangesFit(rs[1..], largest);
    }
  }

  /** In every run, the ACK frame of a report reaches the sender unchanged, unless its delay field is
      2^62 microseconds or more. */
  lemma ReportSurvives(steps: seq<Step>, r: Report, window: nat, delay: nat, tail: seq<byte>)
    requires r in Run(steps).reports && r.largest <= U64_MAX && window < 0x1_0000_0000 && delay <= U64_MAX
    ensures var f := AckFrame(r.largest, window, delay, r.ranges);
            Typed(f) && (DecodeFrame(Put(f, tail)) == Parsed(f, tail) <==> delay < VARINT_LIMIT)
  {
    hide Run, DecodeFrame, Put, Ordered;
    ConfirmedWasProcessed(steps);
    TruthfulRangesFit(r.ranges, r.largest);
    FrameRoundTrip(AckFrame(r.largest, window, delay, r.ranges), tail);
  }

  // ---------- retirement below the horizon ----------

  ghost function Sends(p: Packet, n: nat): seq<Step> { seq(n, _ => Send(p)) }

  lemma RunNext(steps: seq<Step>, step: Step)
    ensures Run(steps + [step]) == Next(Run(steps), step)
  {
    hide Next;
    assert (steps + [step])[..|steps|] == steps;
  }

  lemma {:induction false} SendsState(p: Packet, n: nat)
    ensures var s := Run(Sends(p, n));
            && s == State(n, s.tracked, EMPTY, {}, {}, {})
            && (forall pn: nat | pn < n :: pn in s.tracked && s.tracked[pn] == p)
    decreases n
  {
    hide Run;
    if n > 0 {
      SendsState(p, n - 1);
      assert Sends(p, n) == Sends(p, n - 1) + [Send(p)];
      RunNext(Sends(p, n - 1), Send(p));
    } else {
      assert Sends(p, 0) == [];
      NoSteps();
    }
  }

  lemma NoSteps()
    ensures Run([]) == START
  {
  }

  /** The report of a receiver that got number 3000 alone. */
  ghost function Lone(): Report { Report(3000, TopRuns({3000}, 3000)) }

  lemma LoneTruthful()
    ensures Truthful(Lone(), 3001, {3000}) && Mark(EMPTY, 3000) == Window(Some(3000), {3000})
  {
    MarkTracks(EMPTY, {}, 3000);
    assert {} + {3000} == {3000};
    TopRunsTruthful(Mark(EMPTY, 3000), {3000}, 3001);
  }

  /**
   * Retirement below the horizon gives no guarantee. In this run 3001 packets are sent, only the last
   * arrives, and the one report that comes back makes the sender forget packet 0, which was never
   * processed and is never sent again.
   */
  lemma HorizonRetiresUnprocessed(p: Packet)
    ensures var sent := Sends(p, 3001);
            var s := Run(sent + [Arrive(3000)] + [Acknowledge] + [ReceiveReport(Lone(), 0, 0)]);
            && 0 in Run(sent).tracked && Run(sent).tracked[0] == p
            && 0 !in s.tracked && 0 !in s.processed && s.processed == {3000}
  {
    hide Run, TopRuns, Truthful;
    var sent := Sends(p, 3001);
    SendsState(p, 3001);
    RunNext(sent, Arrive(3000));
    RunNext(sent + [Arrive(3000)], Acknowledge);
    RunNext(sent + [Arrive(3000)] + [Acknowledge], ReceiveReport(Lone(), 0, 0));
    LoneTruthful();
    assert {} + {3000} == {3000};
    assert Lone() in Run(sent + [Arrive(3000)] + [Acknowledge]).reports;
    if InRanges(Lone().ranges, 0) { RangedWasProcessed(Lone().ranges, 3000, 3001, {3000}, 0); assert false; }
    assert FateOf(Ack(3000, Lone().ranges, 0, 0), 0, p) == Horizon;
  }

  /** Exactly how far retirement can be trusted: of the packets the peer has not processed, an
      acknowledgement retires those more than 2047 below its largest number and no other. */
  lemma UnprocessedRetiredExactly(w: Window, processed: set<nat>, next: nat, a: Ack, pn: nat, p: Packet)
    requires Tracks(w, processed) && w.highest.Some? && forall x | x in processed :: x < next
    requires a.largest == w.highest.value && a.ranges == TopRuns(w.seen, a.largest)
    requires pn !in processed
    ensures FateOf(a, pn, p) in {Ranged, Horizon} <==> pn + 2047 < a.largest
  {
    hide TopRuns, Tracks;
    TopRunsTruthful(w, processed, next);
    if InRanges(a.ranges, pn) { RangedWasProcessed(a.ranges, a.largest, next, processed, pn); assert false; }
  }
}
