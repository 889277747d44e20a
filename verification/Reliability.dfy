/**
 * What becomes of every reliable payload, over every run of two endpoints: the sender's queue and
 * flight, the receiver's window, and the acknowledgements between them (`AckExchange`), with timeouts,
 * losses, failed sends and bare acknowledgements anywhere in between.
 */
module Reliability {
  import opened Primitives
  import opened PacketMask
  import opened PacketWindow
  import opened AckRanges
  import opened Unacked
  import opened Ledger
  import opened AckFate
  import A = AckExchange

  /**
   * The acknowledgement machine, the payloads waiting to be sent, what each number carried, everything
   * admitted, and the payloads of packets that were retired below the horizon unprocessed.
   */
  datatype State = State(ack: A.State, waiting: set<Payload>, wire: map<nat, Payload>, admitted: set<Payload>,
                         dropped: set<Payload>)

  datatype Step =
    | Admit(payload: Payload)
    | SendWaiting(payload: Payload, sentAt: nat, retries: nat, bytes: nat)
    | SendOther(packet: Packet)
    | SendUntracked
    | Arrive(pn: nat)
    | Acknowledge
    | ReceiveReport(report: A.Report, now: nat, threshold: nat)
    | Expire(pns: set<nat>)

  const START: State := State(A.START, {}, map[], {}, {})

  /** The reliable payloads of some packets. */
  ghost function Payloads(v: View): set<Payload> {
    set pn | pn in v && v[pn].payload.Reliable() :: v[pn].payload
  }

  ghost function Sent(s: State, packet: Packet): State {
    s.(ack := A.Next(s.ack, A.Send(packet)), wire := s.wire[s.ack.next := packet.payload])
  }

  ghost function Next(s: State, step: Step): State {
    match step
    case Admit(p) =>
      if p.Reliable() then s.(waiting := s.waiting + {p}, admitted := s.admitted + {p}) else s
    case SendWaiting(p, sentAt, retries, bytes) =>
      if p !in s.waiting then s else Sent(s, Packet(p, sentAt, retries, bytes)).(waiting := s.waiting - {p})
    case SendOther(packet) => if packet.payload.Reliable() then s else Sent(s, packet)
    case SendUntracked => s.(ack := A.Next(s.ack, A.SendUntracked))
    case Arrive(pn) => s.(ack := A.Next(s.ack, A.Arrive(pn)))
    case Acknowledge => s.(ack := A.Next(s.ack, A.Acknowledge))
    case ReceiveReport(report, now, threshold) =>
      if report !in s.ack.reports then s
      else
        var a, v := Ack(report.largest, report.ranges, now, threshold), s.ack.tracked;
        s.(ack := A.Next(s.ack, A.ReceiveReport(report, now, threshold)),
           waiting := s.waiting + Payloads(With(v, a, Lost)),
           dropped := s.dropped + Payloads(With(v, a, Horizon) - s.ack.processed))
    case Expire(pns) =>
      s.(ack := A.Next(s.ack, A.Expire(pns)),
         waiting := s.waiting + Payloads(s.ack.tracked - (s.ack.tracked.Keys - pns)))
  }

  ghost function Run(steps: seq<Step>): State {
    if steps == [] then START else Next(Run(steps[..|steps| - 1]), steps[|steps| - 1])
  }

  // ---------- where a payload can be ----------

  ghost predicate InFlight(s: State, p: Payload) {
    exists pn :: pn in s.ack.tracked && s.ack.tracked[pn].payload == p
  }

  /** A packet that carried it was processed by the receiver. */
  ghost predicate Received(s: State, p: Payload) {
    exists pn :: pn in s.ack.processed && pn in s.wire && s.wire[pn] == p
  }

  ghost predicate Held(s: State, p: Payload) {
    p in s.waiting || InFlight(s, p) || Received(s, p) || p in s.dropped
  }

  /** A number carries what it is tracked for. */
  ghost predicate Labelled(s: State) {
    && (forall pn | pn in s.ack.tracked :: pn in s.wire && s.wire[pn] == s.ack.tracked[pn].payload)
    && (forall pn | pn in s.wire :: pn < s.ack.next)
  }

  ghost predicate Inv(s: State) {
    && A.Inv(s.ack) && Labelled(s)
    && (forall p | p in s.admitted :: p.Reliable() && Held(s, p))
  }

  // ---------- one step ----------

  lemma NextLabelled(s: State, step: Step)
    requires Inv(s)
    ensures A.Inv(Next(s, step).ack) && Labelled(Next(s, step))
  {
    hide A.Inv, Held, With, Payloads, TopRuns, IsReplay, Mark;
    match step
    case Admit(_) =>
    case SendWaiting(p, sentAt, retries, bytes) => A.NextKeeps(s.ack, A.Send(Packet(p, sentAt, retries, bytes)));
    case SendOther(packet) => A.NextKeeps(s.ack, A.Send(packet));
    case SendUntracked => A.NextKeeps(s.ack, A.SendUntracked);
    case Arrive(pn) => A.NextKeeps(s.ack, A.Arrive(pn));
    case Acknowledge => A.NextKeeps(s.ack, A.Acknowledge);
    case ReceiveReport(report, now, threshold) =>
      A.NextKeeps(s.ack, A.ReceiveReport(report, now, threshold));
      KeptPart(s.ack.tracked, Ack(report.largest, report.ranges, now, threshold));
    case Expire(pns) => A.NextKeeps(s.ack, A.Expire(pns));
  }

  lemma KeptPart(v: View, a: Ack)
    ensures forall pn | pn in With(v, a, Kept) :: pn in v && With(v, a, Kept)[pn] == v[pn]
  {
  }

  /** Sending a packet loses nothing. */
  lemma SentHolds(s: State, packet: Packet, p: Payload)
    requires Inv(s) && Held(s, p)
    ensures Held(Sent(s, packet), p)
    ensures InFlight(Sent(s, packet), packet.payload)
  {
    hide A.Inv;
    var s' := Sent(s, packet);
    assert s.ack.next in s'.ack.tracked;
    if InFlight(s, p) {
      var pn :| pn in s.ack.tracked && s.ack.tracked[pn].payload == p;
      assert pn in s'.ack.tracked && s'.ack.tracked[pn].payload == p;
    }
    if Received(s, p) {
      var pn :| pn in s.ack.processed && pn in s.wire && s.wire[pn] == p;
      assert pn in s'.wire && s'.wire[pn] == p;
    }
  }

  lemma WaitingSent(s: State, packet: Packet, p: Payload)
    requires Inv(s) && Held(s, p)
    ensures Held(Sent(s, packet).(waiting := s.waiting - {packet.payload}), p)
  {
    hide A.Inv, A.Next, Inv;
    var sent := Sent(s, packet);
    SentHolds(s, packet, p);
    var s' := sent.(waiting := s.waiting - {packet.payload});
    assert InFlight(sent, p) ==> InFlight(s', p);
    assert Received(sent, p) ==> Received(s', p);
  }

  /** A report takes a packet out of flight only if it was processed, is to be sent again, or is dropped. */
  lemma ReportHolds(s: State, report: A.Report, now: nat, threshold: nat, p: Payload)
    requires Inv(s) && Held(s, p) && p.Reliable() && report in s.ack.reports
    ensures Held(Next(s, ReceiveReport(report, now, threshold)), p)
  {
    hide A.Inv, TopRuns;
    var s' := Next(s, ReceiveReport(report, now, threshold));
    var a, v := Ack(report.largest, report.ranges, now, threshold), s.ack.tracked;
    if Received(s, p) { assert Received(s', p); }
    if InFlight(s, p) {
      var pn :| pn in v && v[pn].payload == p;
      match FateOf(a, pn, v[pn])
      case Kept => assert pn in s'.ack.tracked;
      case Lost => assert pn in With(v, a, Lost);
      case Ranged =>
        RangedProcessed(s, report, pn);
        assert pn in s'.ack.processed && s'.wire[pn] == p;
      case Horizon =>
        if pn in s.ack.processed { assert pn in s'.ack.processed && s'.wire[pn] == p; }
        else { assert pn in With(v, a, Horizon) - s.ack.processed; }
    }
  }

  lemma RangedProcessed(s: State, report: A.Report, pn: nat)
    requires Inv(s) && report in s.ack.reports && InRanges(report.ranges, pn)
    ensures pn in s.ack.processed
  {
    A.RangedWasProcessed(report.ranges, report.largest, s.ack.next, s.ack.processed, pn);
  }

  lemma ExpireHolds(s: State, pns: set<nat>, p: Payload)
    requires Inv(s) && Held(s, p) && p.Reliable()
    ensures Held(Next(s, Expire(pns)), p)
  {
    hide A.Inv;
    var s' := Next(s, Expire(pns));
    if Received(s, p) { assert Received(s', p); }
    if InFlight(s, p) {
      var pn :| pn in s.ack.tracked && s.ack.tracked[pn].payload == p;
      if pn in pns { assert pn in s.ack.tracked - (s.ack.tracked.Keys - pns); }
      else { assert pn in s'.ack.tracked; }
    }
  }

  /** Steps of the receiver, and numbers used for nothing, only add to what was processed. */
  lemma OtherHolds(s: State, step: Step, p: Payload)
    requires Inv(s) && Held(s, p) && (step.Admit? || step.SendUntracked? || step.Arrive? || step.Acknowledge?)
    ensures Held(Next(s, step), p)
  {
    hide A.Inv, TopRuns, IsReplay, Mark;
    var s' := Next(s, step);
    if InFlight(s, p) { assert InFlight(s', p); }
    if Received(s, p) {
      var pn :| pn in s.ack.processed && pn in s.wire && s.wire[pn] == p;
      assert pn in s'.ack.processed && s'.wire[pn] == p;
    }
  }

  lemma NextHolds(s: State, step: Step, p: Payload)
    requires Inv(s) && p in Next(s, step).admitted
    ensures p.Reliable() && Held(Next(s, step), p)
  {
    hide A.Inv, A.Next, Inv, InFlight, Received, Payloads, With;
    if p in s.admitted {
      HeldBefore(s, p);
      match step
      case SendWaiting(q, sentAt, retries, bytes) =>
        if q in s.waiting { WaitingSent(s, Packet(q, sentAt, retries, bytes), p); }
      case SendOther(packet) => SentHolds(s, packet, p);
      case ReceiveReport(report, now, threshold) =>
        if report in s.ack.reports { ReportHolds(s, report, now, threshold, p); }
      case Expire(pns) => ExpireHolds(s, pns, p);
      case _ => OtherHolds(s, step, p);
    }
  }

  lemma HeldBefore(s: State, p: Payload)
    requires Inv(s) && p in s.admitted
    ensures p.Reliable() && Held(s, p)
  {
  }

  // ---------- every run ----------

  lemma {:induction false} EveryRunHolds(steps: seq<Step>)
    ensures Inv(Run(steps))
    decreases |steps|
  {
    hide A.Inv, Next, Held, Labelled;
    if steps == [] {
      StartInv();
    } else {
      var before, step := Run(steps[..|steps| - 1]), steps[|steps| - 1];
      EveryRunHolds(steps[..|steps| - 1]);
      NextLabelled(before, step);
      forall p | p in Next(before, step).admitted ensures p.Reliable() && Held(Next(before, step), p) {
        NextHolds(before, step, p);
      }
    }
  }

  lemma StartInv()
    ensures Inv(START)
  {
  }

  /** In every run each admitted payload waits to be sent, is in flight, was processed by the receiver, or
      was on a packet retired below the horizon unprocessed. */
  lemma NothingElseIsLost(steps: seq<Step>, p: Payload)
    ensures var s := Run(steps);
            p in s.admitted ==> p in s.waiting || InFlight(s, p) || Received(s, p) || p in s.dropped
  {
    hide Run, InFlight, Received;
    EveryRunHolds(steps);
    if p in Run(steps).admitted { HeldBefore(Run(steps), p); }
  }

  /** No report arrives while a packet more than 2047 below its largest number is in flight. */
  ghost predicate Short(steps: seq<Step>) {
    steps != [] ==>
      var init, last := steps[..|steps| - 1], steps[|steps| - 1];
      && Short(init)
      && (last.ReceiveReport? ==> forall pn | pn in Run(init).ack.tracked :: last.report.largest <= pn + 2047)
  }

  /** Then nothing is ever dropped: every admitted payload waits, is in flight, or was processed. */
  lemma {:induction false} ShortRunsDropNothing(steps: seq<Step>)
    requires Short(steps)
    ensures Run(steps).dropped == {}
    decreases |steps|
  {
    hide A.Next, InRanges;
    if steps != [] {
      var init, last := steps[..|steps| - 1], steps[|steps| - 1];
      ShortRunsDropNothing(init);
      if last.ReceiveReport? {
        var a := Ack(last.report.largest, last.report.ranges, last.now, last.threshold);
        assert With(Run(init).ack.tracked, a, Horizon) == map[];
      }
    }
  }
}
