/**
 * What a stream does not lose, over every run of `Delivery`: the bytes of every packet the receiver
 * accepted, and the credit for every byte that was read.
 */
module StreamProgress {
  import opened Primitives
  import opened StreamBuffer
  import opened StreamReceive
  import opened StreamReader
  import opened StreamSend
  import opened Delivery

  // ---------- offsets that are delivered or buffered ----------

  ghost predicate Covered(rx: RxStream, o: nat) { o < |rx.delivered| || o in rx.view }

  lemma OnStreamCovers(rx: RxStream, offset: nat, data: seq<byte>, total: nat, limits: Limits, o: nat)
    requires Sound(rx)
    requires Covered(rx, o)
          || (OnStream(rx, offset, data, total, limits).1 == Accepted && offset <= o < offset + |data|)
    ensures Covered(OnStream(rx, offset, data, total, limits).0, o)
  {
    hide OnStream;
    RefusedChangesNothing(rx, offset, data, total, limits);
    if OnStream(rx, offset, data, total, limits).1 == Accepted {
      if Max(rx.readHead, offset) <= o < offset + |data| {
        AcceptedIsKept(rx, offset, data, total, limits, o, data[o - offset]);
      } else {
        var b := if o < |rx.delivered| then rx.delivered[o] else rx.view[o];
        AcceptedIsKept(rx, offset, data, total, limits, o, b);
      }
    }
  }

  lemma DeliverCovers(rx: RxStream, o: nat)
    requires Aligned(rx) && Covered(rx, o)
    ensures Covered(Deliver(rx), o)
  {
    hide Deliver;
    DeliverHolds(rx, o, if o < |rx.delivered| then rx.delivered[o] else rx.view[o]);
  }

  lemma OnStreamCloseCovers(rx: RxStream, size: nat, o: nat)
    requires Sound(rx) && Covered(rx, o)
    ensures Covered(OnStreamClose(rx, size).0, o)
  {
    hide Deliver;
    DeliverCovers(rx.(final := Some(size)), o);
  }

  lemma OnReadCovers(rx: RxStream, bytes: nat, fast: bool, total: nat, limits: Limits, o: nat)
    requires Sound(rx) && Covered(rx, o)
    ensures Covered(OnRead(rx, bytes, fast, total, limits).0, o)
  {
    hide Deliver, Tune;
    var consumed := Min(bytes, rx.buffered);
    DeliverCovers(rx.(buffered := rx.buffered - consumed, expected := SaturatingAdd(rx.expected, consumed)), o);
  }

  // ---------- every run ----------

  ghost predicate Kept(s: State) {
    && s.accepted <= s.packets
    && forall p, o | p in s.accepted && p.frame.offset <= o < p.frame.offset + |p.frame.data| :: Covered(s.rx, o)
  }

  /** The largest limit advertised is the last one, and no quarter of a window is withheld. */
  ghost predicate Prompt(s: State) { s.granted == s.rx.lastSentMax && Advertised(s.rx) }

  lemma ReceiveKept(s: State, packet: Packet, total: nat, limits: Limits)
    requires Inv(s) && Kept(s) && Prompt(s) && Enabled(s, Receive(packet, total))
    ensures Kept(Next(s, Receive(packet, total), limits)) && Prompt(Next(s, Receive(packet, total), limits))
  {
    hide OnStream, Sound, Covered, Faithful, Handed, Accounted, Ended;
    if packet.pn !in s.processed {
      var f, s' := packet.frame, Next(s, Receive(packet, total), limits);
      OnStreamKeepsSound(s.rx, f.offset, f.data, total, limits);
      forall p, o | p in s'.accepted && p.frame.offset <= o < p.frame.offset + |p.frame.data|
        ensures Covered(s'.rx, o)
      {
        OnStreamCovers(s.rx, f.offset, f.data, total, limits, o);
      }
    }
  }

  lemma ReceiveFinalKept(s: State, size: nat, limits: Limits)
    requires Inv(s) && Kept(s) && Prompt(s) && Enabled(s, ReceiveFinal(size))
    ensures Kept(Next(s, ReceiveFinal(size), limits)) && Prompt(Next(s, ReceiveFinal(size), limits))
  {
    hide Sound, Covered, Faithful, Handed, Accounted, Ended, Deliver;
    var s' := Next(s, ReceiveFinal(size), limits);
    forall p, o | p in s.accepted && p.frame.offset <= o < p.frame.offset + |p.frame.data| ensures Covered(s'.rx, o) {
      if s.present { OnStreamCloseCovers(s.rx, size, o); }
    }
  }

  lemma CreditKept(s: State, fast: bool, total: nat, limits: Limits)
    requires Inv(s) && Kept(s) && Prompt(s) && Enabled(s, Credit(fast, total))
    ensures Kept(Next(s, Credit(fast, total), limits)) && Prompt(Next(s, Credit(fast, total), limits))
  {
    hide Sound, Covered, Faithful, Handed, Accounted, Ended, OnRead, Advertised;
    var bytes, s' := s.reader.reports[0], Next(s, Credit(fast, total), limits);
    OnReadAdvertises(s.rx, bytes, fast, total, limits);
    forall p, o | p in s.accepted && p.frame.offset <= o < p.frame.offset + |p.frame.data| ensures Covered(s'.rx, o) {
      OnReadCovers(s.rx, bytes, fast, total, limits, o);
    }
  }

  lemma NextKept(s: State, step: Step, limits: Limits)
    requires Inv(s) && Kept(s) && Prompt(s) && Enabled(s, step)
    ensures Kept(Next(s, step, limits)) && Prompt(Next(s, step, limits))
  {
    hide Inv, Kept, Prompt, OnStream, OnStreamClose, OnRead;
    match step
    case Receive(packet, total) => ReceiveKept(s, packet, total, limits);
    case ReceiveFinal(size) => ReceiveFinalKept(s, size, limits);
    case Credit(fast, total) => CreditKept(s, fast, total, limits);
    case _ => Untouched(s, Next(s, step, limits));
  }

  lemma Untouched(s: State, s': State)
    requires Kept(s) && Prompt(s) && s'.accepted == s.accepted && s.packets <= s'.packets && s'.granted == s.granted
    requires s'.rx == s.rx.(channel := s'.rx.channel)
    ensures Kept(s') && Prompt(s')
  {
    assert forall o :: Covered(s'.rx, o) <==> Covered(s.rx, o);
  }

  lemma {:induction false} EveryRunKept(window: nat, receiverOpened: bool, steps: seq<Step>, limits: Limits)
    ensures var s := Exec(Start(window, receiverOpened), steps, limits); Kept(s) && Prompt(s)
    decreases |steps|
  {
    hide Inv, Next, Enabled;
    if steps != [] {
      var before, step := Exec(Start(window, receiverOpened), steps[..|steps| - 1], limits), steps[|steps| - 1];
      EveryRunKept(window, receiverOpened, steps[..|steps| - 1], limits);
      EveryRunKeeps(window, receiverOpened, steps[..|steps| - 1], limits);
      if Enabled(before, step) { NextKept(before, step, limits); }
    }
  }

  /**
   * In every run each byte of each accepted packet, in order or not, is delivered or buffered at its
   * offset: as that byte when later lives only repeat the first, and always as a byte some life admitted
   * there.
   */
  lemma AcceptedBytesKept(window: nat, receiverOpened: bool, steps: seq<Step>, limits: Limits, p: Packet, k: nat)
    requires p in Exec(Start(window, receiverOpened), steps, limits).accepted && k < |p.frame.data|
    ensures var s, o := Exec(Start(window, receiverOpened), steps, limits), p.frame.offset + k;
            && (exists b :: Holds(s.rx, o, b) && ByteOf(s.tx.Lives(), o, b))
            && (Agree(s.tx) ==> Holds(s.rx, o, p.frame.data[k]))
  {
    hide Start, Exec, Carries, Sound, ByteOf, Agree;
    var s, o := Exec(Start(window, receiverOpened), steps, limits), p.frame.offset + k;
    EveryRunKept(window, receiverOpened, steps, limits);
    EveryRunKeeps(window, receiverOpened, steps, limits);
    assert Covered(s.rx, o);
    var b := if o < |s.rx.delivered| then s.rx.delivered[o] else s.rx.view[o];
    assert Holds(s.rx, o, b) && ByteOf(s.tx.Lives(), o, b);
    CarriedByte(s.tx.Lives(), p.frame, o);
    if Agree(s.tx) {
      AgreedByte(s.tx, o, b);
      AgreedByte(s.tx, o, p.frame.data[k]);
    }
  }

  /**
   * In every run a sender whose bytes were all read and credited can get going again: hearing the
   * largest limit advertised leaves it at least three quarters of the receiver's window.
   */
  lemma CreditReturns(window: nat, receiverOpened: bool, steps: seq<Step>, limits: Limits)
    ensures var s := Exec(Start(window, receiverOpened), steps, limits);
            s.tx.alive && s.rx.expected == |s.tx.current| ==>
              && Enabled(s, ReceiveLimit(s.granted))
              && var s' := Next(s, ReceiveLimit(s.granted), limits);
                 s'.tx.window + s.rx.window / 4 >= s.rx.window && (s.rx.window > 0 ==> s'.tx.window > 0)
  {
    hide Start, Exec, Sound, Faithful, Handed, Accounted, Ended, FramesFaithful, FinalsFaithful, Longest;
    EveryRunKept(window, receiverOpened, steps, limits);
    EveryRunKeeps(window, receiverOpened, steps, limits);
  }
}
