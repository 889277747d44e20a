/**
 * One direction of one stream between two endpoints that both run this transport, over a network
 * that may lose, duplicate, delay and reorder packets. `Exec` runs any schedule of steps; the
 * theorems hold for every schedule.
 */
module Delivery {
  import opened Primitives
  import opened ReceivedRanges
  import opened StreamBuffer
  import opened StreamReceive
  import opened StreamReader
  import opened StreamSend

  /** A stream frame: some bytes at a stream offset. */
  datatype Frame = Frame(offset: nat, data: seq<byte>)

  datatype Packet = Packet(pn: nat, frame: Frame)

  /**
   * The sending endpoint of the stream. A close removes its sending half, and a later frame of the peer
   * may create it again, with offsets from 0: `past` holds what was admitted in each earlier life and
   * `current` what was admitted in the last one. `alive` says whether the half is there, `window` is its
   * remaining credit; the pacing queue and the packets in flight outlive it.
   */
  datatype Sender = Sender(
    past: seq<seq<byte>>, current: seq<byte>, alive: bool, window: nat,
    queue: seq<Frame>, unacked: map<nat, Frame>, nextPn: nat)
  {
    function Lives(): seq<seq<byte>> { past + [current] }

    /** What was admitted before the first close. */
    function Admitted(): seq<byte> { Lives()[0] }

    function Credit(): Funds { Funds(|current|, window) }

    /** The lives that ended with a close. */
    function Closed(): seq<seq<byte>> { if alive then past else Lives() }

    /** Nothing was admitted after the half was created again. */
    predicate OneLife() { forall i | 0 < i < |Lives()| :: Lives()[i] == [] }
  }

  /** What reached the receiving half: data up to an end offset, or a declared final size. */
  datatype Arrival = Data(end: nat) | Final(size: nat)

  /**
   * Both ends and what the network may deliver. Packets, final sizes and limits once sent stay in
   * the network, so each of them may arrive at any later time, many times, or never. `present` says
   * that the receiving half exists, `failed` that the receiver closed the connection, and `initial` and
   * `receiverOpened` how the stream began.
   *
   * History: `granted` is the largest limit advertised, `heard` the limits the sender started from or
   * received and `told` the largest of them, `given` all the application has read, `arrivals` what
   * reached the receiving half while the connection was open, `accepted` the packets it accepted, and
   * `noMemory` whether a frame was refused for lack of connection memory.
   */
  datatype State = State(
    tx: Sender, packets: set<Packet>, finals: set<nat>,
    initial: nat, receiverOpened: bool,
    rx: RxStream, present: bool, failed: bool, processed: set<nat>, limits: set<nat>, granted: nat,
    heard: set<nat>, told: nat, reader: Reader, given: seq<byte>, arrivals: seq<Arrival>, accepted: set<Packet>,
    noMemory: bool)

  datatype Step =
    | Admit(data: seq<byte>)
    | SendNext
    | Resend(pn: nat, sent: bool)
    | Retire(pn: nat)
    | Finish
    | Reopen
    | Receive(packet: Packet, total: nat)
    | ReceiveFinal(size: nat)
    | ReceiveLimit(limit: nat)
    | Read(bytes: seq<byte>, reader: Reader, chunks: seq<seq<byte>>)
    | Credit(fast: bool, total: nat)
    | DropReader

  /** The state right after the stream was opened; the receiver's window is `window`. A stream the
      receiver opened itself has its receiving half from the start. */
  ghost function Start(window: nat, receiverOpened: bool): State {
    State(Sender([], [], true, window, [], map[], 0), {}, {}, window, receiverOpened,
          NewStream(window), receiverOpened, false, {}, {window}, window,
          {window}, window, Reader([], 0, []), [], [], {}, false)
  }

  ghost predicate Enabled(s: State, step: Step) {
    match step
    case Admit(data) => s.tx.alive && |data| <= s.tx.window && |s.tx.current| + |data| <= U64_MAX
    case SendNext => s.tx.queue != []
    case Resend(pn, _) => pn in s.tx.unacked
    case Retire(pn) => pn in s.tx.unacked
    case Finish => true
    // the id has the receiver's parity, so any frame of the receiver creates the half again
    case Reopen => s.receiverOpened && !s.tx.alive
    case Receive(packet, _) => packet in s.packets && !s.failed
    case ReceiveFinal(size) => size in s.finals && !s.failed
    case ReceiveLimit(limit) => limit in s.limits
    case Read(bytes, reader, chunks) => Takes(s.reader, s.rx.channel.chunks, reader, chunks, bytes)
    case Credit(_, _) => s.reader.reports != []
    case DropReader => true
  }

  /** Putting one frame on the wire under a fresh packet number. */
  ghost function Sent(s: State, tx: Sender, f: Frame): State {
    s.(packets := s.packets + {Packet(tx.nextPn, f)},
       tx := tx.(unacked := tx.unacked[tx.nextPn := f], nextPn := tx.nextPn + 1))
  }

  ghost function Next(s: State, step: Step, limits: Limits): State
    requires Enabled(s, step)
  {
    match step
    case Admit(data) =>
      s.(tx := s.tx.(current := s.tx.current + data, window := Spend(s.tx.Credit(), |data|).window,
                     queue := s.tx.queue + [Frame(|s.tx.current|, data)]))
    case SendNext => Sent(s, s.tx.(queue := s.tx.queue[1..]), s.tx.queue[0])
    case Resend(pn, sent) =>
      var tx := s.tx.(unacked := s.tx.unacked - {pn});
      if sent then Sent(s, tx, s.tx.unacked[pn]) else s.(tx := tx.(queue := [s.tx.unacked[pn]] + tx.queue))
    case Retire(pn) => s.(tx := s.tx.(unacked := s.tx.unacked - {pn}))
    case Finish =>
      // a close removes the half; one that finds none declares size 0
      s.(tx := s.tx.(alive := false), finals := s.finals + {if s.tx.alive then |s.tx.current| else 0})
    case Reopen =>
      s.(tx := s.tx.(past := s.tx.past + [s.tx.current], current := [], alive := true, window := s.initial))
    case Receive(packet, total) =>
      if packet.pn in s.processed then s
      else
        var (rx, verdict) := OnStream(s.rx, packet.frame.offset, packet.frame.data, total, limits);
        s.(rx := rx, present := true, failed := Fatal(verdict), processed := s.processed + {packet.pn},
           arrivals := s.arrivals + [Data(packet.frame.offset + |packet.frame.data|)],
           accepted := if verdict == Accepted then s.accepted + {packet} else s.accepted,
           noMemory := verdict == MemoryLimit)
    case ReceiveFinal(size) =>
      if !s.present then s
      else
        var (rx, ok) := OnStreamClose(s.rx, size);
        s.(rx := rx, failed := !ok, arrivals := s.arrivals + [Final(size)])
    case ReceiveLimit(limit) =>
      if !s.tx.alive then s
      else
        s.(tx := s.tx.(window := OnLimit(s.tx.Credit(), limit).window),
           heard := s.heard + {limit}, told := Max(s.told, limit))
    case Read(bytes, reader, chunks) =>
      s.(rx := s.rx.(channel := s.rx.channel.(chunks := chunks)), reader := reader, given := s.given + bytes)
    case Credit(fast, total) =>
      var (rx, limit) := OnRead(s.rx, s.reader.reports[0], fast, total, limits);
      s.(rx := rx, reader := s.reader.(reports := s.reader.reports[1..]),
         limits := if limit.Some? then s.limits + {limit.value} else s.limits,
         granted := if limit.Some? then Max(s.granted, limit.value) else s.granted)
    case DropReader => s.(rx := s.rx.(channel := s.rx.channel.(readerGone := true)))
  }

  /** Runs a schedule; a step that is not enabled is skipped. */
  ghost function Exec(s: State, steps: seq<Step>, limits: Limits): State {
    if steps == [] then s
    else
      var before := Exec(s, steps[..|steps| - 1], limits);
      var step := steps[|steps| - 1];
      if Enabled(before, step) then Next(before, step, limits) else before
  }

  // ---------- the invariant ----------

  /** Some life admitted byte `b` at offset `o`. */
  ghost predicate ByteOf(lives: seq<seq<byte>>, o: nat, b: byte) {
    exists i :: 0 <= i < |lives| && o < |lives[i]| && lives[i][o] == b
  }

  function Longest(lives: seq<seq<byte>>): (n: nat)
    ensures forall i | 0 <= i < |lives| :: |lives[i]| <= n
  {
    if lives == [] then 0 else Max(Longest(lives[..|lives| - 1]), |lives[|lives| - 1]|)
  }

  /** Every byte of `f` was admitted at its offset in some life. */
  ghost predicate Carries(lives: seq<seq<byte>>, f: Frame) {
    && f.offset + |f.data| <= Longest(lives)
    && forall k | 0 <= k < |f.data| :: ByteOf(lives, f.offset + k, f.data[k])
  }

  /** Every frame that exists anywhere carries admitted bytes. */
  ghost predicate FramesFaithful(s: State) {
    && (forall i | 0 <= i < |s.tx.queue| :: Carries(s.tx.Lives(), s.tx.queue[i]))
    && (forall pn | pn in s.tx.unacked :: Carries(s.tx.Lives(), s.tx.unacked[pn]))
    && (forall p | p in s.packets :: Carries(s.tx.Lives(), p.frame))
  }

  /** In every life the sender stays within the largest limit it heard of, that within what the receiver
      advertised, and that within what the receiver checks. */
  ghost predicate CreditBounded(s: State) {
    && |s.tx.current| + s.tx.window <= s.told <= s.granted <= s.rx.expected + s.rx.window
    && Longest(s.tx.Lives()) <= s.told && Longest(s.tx.Lives()) <= U64_MAX
    && s.told in s.heard && (forall l | l in s.heard :: l <= s.told) && s.heard <= s.limits
    && s.initial in s.heard && s.granted in s.limits
    && forall l | l in s.limits :: l <= s.granted
  }

  /** The receiver holds and has delivered only what was admitted at that offset in some life. */
  ghost predicate Faithful(rx: RxStream, lives: seq<seq<byte>>) {
    && rx.readHead <= rx.highest <= Longest(lives)
    && (forall o | 0 <= o < |rx.delivered| :: ByteOf(lives, o, rx.delivered[o]))
    && (forall o | o in rx.view :: ByteOf(lives, o, rx.view[o]))
  }

  ghost predicate LengthOf(lives: seq<seq<byte>>, n: nat) {
    exists i :: 0 <= i < |lives| && |lives[i]| == n
  }

  /** A final size is declared by a close alone: the length of the life it ended, or 0. */
  ghost predicate FinalsFaithful(s: State) {
    && (s.tx.Closed() == [] ==> s.finals == {})
    && (forall f | f in s.finals :: f == 0 || LengthOf(s.tx.Closed(), f))
    && (s.rx.final.Some? ==> s.rx.final.value in s.finals)
  }

  /** The channel is closed as soon as the read head is at the final size. */
  ghost predicate Ended(rx: RxStream) {
    rx.final == Some(rx.readHead) ==> !rx.channel.open
  }

  /** Every delivered byte has been read or waits in the reader or the channel. */
  ghost predicate Handed(rx: RxStream, reader: Reader, given: seq<byte>) {
    given + (reader.current + Flat(rx.channel.chunks)) == rx.delivered
  }

  /** Every byte read is credited, on its way, or pending. */
  ghost predicate Accounted(rx: RxStream, reader: Reader, given: seq<byte>) {
    rx.expected + Sum(reader.reports) + reader.pending == |given|
  }

  ghost predicate Inv(s: State) {
    && Sound(s.rx) && FramesFaithful(s) && CreditBounded(s) && FinalsFaithful(s)
    && Faithful(s.rx, s.tx.Lives()) && Handed(s.rx, s.reader, s.given) && Accounted(s.rx, s.reader, s.given)
    && Ended(s.rx)
  }

  lemma StartInv(window: nat, receiverOpened: bool)
    ensures Inv(Start(window, receiverOpened))
  {
  }

  /** Bytes are credited only after they were delivered. */
  lemma CreditAfterDelivery(s: State)
    requires Inv(s)
    ensures s.rx.expected + Sum(s.reader.reports) <= s.rx.readHead
  {
    assert |s.given| <= |s.rx.delivered|;
  }

  /** `lives'` holds at least the bytes of `lives`. */
  ghost predicate Extends(lives: seq<seq<byte>>, lives': seq<seq<byte>>) {
    |lives| <= |lives'| && forall i | 0 <= i < |lives| :: lives[i] <= lives'[i]
  }

  lemma {:induction false} LongestIs(lives: seq<seq<byte>>, n: nat)
    requires forall i | 0 <= i < |lives| :: |lives[i]| <= n
    ensures Longest(lives) <= n
  {
    if lives != [] { LongestIs(lives[..|lives| - 1], n); }
  }

  lemma ByteStays(lives: seq<seq<byte>>, lives': seq<seq<byte>>, o: nat, b: byte)
    requires Extends(lives, lives') && ByteOf(lives, o, b)
    ensures ByteOf(lives', o, b)
  {
    var i :| 0 <= i < |lives| && o < |lives[i]| && lives[i][o] == b;
    assert lives'[i][o] == b;
  }

  lemma LongestGrows(lives: seq<seq<byte>>, lives': seq<seq<byte>>)
    requires Extends(lives, lives')
    ensures Longest(lives) <= Longest(lives')
  {
    LongestIs(lives, Longest(lives'));
  }

  lemma CarriesStays(lives: seq<seq<byte>>, lives': seq<seq<byte>>, f: Frame)
    requires Extends(lives, lives') && Carries(lives, f)
    ensures Carries(lives', f)
  {
    hide ByteOf;
    LongestGrows(lives, lives');
    forall k | 0 <= k < |f.data| ensures ByteOf(lives', f.offset + k, f.data[k]) {
      ByteStays(lives, lives', f.offset + k, f.data[k]);
    }
  }

  lemma FaithfulStays(rx: RxStream, lives: seq<seq<byte>>, lives': seq<seq<byte>>)
    requires Extends(lives, lives') && Faithful(rx, lives)
    ensures Faithful(rx, lives')
  {
    hide ByteOf;
    LongestGrows(lives, lives');
    forall o: nat, b: byte | ByteOf(lives, o, b) ensures ByteOf(lives', o, b) { ByteStays(lives, lives', o, b); }
  }

  lemma AdmittedFrame(past: seq<seq<byte>>, life: seq<byte>, data: seq<byte>)
    ensures Carries(past + [life + data], Frame(|life|, data))
  {
    var lives := past + [life + data];
    forall k | 0 <= k < |data| ensures ByteOf(lives, |life| + k, data[k]) {
      assert lives[|past|][|life| + k] == data[k];
    }
    assert |lives[|past|]| <= Longest(lives);
  }

  lemma AdmitKeeps(s: State, data: seq<byte>, limits: Limits)
    requires Inv(s) && Enabled(s, Admit(data))
    ensures Inv(Next(s, Admit(data), limits))
  {
    hide Sound, Handed, Accounted, Ended, Carries, Faithful, LengthOf;
    var s' := Next(s, Admit(data), limits);
    var lives, lives' := s.tx.Lives(), s'.tx.Lives();
    assert Extends(lives, lives');
    forall f | Carries(lives, f) ensures Carries(lives', f) { CarriesStays(lives, lives', f); }
    AdmittedFrame(s.tx.past, s.tx.current, data);
    FaithfulStays(s.rx, lives, lives');
    assert lives'[..|lives'| - 1] == lives[..|lives| - 1] == s.tx.past;
  }

  lemma ReopenKeeps(s: State, limits: Limits)
    requires Inv(s) && Enabled(s, Reopen)
    ensures Inv(Next(s, Reopen, limits))
  {
    hide Sound, Handed, Accounted, Ended, Carries, Faithful, LengthOf;
    var s' := Next(s, Reopen, limits);
    var lives, lives' := s.tx.Lives(), s'.tx.Lives();
    assert lives'[..|lives'| - 1] == lives == s'.tx.past;
    assert Extends(lives, lives');
    forall f | Carries(lives, f) ensures Carries(lives', f) { CarriesStays(lives, lives', f); }
    FaithfulStays(s.rx, lives, lives');
  }

  lemma FinishKeeps(s: State, limits: Limits)
    requires Inv(s)
    ensures Inv(Next(s, Finish, limits))
  {
    hide Sound, Handed, Accounted, Ended, Carries, Faithful, Longest;
    var lives := s.tx.Lives();
    if s.tx.alive {
      assert lives[|s.tx.past|] == s.tx.current && LengthOf(lives, |s.tx.current|);
      forall f | LengthOf(s.tx.past, f) ensures LengthOf(lives, f) {
        var i :| 0 <= i < |s.tx.past| && |s.tx.past[i]| == f;
        assert lives[i] == s.tx.past[i];
      }
    }
  }

  lemma SendNextKeeps(s: State, limits: Limits)
    requires Inv(s) && Enabled(s, SendNext)
    ensures Inv(Next(s, SendNext, limits))
  {
    hide Sound, Handed, Accounted, Carries, Faithful, Longest, LengthOf;
    assert s.tx.queue[0] in s.tx.queue;
  }

  lemma ResendKeeps(s: State, pn: nat, sent: bool, limits: Limits)
    requires Inv(s) && Enabled(s, Resend(pn, sent))
    ensures Inv(Next(s, Resend(pn, sent), limits))
  {
    hide Sound, Handed, Accounted, Carries, Faithful, Longest, LengthOf;
  }

  lemma SenderStepKeeps(s: State, step: Step, limits: Limits)
    requires Inv(s) && Enabled(s, step) && (step.Retire? || step.ReceiveLimit?)
    ensures Inv(Next(s, step, limits))
  {
    hide Sound, Handed, Accounted, Carries, Faithful, Longest, LengthOf;
  }

  // ---------- receiver steps ----------

  lemma DropReaderKeeps(s: State, limits: Limits)
    requires Inv(s)
    ensures Inv(Next(s, DropReader, limits))
  {
    hide Carries, Flat, Sum, Sound, Faithful, Longest, LengthOf;
    ChannelOnly(s.rx, s.rx.channel.(readerGone := true), s.tx.Lives());
  }

  lemma RunIsAdmitted(rx: RxStream, lives: seq<seq<byte>>)
    requires Faithful(rx, lives) && Sound(rx)
    ensures var head, run := rx.readHead, Run(rx.view, rx.readHead);
            && head + |run| <= rx.highest
            && forall o | 0 <= o < head + |run| :: ByteOf(lives, o, (rx.delivered + run)[o])
  {
    hide ByteOf, Longest;
    var head, run := rx.readHead, Run(rx.view, rx.readHead);
    forall o | 0 <= o < head + |run| ensures ByteOf(lives, o, (rx.delivered + run)[o]) {
      if o >= head { RunBytes(rx.view, head, o - head); }
    }
    if run != [] { RunBytes(rx.view, head, |run| - 1); }
  }

  /** Forwarding hands over the next received bytes and nothing else. */
  lemma DeliverFaithful(rx: RxStream, lives: seq<seq<byte>>, reader: Reader, given: seq<byte>)
    requires Faithful(rx, lives) && Handed(rx, reader, given) && Sound(rx.(channel := rx.channel.(open := true)))
    ensures Faithful(Deliver(rx), lives) && Handed(Deliver(rx), reader, given)
  {
    hide ByteOf, Longest;
    var run := Run(rx.view, rx.readHead);
    RunIsAdmitted(rx.(channel := rx.channel.(open := true)), lives);
    HandOver(rx.channel.chunks, reader.current, given, run);
  }

  lemma HandOver(chunks: seq<seq<byte>>, current: seq<byte>, given: seq<byte>, run: seq<byte>)
    ensures given + (current + Flat(chunks + [run])) == given + (current + Flat(chunks)) + run
  {
    FlatAppend(chunks, run);
  }

  lemma BufferedFaithful(rx: RxStream, lives: seq<seq<byte>>, offset: nat, data: seq<byte>)
    requires Faithful(rx, lives) && Carries(lives, Frame(offset, data))
    ensures Faithful(Buffered(rx, offset, data), lives)
  {
    hide ByteOf, Longest, Carries, Placed;
    var view' := rx.view + Placed(offset, data);
    forall o | o in view' ensures ByteOf(lives, o, view'[o]) {
      if o in Placed(offset, data) { PlacedByte(lives, offset, data, o); }
    }
  }

  lemma PlacedByte(lives: seq<seq<byte>>, offset: nat, data: seq<byte>, o: nat)
    requires Carries(lives, Frame(offset, data)) && o in Placed(offset, data)
    ensures ByteOf(lives, o, Placed(offset, data)[o])
  {
    hide ByteOf, Carries;
    CarriedByte(lives, Frame(offset, data), o);
  }

  lemma CarriedByte(lives: seq<seq<byte>>, f: Frame, o: nat)
    requires Carries(lives, f) && f.offset <= o < f.offset + |f.data|
    ensures ByteOf(lives, o, f.data[o - f.offset])
  {
    hide ByteOf, Longest;
    assert ByteOf(lives, f.offset + (o - f.offset), f.data[o - f.offset]);
  }

  lemma TrimmedCarries(lives: seq<seq<byte>>, head: nat, f: Frame)
    requires Carries(lives, f) && head <= f.offset + |f.data|
    ensures var g := Frame(TrimmedOffset(head, f.offset), TrimmedData(head, f.offset, f.data));
            Carries(lives, g) && g.offset + |g.data| == f.offset + |f.data|
  {
    hide ByteOf, Longest;
    if f.offset < head {
      var d := head - f.offset;
      forall k | 0 <= k < |f.data| - d ensures ByteOf(lives, head + k, f.data[d..][k]) {
        assert ByteOf(lives, f.offset + (d + k), f.data[d + k]);
      }
    }
  }

  /** A frame that carries admitted bytes, within the receiver's limit, is refused exactly
      for lack of connection memory or because an accepted final size lies below its end, and then
      changes nothing; every outcome keeps the receiver faithful. */
  lemma OnStreamFaithful(rx: RxStream, f: Frame, total: nat, limits: Limits, lives: seq<seq<byte>>,
                         reader: Reader, given: seq<byte>)
    requires Sound(rx) && Faithful(rx, lives) && Handed(rx, reader, given) && Ended(rx) && Carries(lives, f)
    requires Longest(lives) <= U64_MAX && Longest(lives) <= rx.expected + rx.window && rx.expected <= rx.readHead
    ensures var (rx', verdict) := OnStream(rx, f.offset, f.data, total, limits);
            && verdict == Expected(rx, f, total, limits)
            && (verdict != Accepted ==> rx' == rx)
            && (verdict == Accepted ==> rx'.highest == Max(rx.highest, f.offset + |f.data|))
            && Sound(rx') && Faithful(rx', lives) && Handed(rx', reader, given) && Ended(rx')
  {
    hide OnStream, Sound, Carries, Faithful, Handed, Ended, Expected;
    OnStreamKeepsSound(rx, f.offset, f.data, total, limits);
    CarriesEnd(lives, f);
    VerdictExpected(rx, f, total, limits);
    if Expected(rx, f, total, limits) == Accepted { AcceptedFaithful(rx, f, total, limits, lives, reader, given); }
  }

  lemma VerdictExpected(rx: RxStream, f: Frame, total: nat, limits: Limits)
    requires var end := f.offset + |f.data|; end <= U64_MAX && end <= rx.expected + rx.window
    requires rx.expected <= rx.readHead
    ensures var (rx', verdict) := OnStream(rx, f.offset, f.data, total, limits);
            verdict == Expected(rx, f, total, limits) && (verdict != Accepted ==> rx' == rx)
  {
    hide Deliver, Buffered;
  }

  lemma AcceptedFaithful(rx: RxStream, f: Frame, total: nat, limits: Limits, lives: seq<seq<byte>>,
                         reader: Reader, given: seq<byte>)
    requires Sound(rx) && Faithful(rx, lives) && Handed(rx, reader, given) && Ended(rx) && Carries(lives, f)
    requires Longest(lives) <= U64_MAX && Longest(lives) <= rx.expected + rx.window
    requires OnStream(rx, f.offset, f.data, total, limits).1 == Accepted
    ensures var rx' := OnStream(rx, f.offset, f.data, total, limits).0;
            && rx'.highest == Max(rx.highest, f.offset + |f.data|)
            && Faithful(rx', lives) && Handed(rx', reader, given) && Ended(rx')
  {
    hide Deliver, Buffered, Sound, Carries;
    CarriesEnd(lives, f);
    if rx.readHead < f.offset + |f.data| {
      var seen := rx.(highest := Max(rx.highest, f.offset + |f.data|));
      var offset, data := TrimmedOffset(rx.readHead, f.offset), TrimmedData(rx.readHead, f.offset, f.data);
      TrimmedCarries(lives, rx.readHead, f);
      BufferedFaithful(seen, lives, offset, data);
      SeenSound(rx, f.offset + |f.data|);
      BufferingKeepsSound(seen, offset, data);
      SoundIfOpen(Buffered(seen, offset, data));
      DeliverFaithful(Buffered(seen, offset, data), lives, reader, given);
    }
  }

  /** The verdict on a frame of a peer that keeps to its limits. */
  function Expected(rx: RxStream, f: Frame, total: nat, limits: Limits): Verdict {
    if rx.bufferSize == 0 && SaturatingAdd(total, rx.window) > limits.maxConnectionBuffer then MemoryLimit
    else if rx.final.Some? && f.offset + |f.data| > rx.final.value then PastFinalSize
    else Accepted
  }

  lemma CarriesEnd(lives: seq<seq<byte>>, f: Frame)
    requires Carries(lives, f)
    ensures f.offset + |f.data| <= Longest(lives)
  {
  }

  lemma SeenSound(rx: RxStream, end: nat)
    requires Sound(rx) && end <= U64_MAX && (rx.final.Some? ==> end <= rx.final.value)
    ensures Sound(rx.(highest := Max(rx.highest, end)))
  {
  }

  lemma SoundIfOpen(rx: RxStream)
    requires Sound(rx)
    ensures Sound(rx.(channel := rx.channel.(open := true)))
  {
  }

  lemma ReceiveKeeps(s: State, packet: Packet, total: nat, limits: Limits)
    requires Inv(s) && Enabled(s, Receive(packet, total))
    ensures Inv(Next(s, Receive(packet, total), limits))
  {
    hide Sound, Carries, Handed, OnStream, Faithful, Sum;
    CreditAfterDelivery(s);
    OnStreamFaithful(s.rx, packet.frame, total, limits, s.tx.Lives(), s.reader, s.given);
    OnStreamKeepsSound(s.rx, packet.frame.offset, packet.frame.data, total, limits);
  }

  /** A final size keeps the invariant, accepted or refused; the true one is refused only after a
      different one was accepted. */
  lemma ReceiveFinalKeeps(s: State, size: nat, limits: Limits)
    requires Inv(s) && Enabled(s, ReceiveFinal(size))
    ensures Inv(Next(s, ReceiveFinal(size), limits))
    ensures Longest(s.tx.Lives()) <= size ==>
              (OnStreamClose(s.rx, size).1 <==> s.rx.final.None? || s.rx.final == Some(size))
  {
    hide Sound, Carries, Handed, OnStreamClose, Sum;
    OnStreamCloseKeepsSound(s.rx, size);
    CloseFaithful(s.rx, size, s.tx.Lives(), s.reader, s.given);
  }

  lemma CloseFaithful(rx: RxStream, size: nat, lives: seq<seq<byte>>, reader: Reader, given: seq<byte>)
    requires Sound(rx) && Faithful(rx, lives) && Handed(rx, reader, given) && Ended(rx)
    ensures var (rx', ok) := OnStreamClose(rx, size);
            && (ok <==> rx.highest <= size && (rx.final.None? || rx.final == Some(size)))
            && rx'.expected == rx.expected && rx'.window == rx.window && rx'.highest == rx.highest
            && rx'.final == (if ok then Some(size) else rx.final)
            && Faithful(rx', lives) && Handed(rx', reader, given) && Ended(rx')
  {
    hide Sound, Handed, Deliver;
    if OnStreamClose(rx, size).1 {
      var declared := rx.(final := Some(size));
      HandedFrame(rx, declared, reader, given);
      FinalSound(rx, size);
      DeliverFaithful(declared, lives, reader, given);
    }
  }

  lemma HandedFrame(rx: RxStream, rx': RxStream, reader: Reader, given: seq<byte>)
    requires Handed(rx, reader, given) && rx'.channel.chunks == rx.channel.chunks && rx'.delivered == rx.delivered
    ensures Handed(rx', reader, given)
  {
  }

  lemma FinalSound(rx: RxStream, size: nat)
    requires Sound(rx) && rx.highest <= size
    ensures Sound(rx.(final := Some(size), channel := rx.channel.(open := true)))
  {
  }

  lemma ReadKeeps(s: State, bytes: seq<byte>, reader: Reader, chunks: seq<seq<byte>>, limits: Limits)
    requires Inv(s) && Enabled(s, Read(bytes, reader, chunks))
    ensures Inv(Next(s, Read(bytes, reader, chunks), limits))
  {
    hide Carries, Sum, Flat, Sound, Faithful, Longest, LengthOf;
    assert s.given + (bytes + (reader.current + Flat(chunks))) == s.given + bytes + (reader.current + Flat(chunks));
    ChannelOnly(s.rx, s.rx.channel.(chunks := chunks), s.tx.Lives());
  }

  lemma ChannelOnly(rx: RxStream, channel: Channel, lives: seq<seq<byte>>)
    requires Sound(rx) && Faithful(rx, lives) && channel.open == rx.channel.open
    ensures Sound(rx.(channel := channel)) && Faithful(rx.(channel := channel), lives)
  {
    hide ByteOf, Longest;
  }

  /** A report the actor processes is credited in full: the buffered count never falls short of it. */
  lemma CreditKeeps(s: State, fast: bool, total: nat, limits: Limits)
    requires Inv(s) && Enabled(s, Credit(fast, total))
    ensures Inv(Next(s, Credit(fast, total), limits))
    ensures Next(s, Credit(fast, total), limits).rx.expected == s.rx.expected + s.reader.reports[0]
  {
    hide Carries, Sound, OnRead, Flat, Faithful;
    var bytes := s.reader.reports[0];
    CreditAfterDelivery(s);
    CreditInFull(s.rx, bytes);
    OnReadKeepsSound(s.rx, bytes, fast, total, limits);
    OnReadFaithful(s.rx, bytes, fast, total, limits, s.tx.Lives(), s.reader, s.given);
  }

  lemma CreditInFull(rx: RxStream, bytes: nat)
    requires Sound(rx) && rx.expected + bytes <= rx.readHead
    ensures Min(bytes, rx.buffered) == bytes
  {
  }

  lemma OnReadFaithful(rx: RxStream, bytes: nat, fast: bool, total: nat, limits: Limits, lives: seq<seq<byte>>,
                       reader: Reader, given: seq<byte>)
    requires Sound(rx) && Faithful(rx, lives) && Handed(rx, reader, given)
    ensures var rx' := OnRead(rx, bytes, fast, total, limits).0;
            Faithful(rx', lives) && Handed(rx', reader, given) && Ended(rx')
  {
    hide Sound, Deliver, Tune, Sum;
    var consumed := Min(bytes, rx.buffered);
    var raw := rx.(buffered := rx.buffered - consumed, expected := SaturatingAdd(rx.expected, consumed));
    CreditSound(rx, consumed);
    DeliverFaithful(raw, lives, reader, given);
  }

  lemma CreditSound(rx: RxStream, consumed: nat)
    requires Sound(rx) && consumed <= rx.buffered
    ensures var raw := rx.(buffered := rx.buffered - consumed, expected := SaturatingAdd(rx.expected, consumed));
            Sound(raw.(channel := raw.channel.(open := true)))
  {
    ViewFits(rx.view, rx.readHead, rx.highest);
  }

  // ---------- every run ----------

  lemma NextKeeps(s: State, step: Step, limits: Limits)
    requires Inv(s) && Enabled(s, step)
    ensures Inv(Next(s, step, limits))
  {
    hide Inv, Next, Enabled;
    match step
    case Admit(data) => AdmitKeeps(s, data, limits);
    case SendNext => SendNextKeeps(s, limits);
    case Resend(pn, sent) => ResendKeeps(s, pn, sent, limits);
    case Retire(_) => SenderStepKeeps(s, step, limits);
    case Finish => FinishKeeps(s, limits);
    case Reopen => ReopenKeeps(s, limits);
    case ReceiveLimit(_) => SenderStepKeeps(s, step, limits);
    case DropReader => DropReaderKeeps(s, limits);
    case Receive(packet, total) => ReceiveKeeps(s, packet, total, limits);
    case ReceiveFinal(size) => ReceiveFinalKeeps(s, size, limits);
    case Read(bytes, reader, chunks) => ReadKeeps(s, bytes, reader, chunks, limits);
    case Credit(fast, total) => CreditKeeps(s, fast, total, limits);
  }

  lemma {:induction false} EveryRunKeeps(window: nat, receiverOpened: bool, steps: seq<Step>, limits: Limits)
    ensures Inv(Exec(Start(window, receiverOpened), steps, limits))
    decreases |steps|
  {
    hide Inv, Next, Enabled;
    if steps == [] {
      StartInv(window, receiverOpened);
    } else {
      EveryRunKeeps(window, receiverOpened, steps[..|steps| - 1], limits);
      var before, step := Exec(Start(window, receiverOpened), steps[..|steps| - 1], limits), steps[|steps| - 1];
      if Enabled(before, step) { NextKeeps(before, step, limits); }
    }
  }

  /** Every byte handed to the application was admitted at its offset, in some life of the sending half,
      and is handed over once and in order. */
  lemma DeliveredWasAdmitted(window: nat, receiverOpened: bool, steps: seq<Step>, limits: Limits)
    ensures var s := Exec(Start(window, receiverOpened), steps, limits);
            && s.given <= s.rx.delivered
            && s.given + s.reader.current + Flat(s.rx.channel.chunks) == s.rx.delivered
            && (forall o | 0 <= o < |s.rx.delivered| :: ByteOf(s.tx.Lives(), o, s.rx.delivered[o]))
  {
    hide Start, Exec, Sound, ByteOf;
    EveryRunKeeps(window, receiverOpened, steps, limits);
    var s := Exec(Start(window, receiverOpened), steps, limits);
    assert s.given + s.reader.current + Flat(s.rx.channel.chunks)
        == s.given + (s.reader.current + Flat(s.rx.channel.chunks));
  }

  /** Every later life only repeats what the first admitted. */
  ghost predicate Agree(tx: Sender) {
    forall i | 0 <= i < |tx.Lives()| :: tx.Lives()[i] <= tx.Admitted()
  }

  /** End-to-end safety: whatever the schedule, the application reads a prefix of what was admitted before
      the first close, as long as no later life admits anything else; in particular when none admits
      anything. */
  lemma DeliveredIsPrefix(window: nat, receiverOpened: bool, steps: seq<Step>, limits: Limits)
    ensures var s := Exec(Start(window, receiverOpened), steps, limits);
            && (s.tx.OneLife() ==> Agree(s.tx))
            && (Agree(s.tx) ==> s.given <= s.rx.delivered <= s.tx.Admitted())
  {
    hide Start, Exec;
    DeliveredWasAdmitted(window, receiverOpened, steps, limits);
    var s := Exec(Start(window, receiverOpened), steps, limits);
    if Agree(s.tx) { AgreedPrefix(s.rx.delivered, s.tx); }
  }

  lemma AgreedPrefix(delivered: seq<byte>, tx: Sender)
    requires Agree(tx) && forall o | 0 <= o < |delivered| :: ByteOf(tx.Lives(), o, delivered[o])
    ensures delivered <= tx.Admitted()
  {
    hide ByteOf, Agree;
    var a := tx.Admitted();
    if delivered != [] { AgreedByte(tx, |delivered| - 1, delivered[|delivered| - 1]); }
    forall o | 0 <= o < |delivered| ensures o < |a| && delivered[o] == a[o] { AgreedByte(tx, o, delivered[o]); }
  }

  lemma AgreedByte(tx: Sender, o: nat, b: byte)
    requires Agree(tx) && ByteOf(tx.Lives(), o, b)
    ensures o < |tx.Admitted()| && tx.Admitted()[o] == b
  {
    var i :| 0 <= i < |tx.Lives()| && o < |tx.Lives()[i]| && tx.Lives()[i][o] == b;
    assert tx.Lives()[i] <= tx.Admitted();
  }

  /** Flow control: in every life, what the sender has admitted and may still admit ends at or below the
      largest limit it heard of, whatever limits got lost, went stale or were reordered; and no packet it
      ever sent fails a check of the receiver, except for lack of connection memory or because an
      accepted final size lies below the packet's end. */
  lemma NoFlowControlError(window: nat, receiverOpened: bool, steps: seq<Step>, limits: Limits, p: Packet, total: nat)
    ensures var s := Exec(Start(window, receiverOpened), steps, limits);
            && |s.tx.current| + s.tx.window <= s.told && s.told in s.heard && s.heard <= s.limits
            && (p in s.packets ==>
                  OnStream(s.rx, p.frame.offset, p.frame.data, total, limits).1
                  == Expected(s.rx, p.frame, total, limits))
  {
    hide Start, Exec, Sound, OnStream, Carries, Faithful, Handed, Sum, Expected, Longest;
    EveryRunKeeps(window, receiverOpened, steps, limits);
    var s := Exec(Start(window, receiverOpened), steps, limits);
    CreditAfterDelivery(s);
    if p in s.packets {
      OnStreamFaithful(s.rx, p.frame, total, limits, s.tx.Lives(), s.reader, s.given);
    }
  }

  /** Receive accounting in every run: credit never runs ahead of delivery, every received byte is
      counted once, and the buffered bytes fit the window. */
  lemma AccountingHolds(window: nat, receiverOpened: bool, steps: seq<Step>, limits: Limits)
    ensures var rx := Exec(Start(window, receiverOpened), steps, limits).rx;
            && rx.expected <= rx.readHead
            && rx.expected + rx.buffered == rx.readHead + |rx.view|
            && rx.buffered <= rx.window
  {
    hide Start, Exec, Sum;
    EveryRunKeeps(window, receiverOpened, steps, limits);
    var s := Exec(Start(window, receiverOpened), steps, limits);
    CreditAfterDelivery(s);
    BufferedFitsWindow(s.rx);
  }
}
