/** The receiving half of a stream: what each frame and each read report does to it, as values. */
module StreamReceive {
  import opened Primitives
  import opened ReceivedRanges
  import opened StreamBuffer

  /** Chunks the application channel of a stream can hold. */
  const CHANNEL_CAPACITY: nat := 2048

  datatype Limits = Limits(maxStreamWindow: nat, maxConnectionBuffer: nat)

  /** The application side of a stream: the bounded queue of chunks the actor fills.
      `open` until the actor drops its sender, `readerGone` once the application dropped the reader. */
  datatype Channel = Channel(open: bool, readerGone: bool, chunks: seq<seq<byte>>)

  /** The receive state of one stream. `view` holds the bytes received at or above `readHead`,
      `delivered` every byte handed to the channel so far, `bufferSize` the bytes allocated for its buffer. */
  datatype RxStream = RxStream(
    expected: nat, window: nat, buffered: nat, highest: nat, final: Option<nat>,
    lastSentMax: nat, epochBytes: nat, bufferSize: nat,
    readHead: nat, view: map<nat, byte>, channel: Channel, delivered: seq<byte>)

  datatype Verdict = Accepted | MemoryLimit | OffsetOverflow | PastFinalSize | FlowControl | WindowExceeded

  /** The refusals that close the connection; a frame whose end overflows is only dropped. */
  predicate Fatal(v: Verdict) { v != Accepted && v != OffsetOverflow }

  /** The part of a frame at or above the read head. */
  function TrimmedOffset(head: nat, offset: nat): nat { Max(head, offset) }

  function TrimmedData(head: nat, offset: nat, data: seq<byte>): seq<byte>
    requires head <= offset + |data|
  {
    if offset < head then data[head - offset..] else data
  }

  ghost function NewStream(window: nat): RxStream {
    RxStream(0, window, 0, 0, None, window, 0, 0, 0, map[], Channel(true, false, []), [])
  }

  /** Moves the gap-free run at the read head into the channel, if a slot is free. */
  ghost function Moved(rx: RxStream): RxStream {
    var c, run := rx.channel, Run(rx.view, rx.readHead);
    if c.open && !c.readerGone && |c.chunks| < CHANNEL_CAPACITY && run != [] then
      rx.(channel := c.(chunks := c.chunks + [run]), readHead := rx.readHead + |run|,
          view := Above(rx.view, rx.readHead + |run|), delivered := rx.delivered + run)
    else rx
  }

  /** Drops the channel's sender once the read head has reached the final size. */
  ghost function Finished(rx: RxStream): RxStream {
    if rx.final.Some? && rx.readHead >= rx.final.value then rx.(channel := rx.channel.(open := false)) else rx
  }

  ghost function Deliver(rx: RxStream): (r: RxStream)
    ensures r == rx.(readHead := r.readHead, view := r.view, delivered := r.delivered, channel := r.channel)
    ensures rx.readHead <= r.readHead && rx.delivered <= r.delivered && (r.channel.open ==> rx.channel.open)
    ensures r.final.Some? && r.readHead >= r.final.value ==> !r.channel.open
  {
    Finished(Moved(rx))
  }

  /** A STREAM frame for this stream; `total` is the connection's allocated buffer size. */
  ghost function OnStream(rx: RxStream, offset: nat, data: seq<byte>, total: nat, limits: Limits)
    : (RxStream, Verdict)
  {
    var end := offset + |data|;
    if rx.bufferSize == 0 && SaturatingAdd(total, rx.window) > limits.maxConnectionBuffer then (rx, MemoryLimit)
    else if end > U64_MAX then (rx, OffsetOverflow)
    else if rx.final.Some? && end > rx.final.value then (rx, PastFinalSize)
    else
      var seen := rx.(highest := Max(rx.highest, end));
      if end <= rx.readHead then (seen, Accepted)
      else if end > SaturatingAdd(rx.expected, rx.window) then (seen, FlowControl)
      else
        var tail := TrimmedData(rx.readHead, offset, data);
        if tail != [] && end > rx.readHead + rx.window then (seen, WindowExceeded)
        else (Deliver(Buffered(seen, TrimmedOffset(rx.readHead, offset), tail)), Accepted)
  }

  /** Storing bytes in the receive buffer and counting the new ones. */
  ghost function Buffered(rx: RxStream, offset: nat, data: seq<byte>): (r: RxStream)
    ensures r == rx.(view := r.view, buffered := r.buffered, bufferSize := r.bufferSize)
  {
    var view := rx.view + Placed(offset, data);
    rx.(view := view, buffered := rx.buffered + SaturatingSub(|view|, |rx.view|),
        bufferSize := if data == [] then rx.bufferSize else rx.window)
  }

  /** A STREAM_CLOSE frame: refused when it contradicts what was received or declared before. */
  ghost function OnStreamClose(rx: RxStream, finalSize: nat): (RxStream, bool) {
    if finalSize < rx.highest || (rx.final.Some? && rx.final.value != finalSize) then (rx, false)
    else (Deliver(rx.(final := Some(finalSize))), true)
  }

  /** The application reported `bytesRead` bytes read: credit, delivery, window auto-tuning (`fast`
      says the last window update is younger than two round trips) and possibly a new limit. */
  ghost function OnRead(rx: RxStream, bytesRead: nat, fast: bool, total: nat, limits: Limits)
    : (RxStream, Option<nat>)
  {
    var consumed := Min(bytesRead, rx.buffered);
    var credited := Credited(rx, consumed);
    var tuned := if consumed > 0 then Tune(credited, consumed, fast, total, limits) else credited;
    var limit := tuned.expected + tuned.window;
    if consumed > 0 && SaturatingSub(limit, tuned.lastSentMax) >= tuned.window / 4
    then (tuned.(lastSentMax := limit), Some(limit))
    else (tuned, None)
  }

  ghost function Tune(rx: RxStream, consumed: nat, fast: bool, total: nat, limits: Limits): (r: RxStream)
    ensures r == rx.(epochBytes := r.epochBytes, window := r.window, bufferSize := r.bufferSize)
    ensures rx.window <= r.window && (rx.window == r.window ==> r.bufferSize == rx.bufferSize)
    ensures rx.window != r.window ==> r.bufferSize == if rx.bufferSize == 0 then 0 else r.window
  {
    var bytes := rx.epochBytes + consumed;
    if bytes < rx.window / 2 then rx.(epochBytes := bytes)
    else
      var wider := Min(2 * rx.window, limits.maxStreamWindow);
      if fast && wider > rx.window && SaturatingAdd(total, wider - rx.window) <= limits.maxConnectionBuffer
      then rx.(epochBytes := 0, window := wider, bufferSize := if rx.bufferSize == 0 then 0 else wider)
      else rx.(epochBytes := 0)
  }

  // ---------- what every operation keeps ----------

  /** The receive-side invariant of one stream. */
  ghost predicate Sound(rx: RxStream) {
    // every received byte is either credited to the peer again or still counted as buffered
    && rx.expected + rx.buffered == rx.readHead + |rx.view|
    && (forall o | o in rx.view :: rx.readHead <= o < rx.highest && o < rx.expected + rx.window)
    && rx.readHead <= rx.highest <= U64_MAX
    && rx.readHead <= rx.expected + rx.window
    && (rx.final.Some? ==> rx.highest <= rx.final.value)
    && |rx.delivered| == rx.readHead
    && (rx.bufferSize == 0 || rx.bufferSize == rx.window)
    && (rx.bufferSize == 0 ==> rx.buffered == 0 && rx.view == map[])
    && rx.lastSentMax <= rx.expected + rx.window
    && (!rx.channel.open ==> rx.final == Some(rx.readHead))
  }

  lemma ViewFits(view: map<nat, byte>, lo: nat, hi: nat)
    requires lo <= hi && forall o | o in view :: lo <= o < hi
    ensures |view| <= hi - lo
  {
    assert view.Keys <= Interval(lo, hi);
    SubsetSize(view.Keys, Interval(lo, hi));
  }

  /** The buffered bytes never exceed the window, which is also the buffer's capacity. */
  lemma BufferedFitsWindow(rx: RxStream)
    requires Sound(rx)
    ensures rx.buffered <= rx.window
  {
    ViewFits(rx.view, rx.readHead, rx.expected + rx.window);
  }

  /** Taking the run out of a view removes as many offsets as the run has bytes. */
  lemma RunCount(view: map<nat, byte>, head: nat, n: nat)
    requires forall o | o in view :: head <= o
    requires forall o | head <= o < head + n :: o in view
    ensures |Above(view, head + n)| == |view| - n
  {
    var rest, run := Above(view, head + n), Interval(head, head + n);
    assert view.Keys == rest.Keys + run;
    assert rest.Keys !! run;
  }

  lemma DeliverKeepsSound(rx: RxStream)
    requires Sound(rx.(channel := rx.channel.(open := true)))
    requires !rx.channel.open ==> rx.final == Some(rx.readHead)
    ensures Sound(Deliver(rx))
  {
    var run := Run(rx.view, rx.readHead);
    forall o | rx.readHead <= o < rx.readHead + |run| ensures o in rx.view {
      RunBytes(rx.view, rx.readHead, o - rx.readHead);
    }
    RunCount(rx.view, rx.readHead, |run|);
    assert run != [] ==> rx.readHead + |run| - 1 in rx.view;
  }

  lemma OnStreamKeepsSound(rx: RxStream, offset: nat, data: seq<byte>, total: nat, limits: Limits)
    requires Sound(rx)
    ensures var (rx', v) := OnStream(rx, offset, data, total, limits);
            && Sound(rx') && (v == Accepted ==> rx'.highest >= offset + |data|)
            && rx'.final == rx.final && rx'.expected == rx.expected && rx'.window == rx.window
            && rx'.lastSentMax == rx.lastSentMax
  {
    hide Deliver, Buffered;
    var end := offset + |data|;
    var (rx', v) := OnStream(rx, offset, data, total, limits);
    if v == Accepted && end > rx.readHead {
      var seen := rx.(highest := Max(rx.highest, end));
      var tail := TrimmedData(rx.readHead, offset, data);
      BufferingKeepsSound(seen, TrimmedOffset(rx.readHead, offset), tail);
      DeliverKeepsSound(Buffered(seen, TrimmedOffset(rx.readHead, offset), tail));
    }
  }

  lemma BufferingKeepsSound(rx: RxStream, offset: nat, data: seq<byte>)
    requires Sound(rx) && rx.readHead <= offset && offset + |data| <= rx.highest
    requires offset + |data| <= rx.expected + rx.window
    ensures Sound(Buffered(rx, offset, data))
  {
    var view := rx.view + Placed(offset, data);
    assert view.Keys == rx.view.Keys + Placed(offset, data).Keys;
    SubsetSize(rx.view.Keys, view.Keys);
    if data == [] { assert view == rx.view; }
  }

  lemma OnStreamCloseKeepsSound(rx: RxStream, finalSize: nat)
    requires Sound(rx)
    ensures Sound(OnStreamClose(rx, finalSize).0)
  {
    if OnStreamClose(rx, finalSize).1 {
      DeliverKeepsSound(rx.(final := Some(finalSize)));
    }
  }

  /** Crediting bytes that the application read. */
  ghost function Credited(rx: RxStream, consumed: nat): (r: RxStream)
    requires consumed <= rx.buffered
    ensures r.buffered + consumed == rx.buffered && r.final == rx.final && r.window == rx.window
  {
    Deliver(rx.(buffered := rx.buffered - consumed, expected := SaturatingAdd(rx.expected, consumed)))
  }

  /** No credit sum saturates, and crediting keeps the invariant. */
  lemma CreditKeepsSound(rx: RxStream, consumed: nat)
    requires Sound(rx) && consumed <= rx.buffered
    ensures Sound(Credited(rx, consumed)) && Credited(rx, consumed).expected == rx.expected + consumed
  {
    hide Deliver;
    ViewFits(rx.view, rx.readHead, rx.highest);
    DeliverKeepsSound(rx.(buffered := rx.buffered - consumed, expected := rx.expected + consumed));
  }

  lemma TuneKeepsSound(rx: RxStream, consumed: nat, fast: bool, total: nat, limits: Limits)
    requires Sound(rx)
    ensures Sound(Tune(rx, consumed, fast, total, limits))
  {
    hide Tune;
  }

  lemma AdvertiseKeepsSound(rx: RxStream)
    requires Sound(rx)
    ensures Sound(rx.(lastSentMax := rx.expected + rx.window))
  {
  }

  lemma OnReadKeepsSound(rx: RxStream, bytesRead: nat, fast: bool, total: nat, limits: Limits)
    requires Sound(rx)
    ensures var (rx', limit) := OnRead(rx, bytesRead, fast, total, limits);
            && Sound(rx') && rx'.final == rx.final
            && rx'.expected == rx.expected + Min(bytesRead, rx.buffered) && rx.window <= rx'.window
            && (limit.Some? ==> limit.value == rx'.expected + rx'.window)
  {
    hide Sound, Credited, Tune;
    var consumed := Min(bytesRead, rx.buffered);
    CreditKeepsSound(rx, consumed);
    var credited := Credited(rx, consumed);
    TuneKeepsSound(credited, consumed, fast, total, limits);
    AdvertiseKeepsSound(Tune(credited, consumed, fast, total, limits));
    AdvertiseKeepsSound(credited);
  }

  // ---------- what a stream holds ----------

  /** Byte `b` at offset `o` was delivered or is buffered. */
  ghost predicate Holds(rx: RxStream, o: nat, b: byte) {
    (o < |rx.delivered| && rx.delivered[o] == b) || (o in rx.view && rx.view[o] == b)
  }

  /** The read head is where delivery stopped, and everything buffered lies at or above it. */
  ghost predicate Aligned(rx: RxStream) {
    |rx.delivered| == rx.readHead && forall o | o in rx.view :: rx.readHead <= o
  }

  /** Forwarding moves bytes from the buffer to the application and loses none. */
  lemma DeliverHolds(rx: RxStream, o: nat, b: byte)
    requires Aligned(rx) && Holds(rx, o, b)
    ensures Holds(Deliver(rx), o, b)
  {
    var run := Run(rx.view, rx.readHead);
    if rx.readHead <= o < rx.readHead + |run| { RunBytes(rx.view, rx.readHead, o - rx.readHead); }
  }

  /**
   * Forwarding happens exactly when the channel is open, its reader is there and a slot of the 2048 is
   * free; then it hands over the whole run at the read head as one chunk, and the next byte is missing.
   */
  lemma ForwardsExactly(rx: RxStream)
    ensures var r, free := Deliver(rx), rx.channel.open && !rx.channel.readerGone && |rx.channel.chunks| < 2048;
            && (free ==> r.readHead !in r.view)
            && (r.readHead > rx.readHead <==> free && rx.readHead in rx.view)
            && (r.readHead > rx.readHead ==> r.channel.chunks == rx.channel.chunks + [r.delivered[|rx.delivered|..]])
            && (r.readHead == rx.readHead ==> r.channel.chunks == rx.channel.chunks)
  {
    RunStops(rx.view, rx.readHead);
  }

  lemma BufferedHolds(rx: RxStream, offset: nat, data: seq<byte>, o: nat, b: byte)
    requires Aligned(rx) && rx.readHead <= offset
    requires if offset <= o < offset + |data| then b == data[o - offset] else Holds(rx, o, b)
    ensures Holds(Buffered(rx, offset, data), o, b) && Aligned(Buffered(rx, offset, data))
  {
    hide Placed;
    PlacedAt(offset, data, o);
    forall x | x in Placed(offset, data) ensures offset <= x { PlacedAt(offset, data, x); }
  }

  lemma PlacedAt(offset: nat, data: seq<byte>, o: nat)
    ensures o in Placed(offset, data) <==> offset <= o < offset + |data|
    ensures o in Placed(offset, data) ==> Placed(offset, data)[o] == data[o - offset]
  {
  }

  /** Byte `b` is what an accepted frame brings for offset `o`, or what was there outside the frame. */
  ghost predicate Due(rx: RxStream, offset: nat, data: seq<byte>, o: nat, b: byte) {
    if Max(rx.readHead, offset) <= o < offset + |data| then b == data[o - offset] else Holds(rx, o, b)
  }

  /**
   * An accepted frame is kept: each of its bytes at or above the read head is delivered or buffered at
   * its offset afterwards, and so is every byte held before that the frame does not replace.
   */
  lemma AcceptedIsKept(rx: RxStream, offset: nat, data: seq<byte>, total: nat, limits: Limits, o: nat, b: byte)
    requires Sound(rx) && OnStream(rx, offset, data, total, limits).1 == Accepted && Due(rx, offset, data, o, b)
    ensures Holds(OnStream(rx, offset, data, total, limits).0, o, b)
  {
    hide Deliver, Buffered;
    if rx.readHead < offset + |data| {
      var seen := rx.(highest := Max(rx.highest, offset + |data|));
      var off, tail := TrimmedOffset(rx.readHead, offset), TrimmedData(rx.readHead, offset, data);
      BufferedHolds(seen, off, tail, o, b);
      DeliverHolds(Buffered(seen, off, tail), o, b);
    }
  }

  /** A refused frame leaves everything as it was, except that one past the window was still seen. */
  lemma RefusedChangesNothing(rx: RxStream, offset: nat, data: seq<byte>, total: nat, limits: Limits)
    ensures var (rx', v) := OnStream(rx, offset, data, total, limits);
            && (v in {MemoryLimit, OffsetOverflow, PastFinalSize} ==> rx' == rx)
            && (v in {FlowControl, WindowExceeded} ==> rx' == rx.(highest := Max(rx.highest, offset + |data|)))
  {
    hide Deliver, Buffered;
  }

  /** Each verdict and its cause, in the order in which the causes are looked for. */
  lemma VerdictExactly(rx: RxStream, offset: nat, data: seq<byte>, total: nat, limits: Limits)
    requires Sound(rx)
    ensures var v, end := OnStream(rx, offset, data, total, limits).1, offset + |data|;
            && (v == MemoryLimit <==>
                  rx.bufferSize == 0 && Min(total + rx.window, U64_MAX) > limits.maxConnectionBuffer)
            && (v == OffsetOverflow <==> v != MemoryLimit && end > U64_MAX)
            && (v == PastFinalSize <==>
                  v !in {MemoryLimit, OffsetOverflow} && rx.final.Some? && end > rx.final.value)
            && (v == FlowControl <==>
                  && v !in {MemoryLimit, OffsetOverflow, PastFinalSize}
                  && end > rx.readHead && end > rx.expected + rx.window)
            && (v == WindowExceeded <==>
                  v !in {MemoryLimit, OffsetOverflow, PastFinalSize, FlowControl}
                  && data != [] && end > rx.readHead + rx.window)
  {
    hide Deliver, Buffered, Sound;
  }

  // ---------- when a limit is advertised ----------

  /** The last limit sent is within a quarter of a window of what the receiver would accept. */
  predicate Advertised(rx: RxStream) {
    var limit := rx.expected + rx.window;
    limit <= rx.lastSentMax || limit - rx.lastSentMax < rx.window / 4
  }

  /** A report credits what was read, as far as it was buffered. A limit goes out with it exactly when it is
      worth a quarter of a window: more often is never, and credit worth that much is never withheld. */
  lemma OnReadAdvertises(rx: RxStream, bytesRead: nat, fast: bool, total: nat, limits: Limits)
    requires Sound(rx) && Advertised(rx)
    ensures var (rx', limit) := OnRead(rx, bytesRead, fast, total, limits);
            && Advertised(rx')
            && rx'.expected == rx.expected + Min(bytesRead, rx.buffered)
            && rx'.buffered == rx.buffered - Min(bytesRead, rx.buffered)
            && rx'.lastSentMax == (if limit.Some? then limit.value else rx.lastSentMax)
            && (limit.Some? ==> limit.value == rx'.expected + rx'.window >= rx.lastSentMax + rx'.window / 4
                                && bytesRead > 0 && rx.buffered > 0)
  {
    hide Sound, Deliver, Tune;
    OnReadKeepsSound(rx, bytesRead, fast, total, limits);
    CreditKeepsSound(rx, Min(bytesRead, rx.buffered));
    LimitBounds(OnRead(rx, bytesRead, fast, total, limits).0);
    LimitBounds(rx);
  }

  lemma LimitBounds(rx: RxStream)
    requires Sound(rx)
    ensures rx.lastSentMax <= rx.expected + rx.window
  {
  }

  /** The window grows exactly when half of it was read quickly, it is not at its limit yet, and the
      connection has room; then it doubles, as far as its limit allows. */
  lemma TunesExactly(rx: RxStream, consumed: nat, fast: bool, total: nat, limits: Limits)
    requires rx.window > 0
    ensures var r, wider := Tune(rx, consumed, fast, total, limits), Min(2 * rx.window, limits.maxStreamWindow);
            && (r.window > rx.window <==>
                  && fast && rx.epochBytes + consumed >= rx.window / 2 && rx.window < limits.maxStreamWindow
                  && Min(total + (wider - rx.window), U64_MAX) <= limits.maxConnectionBuffer)
            && (r.window > rx.window ==> r.window == wider)
            && r.epochBytes == (if rx.epochBytes + consumed >= rx.window / 2 then 0 else rx.epochBytes + consumed)
  {
  }
}
