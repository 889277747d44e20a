/**
 * All receiving streams of one connection against an arbitrary peer: any frames in any order, any
 * read reports, streams opened and removed at any time. A fatal refusal closes the connection: frames
 * are no longer handled, while the application goes on reading, opening and dropping streams.
 */
module ReceiveConnection {
  import opened Primitives
  import opened StreamReceive

  datatype Conn = Conn(streams: map<nat, RxStream>, closed: bool)

  datatype Event =
    | Open(id: nat, window: nat)
    | StreamFrame(id: nat, offset: nat, data: seq<byte>)
    | CloseFrame(id: nat, finalSize: nat)
    | ReadReport(id: nat, bytes: nat, fast: bool)
    | ChannelTaken(id: nat, chunks: seq<seq<byte>>, readerGone: bool)
    | Remove(id: nat)

  /** Sum of the allocated receive buffers. */
  ghost function Allocated(m: map<nat, RxStream>): nat {
    if m == map[] then 0
    else var k :| k in m; m[k].bufferSize + Allocated(m - {k})
  }

  /** Sum of the buffered bytes. */
  ghost function BufferedTotal(m: map<nat, RxStream>): nat {
    if m == map[] then 0
    else var k :| k in m; m[k].buffered + BufferedTotal(m - {k})
  }

  ghost function Handle(c: Conn, e: Event, limits: Limits): Conn {
    match e
    case Open(id, window) => if id in c.streams then c else c.(streams := c.streams[id := NewStream(window)])
    case StreamFrame(id, offset, data) =>
      if c.closed || id !in c.streams then c
      else
        var (rx, verdict) := OnStream(c.streams[id], offset, data, Allocated(c.streams), limits);
        Conn(c.streams[id := rx], Fatal(verdict))
    case CloseFrame(id, finalSize) =>
      if c.closed || id !in c.streams then c
      else var (rx, ok) := OnStreamClose(c.streams[id], finalSize); Conn(c.streams[id := rx], !ok)
    case ReadReport(id, bytes, fast) =>
      if id !in c.streams then c
      else c.(streams := c.streams[id := OnRead(c.streams[id], bytes, fast, Allocated(c.streams), limits).0])
    case ChannelTaken(id, chunks, readerGone) =>
      if id !in c.streams then c
      else
        var rx := c.streams[id];
        c.(streams := c.streams[id := rx.(channel := rx.channel.(chunks := chunks, readerGone := readerGone))])
    case Remove(id) => c.(streams := c.streams - {id})
  }

  ghost function Run(c: Conn, events: seq<Event>, limits: Limits): Conn {
    if events == [] then c else Handle(Run(c, events[..|events| - 1], limits), events[|events| - 1], limits)
  }

  // ---------- sums over the streams ----------

  lemma {:induction false} AllocatedWithout(m: map<nat, RxStream>, id: nat)
    requires id in m
    ensures Allocated(m) == m[id].bufferSize + Allocated(m - {id})
    decreases m.Keys
  {
    var k :| k in m && Allocated(m) == m[k].bufferSize + Allocated(m - {k});
    if k != id {
      AllocatedWithout(m - {k}, id);
      AllocatedWithout(m - {id}, k);
      assert m - {k} - {id} == m - {id} - {k};
    }
  }

  lemma AllocatedUpdate(m: map<nat, RxStream>, id: nat, rx: RxStream)
    ensures Allocated(m[id := rx]) == rx.bufferSize + Allocated(m - {id})
  {
    AllocatedWithout(m[id := rx], id);
    assert m[id := rx] - {id} == m - {id};
  }

  /** Streams that are individually sound buffer no more than they have allocated. */
  lemma {:induction false} BufferedWithinAllocated(m: map<nat, RxStream>)
    requires forall id | id in m :: Sound(m[id])
    ensures BufferedTotal(m) <= Allocated(m)
    decreases m.Keys
  {
    hide Sound;
    if m != map[] {
      var k :| k in m && BufferedTotal(m) == m[k].buffered + BufferedTotal(m - {k});
      BufferedWithinAllocated(m - {k});
      AllocatedWithout(m, k);
      BufferedWithinBuffer(m[k]);
    }
  }

  lemma BufferedWithinBuffer(rx: RxStream)
    requires Sound(rx)
    ensures rx.buffered <= rx.bufferSize
  {
    BufferedFitsWindow(rx);
  }

  // ---------- the invariant ----------

  /** The limit leaves room for its saturating comparison to fail. */
  predicate Limited(limits: Limits) { limits.maxConnectionBuffer < U64_MAX }

  ghost predicate Inv(c: Conn, limits: Limits) {
    && (forall id | id in c.streams :: Sound(c.streams[id]))
    && (Limited(limits) ==> Allocated(c.streams) <= limits.maxConnectionBuffer)
  }

  /** A frame allocates at most one window, and only when that fits. */
  lemma OnStreamAllocates(rx: RxStream, offset: nat, data: seq<byte>, total: nat, limits: Limits)
    requires rx.bufferSize == 0 || rx.bufferSize == rx.window
    ensures var rx' := OnStream(rx, offset, data, total, limits).0;
            || rx'.bufferSize == rx.bufferSize
            || (rx.bufferSize == 0 && SaturatingAdd(total, rx'.bufferSize) <= limits.maxConnectionBuffer)
  {
    hide Deliver;
  }

  /** Auto-tuning grows a buffer only as far as the connection's limit allows. */
  lemma OnReadAllocates(rx: RxStream, bytes: nat, fast: bool, total: nat, limits: Limits)
    requires rx.bufferSize == 0 || rx.bufferSize == rx.window
    ensures var rx' := OnRead(rx, bytes, fast, total, limits).0;
            || rx'.bufferSize == rx.bufferSize
            || (rx.bufferSize < rx'.bufferSize
                && SaturatingAdd(total, rx'.bufferSize - rx.bufferSize) <= limits.maxConnectionBuffer)
  {
    hide Deliver;
  }

  /** Replacing one stream keeps the connection's invariant if its buffer grew only within the limit. */
  lemma ReplaceKeeps(c: Conn, id: nat, rx: RxStream, closed: bool, limits: Limits)
    requires Inv(c, limits) && id in c.streams && Sound(rx)
    requires Limited(limits) ==>
               || rx.bufferSize <= c.streams[id].bufferSize
               || Allocated(c.streams) - c.streams[id].bufferSize + rx.bufferSize <= limits.maxConnectionBuffer
    ensures Inv(Conn(c.streams[id := rx], closed), limits)
  {
    hide Sound;
    AllocatedUpdate(c.streams, id, rx);
    AllocatedWithout(c.streams, id);
  }

  lemma BufferIsWindow(rx: RxStream)
    requires Sound(rx)
    ensures rx.bufferSize == 0 || rx.bufferSize == rx.window
  {
  }

  lemma FrameKeeps(c: Conn, e: Event, limits: Limits)
    requires Inv(c, limits) && !e.Open? && !e.Remove?
    requires e.id in c.streams && !(c.closed && (e.StreamFrame? || e.CloseFrame?))
    ensures Inv(Handle(c, e, limits), limits)
  {
    hide Sound, OnStream, OnRead, OnStreamClose, Allocated, Inv;
    assert Sound(c.streams[e.id]) by { StreamSound(c, limits, e.id); }
    var rx, total := c.streams[e.id], Allocated(c.streams);
    BufferIsWindow(rx);
    match e
    case StreamFrame(id, offset, data) =>
      OnStreamKeepsSound(rx, offset, data, total, limits);
      OnStreamAllocates(rx, offset, data, total, limits);
      var (rx', verdict) := OnStream(rx, offset, data, total, limits);
      ReplaceKeeps(c, id, rx', Fatal(verdict), limits);
    case CloseFrame(id, finalSize) =>
      OnStreamCloseKeepsSound(rx, finalSize);
      OnStreamCloseAllocates(rx, finalSize);
      var (rx', ok) := OnStreamClose(rx, finalSize);
      ReplaceKeeps(c, id, rx', !ok, limits);
    case ReadReport(id, bytes, fast) =>
      OnReadKeepsSound(rx, bytes, fast, total, limits);
      OnReadAllocates(rx, bytes, fast, total, limits);
      ReplaceKeeps(c, id, OnRead(rx, bytes, fast, total, limits).0, c.closed, limits);
    case ChannelTaken(id, chunks, gone) =>
      TakenSound(rx, chunks, gone);
      ReplaceKeeps(c, id, rx.(channel := rx.channel.(chunks := chunks, readerGone := gone)), c.closed, limits);
  }

  lemma StreamSound(c: Conn, limits: Limits, id: nat)
    requires Inv(c, limits) && id in c.streams
    ensures Sound(c.streams[id])
  {
  }

  lemma OnStreamCloseAllocates(rx: RxStream, finalSize: nat)
    ensures OnStreamClose(rx, finalSize).0.bufferSize == rx.bufferSize
  {
    hide Deliver;
  }

  lemma TakenSound(rx: RxStream, chunks: seq<seq<byte>>, gone: bool)
    requires Sound(rx)
    ensures Sound(rx.(channel := rx.channel.(chunks := chunks, readerGone := gone)))
  {
  }

  lemma OpenKeeps(c: Conn, id: nat, window: nat, limits: Limits)
    requires Inv(c, limits) && id !in c.streams
    ensures Inv(c.(streams := c.streams[id := NewStream(window)]), limits)
  {
    hide Sound, Allocated;
    AllocatedUpdate(c.streams, id, NewStream(window));
    assert c.streams - {id} == c.streams;
    NewStreamSound(window);
  }

  lemma RemoveKeeps(c: Conn, id: nat, limits: Limits)
    requires Inv(c, limits)
    ensures Inv(c.(streams := c.streams - {id}), limits)
  {
    hide Sound, Allocated;
    if id in c.streams {
      AllocatedWithout(c.streams, id);
    } else {
      assert c.streams - {id} == c.streams;
    }
  }

  lemma HandleKeeps(c: Conn, e: Event, limits: Limits)
    requires Inv(c, limits)
    ensures Inv(Handle(c, e, limits), limits)
  {
    hide Sound, OnStream, OnRead, OnStreamClose, Inv, Allocated;
    match e
    case Open(id, window) => if id !in c.streams { OpenKeeps(c, id, window, limits); }
    case Remove(id) => RemoveKeeps(c, id, limits);
    case _ =>
      if e.id in c.streams && !(c.closed && (e.StreamFrame? || e.CloseFrame?)) { FrameKeeps(c, e, limits); }
  }

  lemma NewStreamSound(window: nat)
    ensures Sound(NewStream(window))
  {
  }

  lemma {:induction false} EveryRunKeeps(events: seq<Event>, limits: Limits)
    ensures Inv(Run(Conn(map[], false), events, limits), limits)
  {
    hide Handle;
    if events != [] {
      EveryRunKeeps(events[..|events| - 1], limits);
      HandleKeeps(Run(Conn(map[], false), events[..|events| - 1], limits), events[|events| - 1], limits);
    }
  }

  /** Memory bound: in every run the allocated buffers stay within the connection's limit, and so do
      the buffered bytes; the latter never exceed the former. */
  lemma MemoryBound(events: seq<Event>, limits: Limits)
    ensures var c := Run(Conn(map[], false), events, limits);
            && BufferedTotal(c.streams) <= Allocated(c.streams)
            && (Limited(limits) ==> Allocated(c.streams) <= limits.maxConnectionBuffer)
  {
    hide Run, Sound;
    EveryRunKeeps(events, limits);
    BufferedWithinAllocated(Run(Conn(map[], false), events, limits).streams);
  }

  /** Two streams with the largest window, one byte each. */
  ghost function TwoLargest(): seq<Event> {
    [Open(0, U64_MAX), Open(1, U64_MAX), StreamFrame(0, 0, [1]), StreamFrame(1, 0, [1])]
  }

  lemma RunNext(c: Conn, events: seq<Event>, e: Event, limits: Limits)
    ensures Run(c, events + [e], limits) == Handle(Run(c, events, limits), e, limits)
  {
    hide Handle;
    assert (events + [e])[..|events|] == events;
  }

  lemma FirstByte(limits: Limits, total: nat)
    requires limits.maxConnectionBuffer == U64_MAX
    ensures var (rx, verdict) := OnStream(NewStream(U64_MAX), 0, [1], total, limits);
            verdict == Accepted && rx.bufferSize == U64_MAX
  {
    hide Deliver;
  }

  /** With the largest limit, a sum that saturates at it never exceeds it: nothing is refused. */
  lemma UnlimitedRun(limits: Limits)
    requires limits.maxConnectionBuffer == U64_MAX
    ensures Allocated(Run(Conn(map[], false), TwoLargest(), limits).streams) == 2 * U64_MAX
  {
    hide OnStream, Allocated, NewStream;
    var start := Conn(map[], false);
    var o0: Event, o1: Event := Open(0, U64_MAX), Open(1, U64_MAX);
    var f0: Event, f1: Event := StreamFrame(0, 0, [1]), StreamFrame(1, 0, [1]);
    assert Run(start, [], limits) == start;
    RunNext(start, [], o0, limits);
    RunNext(start, [o0], o1, limits);
    RunNext(start, [o0, o1], f0, limits);
    RunNext(start, [o0, o1, f0], f1, limits);
    assert [] + [o0] == [o0] && [o0] + [o1] == [o0, o1] && [o0, o1] + [f0] == [o0, o1, f0];
    assert [o0, o1, f0] + [f1] == TwoLargest();
    var s2 := Run(start, [o0, o1], limits).streams;
    FirstByte(limits, Allocated(s2));
    var s3 := Run(start, [o0, o1, f0], limits).streams;
    FirstByte(limits, Allocated(s3));
    var s4 := Run(start, TwoLargest(), limits).streams;
    assert s4.Keys == {0, 1} && s4[0].bufferSize == U64_MAX && s4[1].bufferSize == U64_MAX;
    TwoAllocated(s4);
  }

  lemma TwoAllocated(m: map<nat, RxStream>)
    requires m.Keys == {0, 1}
    ensures Allocated(m) == m[0].bufferSize + m[1].bufferSize
  {
    AllocatedWithout(m, 0);
    AllocatedWithout(m - {0}, 1);
    assert m - {0} - {1} == map[];
  }

  /** Exactly which limits are kept: every one but the largest 64-bit number. */
  lemma MemoryBoundExactly(limits: Limits)
    requires limits.maxConnectionBuffer <= U64_MAX
    ensures (forall events :: Allocated(Run(Conn(map[], false), events, limits).streams) <= limits.maxConnectionBuffer)
            <==> Limited(limits)
  {
    hide Run, Allocated;
    if Limited(limits) {
      forall events ensures Allocated(Run(Conn(map[], false), events, limits).streams) <= limits.maxConnectionBuffer {
        MemoryBound(events, limits);
      }
    } else {
      UnlimitedRun(limits);
    }
  }

  // ---------- what closes a connection ----------

  /** A frame for `rx` that the connection does not survive. An end past 64 bits is not among the causes. */
  ghost predicate Offends(rx: RxStream, e: Event, total: nat, limits: Limits) {
    match e
    case StreamFrame(_, offset, data) =>
      var end := offset + |data|;
      || (rx.bufferSize == 0 && Min(total + rx.window, U64_MAX) > limits.maxConnectionBuffer)
      || (end <= U64_MAX
          && (|| (rx.final.Some? && end > rx.final.value)
              || (end > rx.readHead && end > rx.expected + rx.window)
              || (data != [] && end > rx.readHead + rx.window)))
    case CloseFrame(_, size) => size < rx.highest || (rx.final.Some? && rx.final.value != size)
    case _ => false
  }

  /** In every run: an open connection is closed by exactly the frames that offend an existing stream,
      and a closed one stays closed and ignores frames. */
  lemma ClosesExactly(events: seq<Event>, e: Event, limits: Limits)
    ensures var c := Run(Conn(map[], false), events, limits);
            var c' := Run(Conn(map[], false), events + [e], limits);
            if c.closed then c'.closed && (e.StreamFrame? || e.CloseFrame? ==> c' == c)
            else c'.closed <==> e.id in c.streams && Offends(c.streams[e.id], e, Allocated(c.streams), limits)
  {
    hide Sound, OnStream, OnRead, Allocated, Run;
    RunNext(Conn(map[], false), events, e, limits);
    EveryRunKeeps(events, limits);
    var c := Run(Conn(map[], false), events, limits);
    if e.StreamFrame? && e.id in c.streams {
      VerdictExactly(c.streams[e.id], e.offset, e.data, Allocated(c.streams), limits);
    }
  }

  // ---------- final size ----------

  /** Stream `id` has declared final size `size`. */
  ghost predicate Declared(c: Conn, id: nat, size: nat) {
    id in c.streams && c.streams[id].final == Some(size)
  }

  lemma HandleKeepsDeclared(c: Conn, e: Event, limits: Limits, id: nat, size: nat)
    requires Inv(c, limits) && Declared(c, id, size) && e != Remove(id)
    ensures Declared(Handle(c, e, limits), id, size)
  {
    hide Sound, Deliver, Tune, Buffered, Allocated;
  }

  /** Once a final size is accepted it never changes while the stream exists, closed connection or
      not: no byte at or past it is buffered or delivered, and the application channel is closed only
      when exactly that many bytes have been delivered. */
  lemma {:induction false} FinalSizeIsFinal(c: Conn, events: seq<Event>, limits: Limits, id: nat, size: nat)
    requires Inv(c, limits) && Declared(c, id, size)
    requires Remove(id) !in events
    ensures var c' := Run(c, events, limits);
            && Inv(c', limits) && Declared(c', id, size)
            && var rx := c'.streams[id];
               && (forall o | o in rx.view :: o < size)
               && |rx.delivered| == rx.readHead <= size
               && (!rx.channel.open ==> |rx.delivered| == size)
  {
    if events != [] {
      var before, e := events[..|events| - 1], events[|events| - 1];
      FinalSizeIsFinal(c, before, limits, id, size);
      HandleKeeps(Run(c, before, limits), e, limits);
      HandleKeepsDeclared(Run(c, before, limits), e, limits, id, size);
    }
    StreamSound(Run(c, events, limits), limits, id);
  }
}
