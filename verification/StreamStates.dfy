/** The receiving half of a stream as the connection actor holds it: an object updated in place. */
module StreamStates {
  import opened Primitives
  import opened ReceivedRanges
  import opened StreamBuffer
  import opened StreamReceive

  class StreamState {
    var expectedRxOffset: nat
    var windowSize: nat
    var bufferedBytes: nat
    var highestRxOffset: nat
    var finalRxOffset: Option<nat>
    var lastSentMaxData: nat
    var bytesReadInEpoch: nat
    var channel: Channel
    const receiveBuffer: StreamReceiveBuffer
    ghost var delivered: seq<byte>

    ghost predicate Valid()
      reads this, receiveBuffer, receiveBuffer.buffer
    {
      receiveBuffer.Valid() && receiveBuffer.capacity == windowSize && expectedRxOffset <= U64_MAX
    }

    /** The value this object stands for. */
    ghost function Abs(): RxStream
      requires Valid()
      reads this, receiveBuffer, receiveBuffer.buffer
    {
      RxStream(expectedRxOffset, windowSize, bufferedBytes, highestRxOffset, finalRxOffset, lastSentMaxData,
               bytesReadInEpoch, receiveBuffer.buffer.Length, receiveBuffer.readHead, receiveBuffer.View(),
               channel, delivered)
    }

    constructor (receiveWindow: nat)
      ensures Valid() && fresh(receiveBuffer) && fresh(receiveBuffer.buffer)
      ensures Abs() == NewStream(receiveWindow) && Sound(Abs())
    {
      expectedRxOffset, bufferedBytes, highestRxOffset, bytesReadInEpoch := 0, 0, 0, 0;
      windowSize, lastSentMaxData := receiveWindow, receiveWindow;
      finalRxOffset := None;
      channel := Channel(true, false, []);
      receiveBuffer := new StreamReceiveBuffer(receiveWindow);
      delivered := [];
    }

    /** The forwarding loop: at most one chunk goes out, because it takes the whole run. */
    method Drain()
      requires Valid()
      modifies this`channel, this`delivered, receiveBuffer
      ensures Valid() && receiveBuffer.buffer == old(receiveBuffer.buffer)
      ensures Abs() == Deliver(old(Abs()))
    {
      hide ViewOf, Run, Above, StreamReceiveBuffer.Valid;
      ghost var rx := Abs();
      while channel.open && !channel.readerGone && |channel.chunks| < CHANNEL_CAPACITY
        invariant Valid() && receiveBuffer.buffer == old(receiveBuffer.buffer)
        invariant Abs() == rx || (Abs() == Moved(rx) && Run(Abs().view, Abs().readHead) == [])
        decreases Run(Abs().view, Abs().readHead) != []
      {
        ghost var before := Abs();
        RunAfter(before.view, before.readHead);
        var chunk := receiveBuffer.ReadContiguous();
        if chunk.None? {
          break;
        }
        channel := channel.(chunks := channel.chunks + [chunk.value]);
        delivered := delivered + chunk.value;
      }
      if finalRxOffset.Some? && receiveBuffer.readHead >= finalRxOffset.value {
        channel := channel.(open := false);
      }
    }

    /** Read credit, forwarding, window auto-tuning and the advertised limit. */
    method ForwardStreamData(bytesRead: nat, fast: bool, total: nat, limits: Limits) returns (limit: Option<nat>)
      requires Valid()
      modifies this, receiveBuffer
      ensures Valid() && (receiveBuffer.buffer == old(receiveBuffer.buffer) || fresh(receiveBuffer.buffer))
      ensures (Abs(), limit) == OnRead(old(Abs()), bytesRead, fast, total, limits)
    {
      hide ViewOf, Deliver, StreamReceiveBuffer.Valid;
      var consumed := Min(bytesRead, bufferedBytes);
      bufferedBytes := bufferedBytes - consumed;
      expectedRxOffset := SaturatingAdd(expectedRxOffset, consumed);
      Drain();
      assert Abs() == Credited(old(Abs()), consumed);
      if consumed > 0 {
        TuneWindow(consumed, fast, total, limits);
      }
      var maxData := expectedRxOffset + windowSize;
      if consumed > 0 && SaturatingSub(maxData, lastSentMaxData) >= windowSize / 4 {
        lastSentMaxData := maxData;
        return Some(maxData);
      }
      return None;
    }

    method TuneWindow(consumed: nat, fast: bool, total: nat, limits: Limits)
      requires Valid()
      modifies this`bytesReadInEpoch, this`windowSize, receiveBuffer
      ensures Valid() && (receiveBuffer.buffer == old(receiveBuffer.buffer) || fresh(receiveBuffer.buffer))
      ensures Abs() == Tune(old(Abs()), consumed, fast, total, limits)
    {
      hide ViewOf;
      bytesReadInEpoch := bytesReadInEpoch + consumed;
      if bytesReadInEpoch >= windowSize / 2 {
        bytesReadInEpoch := 0;
        var newWindow := Min(windowSize * 2, limits.maxStreamWindow);
        if fast && newWindow > windowSize {
          if SaturatingAdd(total, newWindow - windowSize) <= limits.maxConnectionBuffer {
            receiveBuffer.Resize(newWindow);
            windowSize := newWindow;
          }
        }
      }
    }

    /** A STREAM frame of a stream that exists. */
    method HandleStream(offset: nat, data: seq<byte>, total: nat, limits: Limits) returns (verdict: Verdict)
      requires Valid()
      modifies this, receiveBuffer, receiveBuffer.buffer
      ensures Valid() && (receiveBuffer.buffer == old(receiveBuffer.buffer) || fresh(receiveBuffer.buffer))
      ensures (Abs(), verdict) == OnStream(old(Abs()), offset, data, total, limits)
    {
      hide ViewOf, Deliver, Buffered, StreamReceiveBuffer.Valid;
      if receiveBuffer.buffer.Length == 0 && SaturatingAdd(total, windowSize) > limits.maxConnectionBuffer {
        return MemoryLimit;
      }
      var endOffset := offset + |data|;
      if endOffset > U64_MAX {
        return OffsetOverflow;
      }
      if finalRxOffset.Some? && endOffset > finalRxOffset.value {
        return PastFinalSize;
      }
      highestRxOffset := Max(highestRxOffset, endOffset);
      var head := receiveBuffer.readHead;
      if endOffset <= head {
        return Accepted;
      }
      if endOffset > SaturatingAdd(expectedRxOffset, windowSize) {
        return FlowControl;
      }
      var ok := BufferData(TrimmedOffset(head, offset), TrimmedData(head, offset, data));
      if !ok {
        return WindowExceeded;
      }
      var limit := ForwardStreamData(0, false, total, limits);
      return Accepted;
    }

    /** Stores the trimmed part of a frame; refused exactly when it ends past the buffer. */
    method BufferData(offset: nat, data: seq<byte>) returns (ok: bool)
      requires Valid() && receiveBuffer.readHead <= offset && offset + |data| <= U64_MAX
      modifies this`bufferedBytes, receiveBuffer, receiveBuffer.buffer
      ensures Valid() && (receiveBuffer.buffer == old(receiveBuffer.buffer) || fresh(receiveBuffer.buffer))
      ensures ok <==> data == [] || offset + |data| <= receiveBuffer.readHead + windowSize
      ensures Abs() == if ok then Buffered(old(Abs()), offset, data) else old(Abs())
    {
      hide ViewOf, Placed, StreamReceiveBuffer.Valid;
      if data == [] {
        NothingPlaced(offset);
        return true;
      }
      var added := receiveBuffer.Write(offset, data);
      match added {
        case None => return false;
        case Some(n) => bufferedBytes := bufferedBytes + n;
      }
      return true;
    }

    /** A STREAM_CLOSE frame of a stream that exists. */
    method HandleStreamClose(finalSize: nat) returns (ok: bool)
      requires Valid()
      modifies this, receiveBuffer
      ensures Valid() && (receiveBuffer.buffer == old(receiveBuffer.buffer) || fresh(receiveBuffer.buffer))
      ensures (Abs(), ok) == OnStreamClose(old(Abs()), finalSize)
    {
      hide ViewOf, Deliver;
      if finalSize < highestRxOffset || (finalRxOffset.Some? && finalRxOffset.value != finalSize) {
        return false;
      }
      finalRxOffset := Some(finalSize);
      var limit := ForwardStreamData(0, false, 0, Limits(0, 0));
      return true;
    }
  }
}
