/** The application's end of a stream: reading chunks and reporting the bytes read. */
module StreamReader {
  import opened Primitives

  ghost function Flat(chunks: seq<seq<byte>>): seq<byte> {
    if chunks == [] then [] else chunks[0] + Flat(chunks[1..])
  }

  ghost function Sum(xs: seq<nat>): nat {
    if xs == [] then 0 else xs[0] + Sum(xs[1..])
  }

  lemma {:induction false} FlatAppend(chunks: seq<seq<byte>>, c: seq<byte>)
    ensures Flat(chunks + [c]) == Flat(chunks) + c
  {
    if chunks == [] {
      assert Flat([c]) == c + Flat([c][1..]);
    } else {
      FlatAppend(chunks[1..], c);
      assert (chunks + [c])[1..] == chunks[1..] + [c];
    }
  }

  lemma {:induction false} SumAppend(xs: seq<nat>, x: nat)
    ensures Sum(xs + [x]) == Sum(xs) + x
  {
    if xs != [] {
      SumAppend(xs[1..], x);
      assert (xs + [x])[1..] == xs[1..] + [x];
    }
  }

  /** The reader's half of a stream: its partly consumed chunk, the read credit it could not report
      yet, and the reports on their way to the actor. */
  datatype Reader = Reader(current: seq<byte>, pending: nat, reports: seq<nat>)

  /**
   * What reading may do: hand the next unread bytes over, exactly once and in order, and account for
   * every byte handed over either in a report or as pending credit.
   */
  ghost predicate Takes(r: Reader, chunks: seq<seq<byte>>, r': Reader, chunks': seq<seq<byte>>, given: seq<byte>) {
    && r.current + Flat(chunks) == given + (r'.current + Flat(chunks'))
    && r'.pending + Sum(r'.reports) == r.pending + Sum(r.reports) + |given|
    && |chunks'| <= |chunks|
  }

  lemma TakesThen(r0: Reader, c0: seq<seq<byte>>, r1: Reader, c1: seq<seq<byte>>, r2: Reader, c2: seq<seq<byte>>,
                  given: seq<byte>)
    requires Takes(r0, c0, r1, c1, []) && Takes(r1, c1, r2, c2, given)
    ensures Takes(r0, c0, r2, c2, given)
  {
    assert [] + (r1.current + Flat(c1)) == r1.current + Flat(c1);
  }

  lemma TakesLength(r: Reader, r': Reader, chunks: seq<seq<byte>>, given: seq<byte>)
    requires Takes(r, chunks, r', chunks, given)
    ensures |r.current| == |given| + |r'.current|
  {
    assert |r.current + Flat(chunks)| == |given + (r'.current + Flat(chunks))|;
  }

  /** Bytes were read, the stream is over, it was cut off with an error, or nothing is there yet. */
  datatype Outcome = Ready | End | Error | Pending

  class ZtStream {
    const sendOnly: bool
    var currentReadChunk: Option<seq<byte>>
    var pendingReadCredit: nat
    var receiver: seq<seq<byte>>
    var reports: seq<nat>
    /** The actor dropped its end of the channel, and whether it left a termination reason. */
    var ended: bool
    var terminated: bool

    /** The answer when neither the current chunk nor the channel holds anything. */
    function Nothing(): Outcome
      reads this`ended, this`terminated
    {
      if sendOnly then End else if !ended then Pending else if terminated then Error else End
    }

    ghost function Abs(): Reader
      reads this
    {
      Reader(if currentReadChunk.Some? then currentReadChunk.value else [], pendingReadCredit, reports)
    }

    method Report(bytesRead: nat)
      modifies this`reports
      ensures reports == old(reports) + [bytesRead]
      ensures Sum(reports) == old(Sum(reports)) + bytesRead
    {
      SumAppend(reports, bytesRead);
      reports := reports + [bytesRead];
    }

    /** The next whole chunk; `Pending` is where the source waits for one. */
    method Recv() returns (given: seq<byte>, outcome: Outcome)
      modifies this`currentReadChunk, this`receiver, this`reports
      ensures Takes(old(Abs()), old(receiver), Abs(), receiver, given)
      ensures outcome != Ready ==> given == []
      ensures outcome != Ready && !sendOnly ==> receiver == [] && Abs().current == []
      ensures outcome == Pending ==> !ended
      ensures outcome == Error ==> ended && terminated
      ensures outcome == End ==> sendOnly || (ended && !terminated)
      ensures sendOnly ==> outcome == End && Abs() == old(Abs()) && receiver == old(receiver)
      ensures outcome == Ready <==> !sendOnly && (old(Abs()).current != [] || old(receiver) != [])
      ensures outcome == Ready ==>
                if old(Abs()).current != [] then given == old(Abs()).current
                else old(receiver) != [] && given == old(receiver)[0]
    {
      if sendOnly {
        return [], End;
      }
      if currentReadChunk.Some? {
        var chunk := currentReadChunk.value;
        currentReadChunk := None;
        if |chunk| > 0 {
          Report(|chunk|);
          return chunk, Ready;
        }
      }
      if receiver == [] {
        return [], Nothing();
      }
      var chunk := receiver[0];
      receiver := receiver[1..];
      Report(|chunk|);
      return chunk, Ready;
    }

    /** Reports the pending credit if the actor's inbox accepts it. */
    method TryReport(accepted: bool)
      modifies this`pendingReadCredit, this`reports
      ensures pendingReadCredit + Sum(reports) == old(pendingReadCredit + Sum(reports))
      ensures if accepted then pendingReadCredit == 0 else reports == old(reports)
    {
      if accepted {
        Report(pendingReadCredit);
        pendingReadCredit := 0;
      }
    }

    /** Copies up to `room` bytes of the current chunk out. */
    method Consume(room: nat, accepted: bool) returns (given: seq<byte>)
      requires currentReadChunk.Some?
      modifies this`currentReadChunk, this`pendingReadCredit, this`reports
      ensures Takes(old(Abs()), receiver, Abs(), receiver, given)
      ensures |given| == Min(|old(Abs()).current|, room)
      ensures if accepted then pendingReadCredit == 0 else reports == old(reports)
    {
      hide Flat, Sum;
      var chunk := currentReadChunk.value;
      var amt := Min(|chunk|, room);
      given := chunk[..amt];
      assert chunk + Flat(receiver) == given + (chunk[amt..] + Flat(receiver));
      currentReadChunk := Some(chunk[amt..]);
      pendingReadCredit := pendingReadCredit + amt;
      TryReport(accepted);
    }

    /** Copies up to `room` bytes out; `accepted0` and `accepted1` say whether the two reports this call
        may send fit into the actor's inbox. */
    method PollRead(room: nat, accepted0: bool, accepted1: bool) returns (given: seq<byte>, outcome: Outcome)
      modifies this`currentReadChunk, this`receiver, this`reports, this`pendingReadCredit
      ensures Takes(old(Abs()), old(receiver), Abs(), receiver, given)
      ensures outcome != Ready ==> given == []
      ensures outcome != Ready && !sendOnly ==> receiver == [] && Abs().current == []
      ensures outcome == Pending ==> !ended
      ensures outcome == Error ==> ended && terminated
      ensures outcome == End ==> sendOnly || (ended && !terminated)
      ensures outcome == Ready ==> |given| == Min(|given| + |Abs().current|, room) && given + Abs().current != []
      ensures !sendOnly && (if outcome == Ready then accepted1 else accepted0) ==> pendingReadCredit == 0
      ensures !accepted0 && !accepted1 ==> reports == old(reports)
      ensures sendOnly ==> outcome == End && Abs() == old(Abs()) && receiver == old(receiver)
    {
      hide Takes;
      if sendOnly {
        NothingTaken(Abs(), receiver);
        return [], End;
      }
      ghost var r0, c0 := Abs(), receiver;
      if pendingReadCredit > 0 {
        TryReport(accepted0);
      }
      ghost var r1 := Abs();
      CreditMoved(r0, r1, c0);
      var filled := Fill();
      TakesThen(r0, c0, r1, c0, Abs(), receiver, []);
      if !filled {
        return [], Nothing();
      }
      ghost var r2, c2 := Abs(), receiver;
      given := Consume(room, accepted1);
      TakesThen(r0, c0, r2, c2, Abs(), receiver, given);
      TakesLength(r2, Abs(), receiver, given);
      return given, Ready;
    }

    /** Drops empty chunks and takes chunks off the channel until one has bytes or none is left. */
    method Fill() returns (filled: bool)
      modifies this`currentReadChunk, this`receiver
      ensures Takes(old(Abs()), old(receiver), Abs(), receiver, [])
      ensures filled ==> currentReadChunk.Some? && |currentReadChunk.value| > 0
      ensures !filled ==> receiver == [] && Abs().current == []
    {
      hide Takes;
      NothingTaken(Abs(), receiver);
      while true
        invariant Takes(old(Abs()), old(receiver), Abs(), receiver, [])
        decreases |receiver|, currentReadChunk.Some?
      {
        if currentReadChunk.Some? {
          if |currentReadChunk.value| > 0 {
            return true;
          }
          currentReadChunk := None;
        }
        if receiver == [] {
          return false;
        }
        ChunkTaken(Abs(), receiver);
        TakesThen(old(Abs()), old(receiver), Abs(), receiver, Abs().(current := receiver[0]), receiver[1..], []);
        currentReadChunk := Some(receiver[0]);
        receiver := receiver[1..];
      }
    }
  }

  lemma ChunkTaken(r: Reader, chunks: seq<seq<byte>>)
    requires r.current == [] && chunks != []
    ensures Takes(r, chunks, r.(current := chunks[0]), chunks[1..], [])
  {
    assert [] + Flat(chunks) == [] + (chunks[0] + Flat(chunks[1..]));
  }

  lemma NothingTaken(r: Reader, chunks: seq<seq<byte>>)
    ensures Takes(r, chunks, r, chunks, [])
  {
  }

  lemma CreditMoved(r: Reader, r': Reader, chunks: seq<seq<byte>>)
    requires r'.current == r.current && r'.pending + Sum(r'.reports) == r.pending + Sum(r.reports)
    ensures Takes(r, chunks, r', chunks, [])
  {
  }
}
