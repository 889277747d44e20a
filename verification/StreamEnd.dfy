/**
 * How a stream ends, over every run of `Delivery`: exactly when the receiver takes a declared size for
 * final, exactly when it refuses what an honest peer sent and closes the connection, and exactly when
 * the application sees the end too early.
 */
module StreamEnd {
  import opened Primitives
  import opened StreamBuffer
  import opened StreamReceive
  import opened StreamReader
  import opened Delivery

  // ---------- what the arrivals say ----------

  /** Size `x` cannot be final for a stream of which `y` arrived: data past it, or another size. */
  predicate Clash(x: Arrival, y: Arrival) {
    x.Final? && ((y.Data? && y.end > x.size) || (y.Final? && y.size != x.size))
  }

  ghost predicate ClashesWith(a: seq<Arrival>, x: Arrival) {
    exists y :: y in a && Clash(x, y)
  }

  /** Two of the arrivals contradict each other, in whichever order they came. */
  ghost predicate Contradicts(a: seq<Arrival>) {
    exists x, y :: x in a && y in a && Clash(x, y)
  }

  /** The first declared size that nothing before it contradicts. */
  ghost function Settled(a: seq<Arrival>): Option<nat> {
    if a == [] then None
    else
      var init, last := a[..|a| - 1], a[|a| - 1];
      if Settled(init).Some? then Settled(init)
      else if last.Final? && !ClashesWith(init, last) then Some(last.size)
      else None
  }

  lemma SettledNext(a: seq<Arrival>, x: Arrival)
    ensures Settled(a + [x]) == (if Settled(a).Some? then Settled(a)
                                 else if x.Final? && !ClashesWith(a, x) then Some(x.size) else None)
  {
    assert (a + [x])[..|a|] == a;
  }

  lemma ContradictsNext(a: seq<Arrival>, x: Arrival)
    requires !Contradicts(a)
    ensures Contradicts(a + [x]) <==> ClashesWith(a, x) || exists y :: y in a && Clash(y, x)
  {
    hide Clash;
    var a' := a + [x];
    assert forall z :: z in a' <==> z in a || z == x;
    assert !Clash(x, x) by { NoSelfClash(x); }
    if y :| y in a && Clash(x, y) { assert x in a' && y in a'; }
    if y :| y in a && Clash(y, x) { assert x in a' && y in a'; }
  }

  lemma NoSelfClash(x: Arrival)
    ensures !Clash(x, x)
  {
  }

  /** While the connection is open, the arrivals decide the highest offset and the final size. */
  ghost predicate Heard(rx: RxStream, a: seq<Arrival>) {
    && (forall x | x in a :: if x.Data? then x.end <= rx.highest else rx.final == Some(x.size))
    && (rx.highest > 0 ==> Data(rx.highest) in a)
    && (rx.final.Some? ==> Final(rx.final.value) in a)
    && (rx.final.Some? ==> rx.highest <= rx.final.value)
    && Settled(a) == rx.final
  }

  lemma HeardIsConsistent(rx: RxStream, a: seq<Arrival>)
    requires Heard(rx, a)
    ensures !Contradicts(a)
  {
  }

  ghost predicate Told(s: State) {
    && (!s.failed ==> Heard(s.rx, s.arrivals) && !s.noMemory)
    && (s.failed <==> s.noMemory || Contradicts(s.arrivals))
    && Settled(s.arrivals) == s.rx.final
  }

  // ---------- one arrival ----------

  /** Data is refused exactly when it contradicts what was heard before. */
  lemma DataHeard(rx: RxStream, rx': RxStream, end: nat, a: seq<Arrival>)
    requires Heard(rx, a) && rx'.final == rx.final
    ensures Contradicts(a + [Data(end)]) <==> rx.final.Some? && end > rx.final.value
    ensures rx'.highest == Max(rx.highest, end) && !Contradicts(a + [Data(end)]) ==> Heard(rx', a + [Data(end)])
    ensures Settled(a + [Data(end)]) == rx.final
  {
    hide Settled, Contradicts;
    var x := Data(end);
    HeardIsConsistent(rx, a);
    ContradictsNext(a, x);
    SettledNext(a, x);
    if rx.final.Some? && end > rx.final.value { assert Final(rx.final.value) in a && Clash(Final(rx.final.value), x); }
    if rx'.highest == Max(rx.highest, end) && !Contradicts(a + [x]) { assert Data(rx'.highest) in a + [x] || end == 0; }
  }

  /** A size is refused exactly when it contradicts what was heard before. */
  lemma FinalHeard(rx: RxStream, rx': RxStream, size: nat, a: seq<Arrival>)
    requires Heard(rx, a) && rx'.highest == rx.highest
    ensures var ok := rx.highest <= size && (rx.final.None? || rx.final == Some(size));
            && (Contradicts(a + [Final(size)]) <==> !ok)
            && (ok && rx'.final == Some(size) ==> Heard(rx', a + [Final(size)]))
            && (!ok && rx'.final == rx.final ==> Settled(a + [Final(size)]) == rx'.final)
  {
    hide Settled, Contradicts;
    var x := Final(size);
    HeardIsConsistent(rx, a);
    ContradictsNext(a, x);
    SettledNext(a, x);
    if rx.highest > size { assert Data(rx.highest) in a && Clash(x, Data(rx.highest)); }
    if rx.final.Some? && rx.final.value != size {
      assert Final(rx.final.value) in a && Clash(x, Final(rx.final.value));
    }
  }

  // ---------- every run ----------

  lemma ReceiveTells(s: State, packet: Packet, total: nat, limits: Limits)
    requires Inv(s) && Told(s) && Enabled(s, Receive(packet, total))
    ensures Told(Next(s, Receive(packet, total), limits))
  {
    hide Sound, Handed, OnStream, Sum, Heard, Contradicts, Settled, Faithful, Carries, Longest;
    if packet.pn !in s.processed {
      var f := packet.frame;
      CreditAfterDelivery(s);
      OnStreamFaithful(s.rx, f, total, limits, s.tx.Lives(), s.reader, s.given);
      OnStreamKeepsSound(s.rx, f.offset, f.data, total, limits);
      DataHeard(s.rx, OnStream(s.rx, f.offset, f.data, total, limits).0, f.offset + |f.data|, s.arrivals);
    }
  }

  lemma ReceiveFinalTells(s: State, size: nat, limits: Limits)
    requires Inv(s) && Told(s) && Enabled(s, ReceiveFinal(size))
    ensures Told(Next(s, ReceiveFinal(size), limits))
  {
    hide Sound, Handed, OnStreamClose, Sum, Heard, Contradicts, Settled, Faithful, Carries, Longest;
    if s.present {
      CloseFaithful(s.rx, size, s.tx.Lives(), s.reader, s.given);
      FinalHeard(s.rx, OnStreamClose(s.rx, size).0, size, s.arrivals);
      HeardSettled(OnStreamClose(s.rx, size).0, s.arrivals + [Final(size)]);
    }
  }

  lemma HeardSettled(rx: RxStream, a: seq<Arrival>)
    ensures Heard(rx, a) ==> Settled(a) == rx.final
  {
  }

  lemma CreditTells(s: State, fast: bool, total: nat, limits: Limits)
    requires Inv(s) && Told(s) && Enabled(s, Credit(fast, total))
    ensures Told(Next(s, Credit(fast, total), limits))
  {
    hide Inv, OnRead, Contradicts, Settled;
    OnReadKeepsEnds(s.rx, s.reader.reports[0], fast, total, limits);
  }

  lemma OnReadKeepsEnds(rx: RxStream, bytes: nat, fast: bool, total: nat, limits: Limits)
    ensures var rx' := OnRead(rx, bytes, fast, total, limits).0; rx'.final == rx.final && rx'.highest == rx.highest
  {
    hide Deliver, Tune;
  }

  lemma NextTells(s: State, step: Step, limits: Limits)
    requires Inv(s) && Told(s) && Enabled(s, step)
    ensures Told(Next(s, step, limits))
  {
    hide Inv, Contradicts, Settled;
    match step
    case Receive(packet, total) => ReceiveTells(s, packet, total, limits);
    case ReceiveFinal(size) => ReceiveFinalTells(s, size, limits);
    case Credit(fast, total) => CreditTells(s, fast, total, limits);
    case _ =>
  }

  lemma {:induction false} EveryRunTells(window: nat, receiverOpened: bool, steps: seq<Step>, limits: Limits)
    ensures Told(Exec(Start(window, receiverOpened), steps, limits))
    decreases |steps|
  {
    hide Inv, Next, Enabled;
    if steps != [] {
      var before, step := Exec(Start(window, receiverOpened), steps[..|steps| - 1], limits), steps[|steps| - 1];
      EveryRunTells(window, receiverOpened, steps[..|steps| - 1], limits);
      EveryRunKeeps(window, receiverOpened, steps[..|steps| - 1], limits);
      if Enabled(before, step) { NextTells(before, step, limits); }
    }
  }

  /** In every run the receiver closes the connection exactly when it lacked memory for a stream's
      buffer, or when two things the honest sender sent contradict each other. */
  lemma RefusedExactly(window: nat, receiverOpened: bool, steps: seq<Step>, limits: Limits)
    ensures var s := Exec(Start(window, receiverOpened), steps, limits);
            s.failed <==> s.noMemory || Contradicts(s.arrivals)
  {
    hide Start, Exec, Heard, Contradicts, Settled;
    EveryRunTells(window, receiverOpened, steps, limits);
  }

  /** In every run the application channel is closed exactly when as many bytes were delivered as the
      first uncontradicted size says. */
  lemma ClosedExactly(window: nat, receiverOpened: bool, steps: seq<Step>, limits: Limits)
    ensures var s := Exec(Start(window, receiverOpened), steps, limits);
            !s.rx.channel.open <==> Settled(s.arrivals) == Some(|s.rx.delivered|)
  {
    hide Start, Exec, Heard, Contradicts, Settled;
    EveryRunKeeps(window, receiverOpened, steps, limits);
    EveryRunTells(window, receiverOpened, steps, limits);
  }

  /** Data was admitted, and size 0 is what the receiver takes for final. */
  ghost predicate ZeroSettled(s: State) {
    s.tx.Admitted() != [] && Settled(s.arrivals) == Some(0)
  }

  lemma OneLifeFinals(s: State)
    requires Inv(s) && s.tx.OneLife()
    ensures forall f | f in s.finals :: f == 0 || f == |s.tx.Admitted()|
    ensures Longest(s.tx.Lives()) == |s.tx.Admitted()|
  {
    hide Sound, Faithful, Handed, Accounted, Ended;
    LongestIs(s.tx.Lives(), |s.tx.Admitted()|);
    var closed := s.tx.Closed();
    forall f | f in s.finals ensures f == 0 || f == |s.tx.Admitted()| {
      if f != 0 {
        var i :| 0 <= i < |closed| && |closed[i]| == f;
        assert closed[i] == s.tx.Lives()[i];
      }
    }
  }

  /**
   * In every run in which nothing was admitted after the sending half was created again: the channel is
   * closed only after everything admitted was delivered, exactly unless the receiver settled on size 0;
   * then it is closed with nothing delivered.
   */
  lemma ClosedOnlyWhenComplete(window: nat, receiverOpened: bool, steps: seq<Step>, limits: Limits)
    requires Exec(Start(window, receiverOpened), steps, limits).tx.OneLife()
    ensures var s := Exec(Start(window, receiverOpened), steps, limits);
            && ((!s.rx.channel.open ==> s.rx.delivered == s.tx.Admitted()) <==> !ZeroSettled(s))
            && (ZeroSettled(s) ==> !s.rx.channel.open && s.rx.delivered == [])
  {
    hide Start, Exec, Heard, Contradicts, Settled, Carries, ByteOf, Longest;
    var s := Exec(Start(window, receiverOpened), steps, limits);
    EveryRunKeeps(window, receiverOpened, steps, limits);
    EveryRunTells(window, receiverOpened, steps, limits);
    DeliveredIsPrefix(window, receiverOpened, steps, limits);
    OneLifeFinals(s);
  }

  /** What arrived was sent: data within some life, and declared sizes. */
  ghost predicate Genuine(s: State) {
    forall x | x in s.arrivals :: if x.Data? then x.end <= Longest(s.tx.Lives()) else x.size in s.finals
  }

  lemma GenuineNext(s: State, step: Step, limits: Limits)
    requires Inv(s) && Genuine(s) && Enabled(s, step)
    ensures Genuine(Next(s, step, limits))
  {
    hide Sound, Faithful, Handed, Accounted, Ended, OnStream, OnStreamClose, OnRead, Longest, ByteOf, LengthOf;
    var s' := Next(s, step, limits);
    match step
    case Admit(data) =>
      assert Extends(s.tx.Lives(), s'.tx.Lives());
      LongestGrows(s.tx.Lives(), s'.tx.Lives());
    case Reopen =>
      assert Extends(s.tx.Lives(), s'.tx.Lives());
      LongestGrows(s.tx.Lives(), s'.tx.Lives());
    case _ =>
  }

  lemma {:induction false} EveryRunGenuine(window: nat, receiverOpened: bool, steps: seq<Step>, limits: Limits)
    ensures Genuine(Exec(Start(window, receiverOpened), steps, limits))
    decreases |steps|
  {
    hide Inv, Next, Enabled;
    if steps != [] {
      var before, step := Exec(Start(window, receiverOpened), steps[..|steps| - 1], limits), steps[|steps| - 1];
      EveryRunGenuine(window, receiverOpened, steps[..|steps| - 1], limits);
      EveryRunKeeps(window, receiverOpened, steps[..|steps| - 1], limits);
      if Enabled(before, step) { GenuineNext(before, step, limits); }
    }
  }

  /** A sender that admits nothing after its first close and declares nothing but the true size is never
      refused, memory apart, and never ends early. */
  lemma ClosedOnceIsSafe(window: nat, receiverOpened: bool, steps: seq<Step>, limits: Limits)
    requires var s := Exec(Start(window, receiverOpened), steps, limits);
             s.tx.OneLife() && s.finals <= {|s.tx.Admitted()|}
    ensures var s := Exec(Start(window, receiverOpened), steps, limits);
            && (!s.rx.channel.open ==> s.rx.delivered == s.tx.Admitted())
            && (s.failed ==> s.noMemory)
  {
    hide Start, Exec, Heard, Settled, Longest;
    var s := Exec(Start(window, receiverOpened), steps, limits);
    EveryRunKeeps(window, receiverOpened, steps, limits);
    EveryRunTells(window, receiverOpened, steps, limits);
    EveryRunGenuine(window, receiverOpened, steps, limits);
    OneLifeFinals(s);
    ClosedOnlyWhenComplete(window, receiverOpened, steps, limits);
  }

  // ---------- runs that end badly ----------

  lemma ExecNext(s: State, steps: seq<Step>, step: Step, limits: Limits)
    ensures var before := Exec(s, steps, limits);
            Exec(s, steps + [step], limits) == if Enabled(before, step) then Next(before, step, limits) else before
  {
    hide Enabled, Next;
    assert (steps + [step])[..|steps|] == steps;
  }

  /** One byte is admitted and sent, and the stream is closed. */
  ghost function Closing(): seq<Step> { [Admit([7]), SendNext, Finish] }

  ghost predicate JustClosed(s: State, window: nat, receiverOpened: bool) {
    && s.tx == Sender([], [7], false, s.tx.window, [], s.tx.unacked, 1)
    && s.packets == {Packet(0, Frame(0, [7]))} && s.finals == {1} && s.initial == window
    && s.rx == NewStream(window) && s.present == s.receiverOpened == receiverOpened
    && !s.failed && s.processed == {} && s.arrivals == []
  }

  lemma ClosingState(window: nat, receiverOpened: bool, limits: Limits)
    requires 0 < window
    ensures JustClosed(Exec(Start(window, receiverOpened), Closing(), limits), window, receiverOpened)
  {
    var start := Start(window, receiverOpened);
    var a: Step, n: Step, f: Step := Admit([7]), SendNext, Finish;
    assert Exec(start, [], limits) == start;
    ExecNext(start, [], a, limits);
    ExecNext(start, [a], n, limits);
    ExecNext(start, [a, n], f, limits);
    assert [] + [a] == [a] && [a] + [n] == [a, n] && [a, n] + [f] == Closing();
  }

  /** On a stream the receiver opened, the second close's 0 overtakes the data: the application sees the
      end of an empty stream although a byte was admitted and the connection is fine. */
  lemma EarlyEndRun(window: nat, limits: Limits)
    requires 0 < window
    ensures var s := Exec(Start(window, true), Closing() + [Finish] + [ReceiveFinal(0)], limits);
            && s.tx.OneLife() && s.tx.Admitted() == [7] && !s.failed
            && !s.rx.channel.open && s.rx.delivered == []
  {
    hide Run;
    ClosingState(window, true, limits);
    ExecNext(Start(window, true), Closing(), Finish, limits);
    ExecNext(Start(window, true), Closing() + [Finish], ReceiveFinal(0), limits);
    NothingToRun();
  }

  lemma NothingToRun()
    ensures Run(map[], 0) == []
  {
  }

  /** The data arrives first, then the 0: the receiver closes the connection. */
  lemma RefusedRun(window: nat, limits: Limits)
    requires 0 < window <= limits.maxConnectionBuffer && window <= U64_MAX
    ensures var steps := Closing() + [Finish] + [Receive(Packet(0, Frame(0, [7])), 0)] + [ReceiveFinal(0)];
            var s := Exec(Start(window, false), steps, limits);
            s.tx.OneLife() && s.failed && !s.noMemory
  {
    hide Deliver, Buffered;
    var start, data: Step := Start(window, false), Receive(Packet(0, Frame(0, [7])), 0);
    ClosingState(window, false, limits);
    ExecNext(start, Closing(), Finish, limits);
    ExecNext(start, Closing() + [Finish], data, limits);
    ExecNext(start, Closing() + [Finish] + [data], ReceiveFinal(0), limits);
  }

  /** The sending half is created again and admits other bytes. */
  ghost function Again(data: seq<byte>): seq<Step> { Closing() + [Reopen] + [Admit(data)] + [SendNext] }

  lemma AgainState(window: nat, data: seq<byte>, limits: Limits)
    requires 0 < window && |data| <= window && |data| <= U64_MAX
    ensures var s := Exec(Start(window, true), Again(data), limits);
            && s.tx.Admitted() == [7] && s.tx.Lives() == [[7], data] && s.finals == {1}
            && s.initial == window && s.rx == NewStream(window)
            && Packet(0, Frame(0, [7])) in s.packets && Packet(1, Frame(0, data)) in s.packets
            && s.present && !s.failed && s.processed == {} && s.arrivals == []
  {
    var start := Start(window, true);
    ClosingState(window, true, limits);
    ExecNext(start, Closing(), Reopen, limits);
    ExecNext(start, Closing() + [Reopen], Admit(data), limits);
    ExecNext(start, Closing() + [Reopen] + [Admit(data)], SendNext, limits);
    assert [] + data == data && [] + [[7]] == [[7]] && [[7]] + [data] == [[7], data];
  }

  /** Delivering a whole run that was just placed at the start. */
  lemma PlacedRun(data: seq<byte>)
    ensures map[] + Placed(0, data) == Placed(0, data) && |Placed(0, data)| == |data| && Run(Placed(0, data), 0) == data
  {
    var v := Placed(0, data);
    assert v.Keys == Interval(0, |data|);
    RunIsMaximal(v, 0, data);
  }

  /**
   * How far the prefix property reaches: a receiver that has heard nothing delivers the first packet it
   * hears from offset 0, whichever life it is from; so the application then has a prefix of what was
   * first admitted exactly when that packet carries one.
   */
  lemma FirstPacketDecides(s: State, p: Packet, total: nat, limits: Limits)
    requires Inv(s) && s.rx == NewStream(s.initial) && Enabled(s, Receive(p, total)) && p.pn !in s.processed
    requires p.frame.offset == 0 && p.frame.data != []
    requires SaturatingAdd(total, s.initial) <= limits.maxConnectionBuffer
    ensures var s' := Next(s, Receive(p, total), limits);
            && !s'.failed && s'.rx.delivered == p.frame.data
            && (s'.rx.delivered <= s'.tx.Admitted() <==> p.frame.data <= s.tx.Admitted())
  {
    hide Run, Placed, Above, Sound, Handed, Accounted, Longest, Faithful, ByteOf, LengthOf;
    PlacedRun(p.frame.data);
  }

  /** What is not a prefix: the later life's byte arrives first and is delivered in place of the first
      life's, although size 0 was never declared and nothing is refused. */
  lemma OverwrittenRun(window: nat, limits: Limits)
    requires 0 < window <= limits.maxConnectionBuffer && window <= U64_MAX
    ensures var s := Exec(Start(window, true), Again([8]) + [Receive(Packet(1, Frame(0, [8])), 0)], limits);
            s.tx.Admitted() == [7] && s.rx.delivered == [8] && !s.failed && s.finals == {1}
  {
    hide Inv;
    var p, steps := Packet(1, Frame(0, [8])), Again([8]);
    AgainState(window, [8], limits);
    EveryRunKeeps(window, true, steps, limits);
    ExecNext(Start(window, true), steps, Receive(p, 0), limits);
    FirstPacketDecides(Exec(Start(window, true), steps, limits), p, 0, limits);
  }

  /** What is refused although nothing but the true size was declared: the first byte and its size arrive,
      then a longer answer of the later life. */
  lemma LaterLifeRefusedRun(window: nat, limits: Limits)
    requires 3 <= window <= limits.maxConnectionBuffer && window <= U64_MAX
    ensures var steps := Again([8, 8, 8]) + [Receive(Packet(0, Frame(0, [7])), 0)] + [ReceiveFinal(1)]
                         + [Receive(Packet(1, Frame(0, [8, 8, 8])), 0)];
            var s := Exec(Start(window, true), steps, limits);
            s.failed && !s.noMemory && s.finals == {1}
  {
    hide Deliver, Buffered, TrimmedData;
    var start := Start(window, true);
    var one: Step, end: Step, three: Step :=
      Receive(Packet(0, Frame(0, [7])), 0), ReceiveFinal(1), Receive(Packet(1, Frame(0, [8, 8, 8])), 0);
    var steps := Again([8, 8, 8]);
    AgainState(window, [8, 8, 8], limits);
    ExecNext(start, steps, one, limits);
    ExecNext(start, steps + [one], end, limits);
    ExecNext(start, steps + [one] + [end], three, limits);
  }
}
