/** The circular receive buffer of one stream. */
module StreamBuffer {
  import opened Primitives
  import opened ReceivedRanges

  /** Going `k < cap` slots forward wraps at most once. */
  lemma SlotAhead(a: nat, k: nat, cap: nat)
    requires k < cap
    ensures (a + k) % cap == if a % cap + k < cap then a % cap + k else a % cap + k - cap
  {
    var q, r := a / cap, a % cap;
    assert a == q * cap + r;
    if r + k < cap {
      ModUnique(a + k, q, r + k, cap);
    } else {
      assert (q + 1) * cap == q * cap + cap;
      ModUnique(a + k, q + 1, r + k - cap, cap);
    }
  }

  lemma SlotFullTurn(a: nat, cap: nat)
    requires 0 < cap
    ensures (a + cap) % cap == a % cap
  {
    var q := a / cap;
    assert (q + 1) * cap == q * cap + cap;
    ModUnique(a + cap, q + 1, a % cap, cap);
  }

  /** Position of slot `j` within a write of `len` bytes that starts at slot `start`, if any. */
  function WriteIndex(start: nat, len: nat, cap: nat, j: nat): int {
    if start <= j < start + len then j - start
    else if j + cap < start + len then j + cap - start
    else -1
  }

  /** Inside one window of `cap` offsets, a write reaches the slot of `o` exactly when it covers `o`. */
  lemma WriteReaches(head: nat, cap: nat, offset: nat, len: nat, o: nat)
    requires head <= offset && offset + len <= head + cap && head <= o < head + cap
    ensures WriteIndex(offset % cap, len, cap, o % cap) == if offset <= o < offset + len then o - offset else -1
  {
    if offset <= o {
      SlotAhead(offset, o - offset, cap);
    } else if offset - o < cap {
      SlotAhead(o, offset - o, cap);
    }
  }

  /** What a circular buffer stands for: its received bytes by stream offset. */
  ghost function ViewOf(ranges: seq<Range>, cap: nat, bytes: seq<byte>): (v: map<nat, byte>)
    requires ranges != [] ==> |bytes| == cap && 0 < cap
  {
    map o | o in Offsets(ranges) :: if |bytes| == 0 then 0 else bytes[o % |bytes|]
  }

  /** `data` as a map from stream offsets. */
  ghost function Placed(offset: nat, data: seq<byte>): map<nat, byte> {
    var span := Interval(offset, offset + |data|);
    map o | o in span :: data[o - offset]
  }

  lemma NothingPlaced(offset: nat)
    ensures Placed(offset, []) == map[]
  {
  }

  /** A view without the offsets below `head`. */
  ghost function Above(view: map<nat, byte>, head: nat): map<nat, byte> {
    map o | o in view && head <= o :: view[o]
  }

  /** The bytes received without a gap from `head` on. */
  ghost function Run(view: map<nat, byte>, head: nat): (run: seq<byte>)
    ensures run != [] <==> head in view
    decreases view.Keys
  {
    if head in view then [view[head]] + Run(view - {head}, head + 1) else []
  }

  /** `chunk` holds the bytes of the view from `head` on. */
  ghost predicate Reads(view: map<nat, byte>, head: nat, chunk: seq<byte>) {
    forall o | head <= o < head + |chunk| :: o in view && view[o] == chunk[o - head]
  }

  /** `Run` is the longest gap-free stretch, and the only one. */
  lemma {:induction false} RunIsMaximal(view: map<nat, byte>, head: nat, chunk: seq<byte>)
    requires Reads(view, head, chunk)
    requires head + |chunk| !in view
    ensures chunk == Run(view, head)
    decreases |chunk|
  {
    if chunk != [] {
      assert head in view;
      RunIsMaximal(view - {head}, head + 1, chunk[1..]);
    }
  }

  lemma {:induction false} RunBytes(view: map<nat, byte>, head: nat, k: nat)
    requires k < |Run(view, head)|
    ensures head + k in view && view[head + k] == Run(view, head)[k]
    decreases k
  {
    if k > 0 { RunBytes(view - {head}, head + 1, k - 1); }
  }

  lemma {:induction false} RunStops(view: map<nat, byte>, head: nat)
    ensures head + |Run(view, head)| !in view
    decreases view.Keys
  {
    if head in view {
      RunStops(view - {head}, head + 1);
      var end := head + |Run(view, head)|;
      assert end !in view - {head};
    }
  }

  /** After a run has been taken, the next one is empty. */
  lemma RunAfter(view: map<nat, byte>, head: nat)
    ensures var end := head + |Run(view, head)|; Run(Above(view, end), end) == []
  {
    RunStops(view, head);
  }

  /** The slots after a write of `data` at `offset`. */
  ghost predicate CopiedIn(bytes: seq<byte>, bytes': seq<byte>, offset: nat, data: seq<byte>) {
    && |bytes| == |bytes'| && 0 < |bytes|
    && forall j | 0 <= j < |bytes| ::
         var k := WriteIndex(offset % |bytes|, |data|, |bytes|, j);
         k < |data| && bytes'[j] == if 0 <= k then data[k] else bytes[j]
  }

  /** Inside the window, a write changes exactly the slots of its own offsets. */
  lemma CopiedSlot(bytes: seq<byte>, bytes': seq<byte>, head: nat, offset: nat, data: seq<byte>, o: nat)
    requires CopiedIn(bytes, bytes', offset, data)
    requires head <= offset && offset + |data| <= head + |bytes| && head <= o < head + |bytes|
    ensures bytes'[o % |bytes|] == if offset <= o < offset + |data| then data[o - offset] else bytes[o % |bytes|]
  {
    WriteReaches(head, |bytes|, offset, |data|, o);
    var j := o % |bytes|;
    assert 0 <= j < |bytes|;
  }

  /** The view at one offset after copying `data` into the circle and covering its interval. */
  lemma StoredAt(ranges: seq<Range>, ranges': seq<Range>, bytes: seq<byte>, bytes': seq<byte>,
                 head: nat, offset: nat, data: seq<byte>, o: nat)
    requires CopiedIn(bytes, bytes', offset, data)
    requires head <= offset && offset + |data| <= head + |bytes|
    requires Covers(ranges', o) <==> Covers(ranges, o) || offset <= o < offset + |data|
    requires Covers(ranges, o) ==> head <= o < head + |bytes|
    ensures o in Offsets(ranges') <==> o in Offsets(ranges) || o in Placed(offset, data)
    ensures o in Offsets(ranges') ==>
              bytes'[o % |bytes|] == if o in Placed(offset, data) then Placed(offset, data)[o] else bytes[o % |bytes|]
  {
    hide Offsets, Covers, CopiedIn;
    OffsetsCover(ranges, o);
    OffsetsCover(ranges', o);
    if o in Offsets(ranges') { CopiedSlot(bytes, bytes', head, offset, data, o); }
  }

  /** Copying `data` into the circle and covering its interval stores it in the view. */
  lemma StoreView(ranges: seq<Range>, ranges': seq<Range>, bytes: seq<byte>, bytes': seq<byte>,
                  head: nat, offset: nat, data: seq<byte>)
    requires CopiedIn(bytes, bytes', offset, data)
    requires head <= offset && offset + |data| <= head + |bytes|
    requires forall o: nat :: Covers(ranges', o) <==> Covers(ranges, o) || offset <= o < offset + |data|
    requires forall o: nat :: Covers(ranges, o) ==> head <= o < head + |bytes|
    ensures ViewOf(ranges', |bytes|, bytes') == ViewOf(ranges, |bytes|, bytes) + Placed(offset, data)
  {
    var placed := Placed(offset, data);
    forall o: nat
      ensures o in Offsets(ranges') <==> o in Offsets(ranges) || o in placed
      ensures o in Offsets(ranges') ==>
                bytes'[o % |bytes|] == if o in placed then placed[o] else bytes[o % |bytes|]
    {
      StoredAt(ranges, ranges', bytes, bytes', head, offset, data, o);
    }
  }

  /** The circular slots of `[head, head + len)`, in order. */
  function Cut(bytes: seq<byte>, head: nat, len: nat): seq<byte>
    requires 0 < len <= |bytes|
  {
    var startIdx, endIdx := head % |bytes|, (head + len) % |bytes|;
    if startIdx < endIdx then bytes[startIdx..endIdx] else bytes[startIdx..] + bytes[..endIdx]
  }

  lemma CutOut(bytes: seq<byte>, head: nat, len: nat)
    requires 0 < len <= |bytes|
    ensures |Cut(bytes, head, len)| == len
    ensures forall o | head <= o < head + len :: Cut(bytes, head, len)[o - head] == bytes[o % |bytes|]
  {
    var cap := |bytes|;
    if len < cap { SlotAhead(head, len, cap); } else { SlotFullTurn(head, cap); }
    forall o | head <= o < head + len ensures Cut(bytes, head, len)[o - head] == bytes[o % |bytes|] {
      SlotAhead(head, o - head, cap);
    }
  }

  /** A separated list is its first range, a gap, and the rest. */
  lemma FirstRange(r: seq<Range>)
    requires Separated(r) && r != []
    ensures r[0].lo < r[0].hi <= Last(r).hi && Separated(r[1..])
    ensures r[1..] != [] ==> r[0].hi < r[1].lo && Last(r[1..]) == Last(r)
    ensures forall o: nat :: Covers(r, o) <==> r[0].lo <= o < r[0].hi || Covers(r[1..], o)
    ensures forall o: nat :: Covers(r[1..], o) ==> r[0].hi < o
  {
    assert r == [r[0]] + r[1..];
    SeparatedConcat([r[0]], r[1..]);
    Span(r, r[0].lo);
    forall o: nat
      ensures Covers(r, o) <==> r[0].lo <= o < r[0].hi || Covers(r[1..], o)
      ensures Covers(r[1..], o) ==> r[0].hi < o
    {
      CoversConcat([r[0]], r[1..], o);
      if r[1..] != [] { Span(r[1..], o); }
    }
  }

  /** Cutting the first range out at `head` yields the run there. */
  lemma FirstRun(ranges: seq<Range>, bytes: seq<byte>, head: nat)
    requires Separated(ranges) && ranges != [] && ranges[0].lo == head < ranges[0].hi <= head + |bytes|
    ensures var v, out := ViewOf(ranges, |bytes|, bytes), Cut(bytes, head, ranges[0].hi - head);
            head in v && out == Run(v, head) && |out| == ranges[0].hi - head
  {
    FirstRange(ranges);
    var v, out := ViewOf(ranges, |bytes|, bytes), Cut(bytes, head, ranges[0].hi - head);
    CutOut(bytes, head, ranges[0].hi - head);
    forall o: nat ensures o in v <==> Covers(ranges, o) { OffsetsCover(ranges, o); }
    assert Reads(v, head, out);
    RunIsMaximal(v, head, out);
  }

  /** Restricting the ranges to `[head, ...)` restricts the view. */
  lemma RestrictView(ranges: seq<Range>, rest: seq<Range>, bytes: seq<byte>, head: nat)
    requires 0 < |bytes|
    requires forall o: nat :: Covers(rest, o) <==> Covers(ranges, o) && head <= o
    ensures ViewOf(rest, |bytes|, bytes) == Above(ViewOf(ranges, |bytes|, bytes), head)
  {
    forall o: nat ensures o in Offsets(rest) <==> o in Offsets(ranges) && head <= o {
      OffsetsCover(ranges, o);
      OffsetsCover(rest, o);
    }
  }

  lemma FirstMissing(ranges: seq<Range>, cap: nat, bytes: seq<byte>, head: nat)
    requires Separated(ranges) && ranges != [] && |bytes| == cap && 0 < cap && head < ranges[0].lo
    ensures var v := ViewOf(ranges, cap, bytes); head !in v && v == Above(v, head)
  {
    var v := ViewOf(ranges, cap, bytes);
    forall o | o in v ensures head < o {
      OffsetsCover(ranges, o);
      Span(ranges, o);
    }
  }

  /** Trimming the first range to `[head, ...)` removes exactly the offsets below `head`. */
  lemma TrimFirst(r: seq<Range>, head: nat)
    requires Separated(r) && r != [] && r[0].lo < head < r[0].hi
    ensures var t := r[0 := Range(head, r[0].hi)];
            && Separated(t) && t[0].lo == head && Last(t).hi == Last(r).hi
            && forall o: nat :: Covers(t, o) <==> Covers(r, o) && head <= o
  {
    var t := r[0 := Range(head, r[0].hi)];
    assert r == [r[0]] + r[1..] && t == [t[0]] + r[1..];
    SeparatedConcat([r[0]], r[1..]);
    SeparatedConcat([t[0]], r[1..]);
    FirstRange(r);
    forall o: nat ensures Covers(t, o) <==> Covers(r, o) && head <= o { CoversConcat([t[0]], r[1..], o); }
  }

  /** Removes the ranges that end at or below the new head and trims one that straddles it. */
  method DropRead(ranges: seq<Range>, head: nat) returns (rest: seq<Range>)
    requires Separated(ranges)
    ensures Separated(rest)
    ensures rest != [] ==> head <= rest[0].lo && ranges != [] && Last(rest).hi == Last(ranges).hi
    ensures forall o: nat :: Covers(rest, o) <==> Covers(ranges, o) && head <= o
  {
    rest := ranges;
    while rest != [] && rest[0].hi <= head
      invariant Separated(rest) && (rest != [] ==> ranges != [] && Last(rest) == Last(ranges))
      invariant forall o: nat :: Covers(rest, o) ==> Covers(ranges, o)
      invariant forall o: nat :: Covers(ranges, o) && head <= o ==> Covers(rest, o)
      decreases |rest|
    {
      FirstRange(rest);
      rest := rest[1..];
    }
    if rest != [] {
      if rest[0].lo < head && rest[0].hi > head {
        TrimFirst(rest, head);
        rest := rest[0 := Range(head, rest[0].hi)];
      } else {
        InBounds(rest, head, Last(rest).hi);
      }
    }
  }

  /** The `len` circular bytes from `head` on, as one piece. */
  function Linearized(bytes: seq<byte>, head: nat, len: nat): (linear: seq<byte>)
    requires len <= |bytes| && 0 < |bytes|
    ensures |linear| == len
  {
    var start := head % |bytes|;
    var first := Min(len, |bytes| - start);
    bytes[start..start + first] + bytes[..len - first]
  }

  lemma LinearizedAt(bytes: seq<byte>, head: nat, len: nat)
    requires len <= |bytes| && 0 < |bytes|
    ensures forall o | head <= o < head + len :: Linearized(bytes, head, len)[o - head] == bytes[o % |bytes|]
  {
    forall o | head <= o < head + len ensures Linearized(bytes, head, len)[o - head] == bytes[o % |bytes|] {
      SlotAhead(head, o - head, |bytes|);
    }
  }

  /** Lays `linear` out in a fresh circle of `cap` slots, starting at the slot of `head`. */
  method Wrapped(linear: seq<byte>, head: nat, cap: nat) returns (ring: array<byte>)
    requires |linear| <= cap && 0 < cap
    ensures fresh(ring) && ring.Length == cap
    ensures forall o | head <= o < head + |linear| :: ring[o % cap] == linear[o - head]
  {
    ring := new byte[cap](_ => 0);
    var start := head % cap;
    var first := Min(|linear|, cap - start);
    forall i | 0 <= i < first { ring[start + i] := linear[i]; }
    forall i | 0 <= i < |linear| - first { ring[i] := linear[first + i]; }
    forall o | head <= o < head + |linear| ensures ring[o % cap] == linear[o - head] {
      SlotAhead(head, o - head, cap);
    }
  }

  /** Two circles that agree on `[head, end)` show the same view of it. */
  lemma MoveView(ranges: seq<Range>, bytes: seq<byte>, bytes': seq<byte>, head: nat, end: nat)
    requires Separated(ranges) && 0 < |bytes| && 0 < |bytes'|
    requires ranges != [] ==> head <= ranges[0].lo && Last(ranges).hi <= end
    requires forall o | head <= o < end :: bytes'[o % |bytes'|] == bytes[o % |bytes|]
    ensures ViewOf(ranges, |bytes'|, bytes') == ViewOf(ranges, |bytes|, bytes)
  {
    hide Offsets, Separated;
    forall o | o in Offsets(ranges) ensures bytes'[o % |bytes'|] == bytes[o % |bytes|] {
      WithinEnds(ranges, o);
    }
  }

  lemma WithinEnds(ranges: seq<Range>, o: nat)
    requires Separated(ranges) && o in Offsets(ranges)
    ensures ranges != [] && ranges[0].lo <= o < Last(ranges).hi
  {
    OffsetsCover(ranges, o);
    Span(ranges, o);
  }

  lemma NoRanges(ranges: seq<Range>, head: nat)
    requires Separated(ranges) && (ranges != [] ==> head <= ranges[0].lo && Last(ranges).hi <= head)
    ensures ranges == []
  {
    if ranges != [] { Span(ranges, head); assert false; }
  }

  lemma NoView(cap: nat, bytes: seq<byte>)
    ensures ViewOf([], cap, bytes) == map[]
  {
  }

  /** Unrolling one circle and laying the bytes out in another keeps the view. */
  lemma ResizeView(ranges: seq<Range>, bytes: seq<byte>, bytes': seq<byte>, head: nat, end: nat)
    requires Separated(ranges) && 0 < |bytes| && 0 < |bytes'| && head <= end <= head + |bytes|
    requires ranges != [] ==> head <= ranges[0].lo && Last(ranges).hi <= end
    requires forall o | head <= o < end :: bytes'[o % |bytes'|] == Linearized(bytes, head, end - head)[o - head]
    ensures ViewOf(ranges, |bytes'|, bytes') == ViewOf(ranges, |bytes|, bytes)
  {
    hide ViewOf, Separated, Linearized;
    LinearizedAt(bytes, head, end - head);
    MoveView(ranges, bytes, bytes', head, end);
  }

  class StreamReceiveBuffer {
    var buffer: array<byte>
    var capacity: nat
    var readHead: nat
    var writeHead: nat
    var receivedRanges: seq<Range>

    ghost predicate Valid()
      reads this, buffer
    {
      && (buffer.Length == 0 || buffer.Length == capacity)
      && (buffer.Length == 0 ==> receivedRanges == [] && readHead == writeHead)
      && readHead <= writeHead <= readHead + capacity
      && Separated(receivedRanges)
      && (receivedRanges != [] ==> readHead <= receivedRanges[0].lo && Last(receivedRanges).hi <= writeHead)
    }

    /** The received bytes at or above `readHead`, by stream offset. */
    ghost function View(): map<nat, byte>
      requires Valid()
      reads this, buffer
    {
      ViewOf(receivedRanges, capacity, buffer[..])
    }

    constructor (capacity: nat)
      ensures Valid() && fresh(buffer)
      ensures this.capacity == capacity && readHead == 0 && writeHead == 0 && buffer.Length == 0
      ensures View() == map[]
    {
      buffer := new byte[0];
      this.capacity := capacity;
      readHead, writeHead, receivedRanges := 0, 0, [];
    }

    /** Two-step copy into the circle: the written slots hold `data`, every other slot is kept. */
    method CopyIn(offset: nat, data: seq<byte>)
      requires buffer.Length == capacity && 0 < |data| <= capacity
      modifies buffer
      ensures CopiedIn(old(buffer[..]), buffer[..], offset, data)
    {
      CopyFrom(offset % capacity, data);
    }

    /** The copy loop: at most two chunks, the second from slot 0. */
    method CopyFrom(start: nat, data: seq<byte>)
      requires buffer.Length == capacity && start < capacity && |data| <= capacity
      modifies buffer
      ensures forall j | 0 <= j < capacity ::
                var k := WriteIndex(start, |data|, capacity, j);
                buffer[j] == if 0 <= k < |data| then data[k] else old(buffer[j])
    {
      var dataOffset, writeIdx := 0, start;
      while dataOffset < |data|
        invariant 0 <= dataOffset <= |data|
        invariant dataOffset == 0 ==> writeIdx == start
        invariant 0 < dataOffset < |data| ==> writeIdx == 0 && dataOffset == capacity - start
        invariant forall j | 0 <= j < capacity ::
            var k := WriteIndex(start, |data|, capacity, j);
            buffer[j] == if 0 <= k < dataOffset then data[k] else old(buffer[j])
      {
        var chunkLen := Min(|data| - dataOffset, capacity - writeIdx);
        forall i | 0 <= i < chunkLen { buffer[writeIdx + i] := data[dataOffset + i]; }
        dataOffset := dataOffset + chunkLen;
        writeIdx := 0;
      }
    }

    /**
     * Stores `data` at stream offset `offset`. Refused exactly when the data ends past the buffer's
     * window (or past the 64-bit range). Otherwise the view gains the new bytes, later bytes
     * overwriting earlier ones, and `added` counts the offsets that were absent before.
     */
    method Write(offset: nat, data: seq<byte>) returns (added: Option<nat>)
      requires Valid() && readHead <= offset
      modifies this, buffer
      ensures Valid() && (buffer == old(buffer) || fresh(buffer))
      ensures readHead == old(readHead) && capacity == old(capacity)
      ensures added.None? <==> data != [] && (offset + |data| > U64_MAX || offset + |data| > readHead + capacity)
      ensures added.None? || data == [] ==> View() == old(View()) && buffer == old(buffer)
      ensures added.Some? ==> View() == old(View()) + Placed(offset, data)
      ensures added.Some? ==> added.value == |View()| - |old(View())|
      ensures added.Some? && data != [] ==> buffer.Length == capacity
    {
      if data == [] {
        assert Placed(offset, data) == map[];
        return Some(0);
      }
      if offset + |data| > U64_MAX || offset + |data| > readHead + capacity {
        return None;
      }
      var n := Store(offset, data);
      added := Some(n);
    }

    /** The accepting path of `Write`. */
    method Store(offset: nat, data: seq<byte>) returns (added: nat)
      requires Valid() && readHead <= offset && offset + |data| <= readHead + capacity && data != []
      modifies this, buffer
      ensures Valid() && (buffer == old(buffer) || fresh(buffer)) && buffer.Length == capacity
      ensures readHead == old(readHead) && capacity == old(capacity)
      ensures View() == old(View()) + Placed(offset, data)
      ensures added == |View()| - |old(View())|
    {
      hide ViewOf, Placed, Separated, CopiedIn, Covers, Offsets;
      Allocate();
      ghost var ranges := receivedRanges;
      ghost var bytes := buffer[..];
      var endOffset := offset + |data|;
      if endOffset > writeHead {
        writeHead := endOffset;
      }
      CopyIn(offset, data);
      receivedRanges, added := AddRange(receivedRanges, offset, endOffset);
      Stored(ranges, receivedRanges, bytes, buffer[..], readHead, writeHead, offset, data);
    }

    /** Lazy allocation on the first write. */
    method Allocate()
      requires Valid()
      modifies this`buffer
      ensures Valid() && (buffer == old(buffer) || fresh(buffer)) && buffer.Length == capacity && View() == old(View())
    {
      hide ViewOf, Separated;
      if buffer.Length == 0 {
        NoView(capacity, buffer[..]);
        buffer := new byte[capacity](_ => 0);
        NoView(capacity, buffer[..]);
      }
    }

    /** Takes the whole gap-free run at `readHead`; there is none exactly when that byte is missing. */
    method ReadContiguous() returns (chunk: Option<seq<byte>>)
      requires Valid()
      modifies this
      ensures Valid() && buffer == old(buffer) && capacity == old(capacity)
      ensures chunk == if old(readHead) in old(View()) then Some(Run(old(View()), old(readHead))) else None
      ensures readHead == old(readHead) + |Run(old(View()), old(readHead))|
      ensures View() == if chunk.None? then old(View()) else Above(old(View()), readHead)
    {
      if buffer.Length == 0 || receivedRanges == [] {
        assert View() == map[];
        return None;
      }
      var first := receivedRanges[0];
      FirstRange(receivedRanges);
      if first.lo <= readHead && first.hi > readHead {
        var out := TakeFirst();
        return Some(out);
      }
      FirstMissing(receivedRanges, capacity, buffer[..], readHead);
      return None;
    }

    /** The delivering path of `ReadContiguous`: the first range starts at `readHead`. */
    method TakeFirst() returns (out: seq<byte>)
      requires Valid() && receivedRanges != [] && receivedRanges[0].lo == readHead < receivedRanges[0].hi <= writeHead
      modifies this
      ensures Valid() && buffer == old(buffer) && capacity == old(capacity)
      ensures old(readHead) in old(View()) && out == Run(old(View()), old(readHead))
      ensures readHead == old(readHead) + |out|
      ensures View() == Above(old(View()), readHead)
    {
      hide Run, Above, Offsets, Separated, Cut;
      var end := receivedRanges[0].hi;
      var len := end - readHead;
      out := Cut(buffer[..], readHead, len);
      FirstRun(receivedRanges, buffer[..], readHead);
      var rest := DropRead(receivedRanges, end);
      RestrictView(receivedRanges, rest, buffer[..], end);
      readHead, receivedRanges := end, rest;
    }

    /** Moves the unread bytes into a circle of another capacity; the view does not change. */
    method Resize(newCapacity: nat)
      requires Valid() && writeHead - readHead <= newCapacity
      modifies this
      ensures Valid() && (buffer == old(buffer) || fresh(buffer))
      ensures capacity == newCapacity && readHead == old(readHead) && writeHead == old(writeHead)
      ensures View() == old(View())
      ensures buffer.Length == if old(buffer.Length) == 0 then 0 else newCapacity
    {
      hide ViewOf, Separated, Linearized;
      if newCapacity == capacity {
        return;
      }
      if buffer.Length == 0 {
        NoView(capacity, buffer[..]);
        NoView(newCapacity, buffer[..]);
        capacity := newCapacity;
        return;
      }
      if writeHead == readHead {
        NoRanges(receivedRanges, readHead);
        NoView(capacity, buffer[..]);
        buffer := new byte[newCapacity](_ => 0);
        NoView(newCapacity, buffer[..]);
        capacity := newCapacity;
        return;
      }
      var linear := Linearized(buffer[..], readHead, writeHead - readHead);
      var newBuf := Wrapped(linear, readHead, newCapacity);
      ResizeView(receivedRanges, buffer[..], newBuf[..], readHead, writeHead);
      buffer := newBuf;
      capacity := newCapacity;
    }
  }

  lemma StoreBounds(ranges: seq<Range>, ranges': seq<Range>, head: nat, end: nat, lo: nat, hi: nat)
    requires Separated(ranges) && Separated(ranges') && head <= lo <= hi <= end
    requires ranges != [] ==> head <= ranges[0].lo && Last(ranges).hi <= end
    requires forall o: nat :: Covers(ranges', o) <==> Covers(ranges, o) || lo <= o < hi
    ensures ranges' != [] ==> head <= ranges'[0].lo && Last(ranges').hi <= end
    ensures forall o: nat :: Covers(ranges, o) ==> head <= o < end
  {
    InBounds(ranges, head, end);
    Bounded(ranges', head, end);
  }

  /** Everything one write does to the ranges and the view. */
  lemma Stored(ranges: seq<Range>, ranges': seq<Range>, bytes: seq<byte>, bytes': seq<byte>, head: nat, end: nat,
               offset: nat, data: seq<byte>)
    requires 0 < |bytes| == |bytes'| && CopiedIn(bytes, bytes', offset, data)
    requires Separated(ranges) && Separated(ranges')
    requires head <= offset && offset + |data| <= end <= head + |bytes|
    requires ranges != [] ==> head <= ranges[0].lo && Last(ranges).hi <= end
    requires forall o: nat :: Covers(ranges', o) <==> Covers(ranges, o) || offset <= o < offset + |data|
    ensures ranges' != [] ==> head <= ranges'[0].lo && Last(ranges').hi <= end
    ensures var v, v' := ViewOf(ranges, |bytes|, bytes), ViewOf(ranges', |bytes|, bytes');
            v' == v + Placed(offset, data) && |v'| - |v| == |Offsets(ranges')| - |Offsets(ranges)|
  {
    hide ViewOf, Placed, Separated, CopiedIn, Covers, Offsets;
    StoreBounds(ranges, ranges', head, end, offset, offset + |data|);
    StoreView(ranges, ranges', bytes, bytes', head, offset, data);
    ViewSize(ranges, |bytes|, bytes);
    ViewSize(ranges', |bytes|, bytes');
  }

  lemma ViewSize(ranges: seq<Range>, cap: nat, bytes: seq<byte>)
    requires ranges != [] ==> |bytes| == cap && 0 < cap
    ensures |ViewOf(ranges, cap, bytes)| == |Offsets(ranges)|
  {
    assert ViewOf(ranges, cap, bytes).Keys == Offsets(ranges);
  }

  lemma InBounds(r: seq<Range>, lo: nat, hi: nat)
    requires Separated(r) && (r != [] ==> lo <= r[0].lo && Last(r).hi <= hi)
    ensures forall o: nat :: Covers(r, o) ==> lo <= o < hi
  {
    forall o: nat | Covers(r, o) ensures lo <= o < hi { Span(r, o); }
  }

  lemma Bounded(r: seq<Range>, lo: nat, hi: nat)
    requires Separated(r) && forall o: nat :: Covers(r, o) ==> lo <= o < hi
    ensures r != [] ==> lo <= r[0].lo && Last(r).hi <= hi
  {
    if r != [] {
      Span(r, r[0].lo);
      assert Covers(r, Last(r).hi - 1);
      SeparatedConcat([r[0]], r[1..]);
      assert r == [r[0]] + r[1..];
    }
  }
}
