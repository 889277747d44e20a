/** Which packet numbers count as processed, and the window class behind replay protection and
    acknowledgement tracking. */
module PacketWindow {
  import opened Primitives
  import opened Bits
  import opened PacketMask
  import opened AckRanges

  /** The highest processed number and the processed numbers less than 2048 below it. */
  datatype Window = Window(highest: Option<nat>, seen: set<nat>)

  const EMPTY: Window := Window(None, {})

  /** The members of `pns` less than 2048 below `h`. */
  ghost function Recent(pns: set<nat>, h: nat): set<nat> {
    set p | p in pns && p <= h < p + WINDOW
  }

  ghost function Mark(w: Window, pn: nat): Window {
    match w.highest
    case None => Window(Some(pn), {pn})
    case Some(h) =>
      if pn > h then Window(Some(pn), Recent(w.seen, pn) + {pn})
      else if h - pn < WINDOW then w.(seen := w.seen + {pn})
      else w
  }

  predicate IsReplay(w: Window, pn: nat) {
    match w.highest
    case None => false
    case Some(h) => pn <= h && (h - pn >= WINDOW || pn in w.seen)
  }

  /** `w` is what marking exactly the numbers of `marked`, in some order, leads to. */
  ghost predicate Tracks(w: Window, marked: set<nat>) {
    match w.highest
    case None => marked == {} && w.seen == {}
    case Some(h) => h in marked && (forall p | p in marked :: p <= h) && w.seen == Recent(marked, h)
  }

  /** Marking one more number keeps the window at the marked numbers within 2048 of the highest. */
  lemma MarkTracks(w: Window, marked: set<nat>, pn: nat)
    requires Tracks(w, marked)
    ensures Tracks(Mark(w, pn), marked + {pn})
  {
    var marked' := marked + {pn};
    match w.highest
    case None =>
      assert Recent(marked', pn) == {pn};
    case Some(h) =>
      if pn > h {
        assert Recent(marked', pn) == Recent(Recent(marked, h), pn) + {pn};
      } else if h - pn < WINDOW {
        assert Recent(marked', h) == Recent(marked, h) + {pn};
      } else {
        assert Recent(marked', h) == Recent(marked, h);
      }
  }

  ghost function MarkAll(pns: seq<nat>): Window {
    if pns == [] then EMPTY else Mark(MarkAll(pns[..|pns| - 1]), pns[|pns| - 1])
  }

  /** Marking any numbers in any order, replays included, leaves those within 2048 of the highest. */
  lemma {:induction false} MarkAllTracks(pns: seq<nat>)
    ensures Tracks(MarkAll(pns), Elements(pns))
    decreases |pns|
  {
    if pns != [] {
      var init, last := pns[..|pns| - 1], pns[|pns| - 1];
      MarkAllTracks(init);
      MarkTracks(MarkAll(init), Elements(init), last);
      assert pns == init + [last];
      assert Elements(pns) == Elements(init) + {last};
    }
  }

  /** A number is refused exactly when it was marked before or lies 2048 or more below the highest. */
  lemma ReplayExactly(w: Window, marked: set<nat>, pn: nat)
    requires Tracks(w, marked)
    ensures IsReplay(w, pn) <==> pn in marked || (w.highest.Some? && w.highest.value >= pn + 2048)
  {
  }

  // ---------- every run of arriving packets ----------

  /** Packets arriving in the given order; those that are no replay are handled and marked. */
  ghost function Handled(arrivals: seq<nat>): (seq<nat>, Window) {
    if arrivals == [] then ([], EMPTY)
    else
      var (handled, w) := Handled(arrivals[..|arrivals| - 1]);
      var pn := arrivals[|arrivals| - 1];
      if IsReplay(w, pn) then (handled, w) else (handled + [pn], Mark(w, pn))
  }

  ghost function Elements(s: seq<nat>): set<nat> { set p | p in s }

  ghost predicate Distinct(s: seq<nat>) { forall i, j | 0 <= i < j < |s| :: s[i] != s[j] }

  lemma Fresh(w: Window, handled: seq<nat>, pn: nat)
    requires Tracks(w, Elements(handled)) && Distinct(handled) && !IsReplay(w, pn)
    ensures Tracks(Mark(w, pn), Elements(handled + [pn])) && Distinct(handled + [pn])
  {
    ReplayExactly(w, Elements(handled), pn);
    MarkTracks(w, Elements(handled), pn);
    assert Elements(handled + [pn]) == Elements(handled) + {pn};
  }

  /** No packet number has its frames handled twice, whatever arrives in whatever order. */
  lemma {:induction false} HandledOnce(arrivals: seq<nat>)
    ensures var (handled, w) := Handled(arrivals);
            Tracks(w, Elements(handled)) && Distinct(handled)
  {
    if arrivals != [] {
      var before, pn := arrivals[..|arrivals| - 1], arrivals[|arrivals| - 1];
      HandledOnce(before);
      var (handled, w) := Handled(before);
      if !IsReplay(w, pn) { Fresh(w, handled, pn); }
    }
  }

  // ---------- the mask represents the window ----------

  /** The numbers a mask stands for below `h`. */
  ghost function SeenOf(m: Mask, h: nat): set<nat> {
    var span := Interval(SaturatingSub(h, WINDOW - 1), h + 1);
    set pn | pn in span && MaskBit(m, h - pn)
  }

  /** No bit stands for a number below zero. */
  ghost predicate InRange(m: Mask, h: nat) {
    forall d | h < d < WINDOW :: !MaskBit(m, d)
  }

  /** `m'` is the mask after the highest number moved up by `diff` and was marked. */
  ghost predicate Advanced(m: Mask, m': Mask, diff: nat) {
    forall d | 0 <= d < WINDOW :: MaskBit(m', d) <==> d == 0 || (diff <= d && MaskBit(m, d - diff))
  }

  lemma AdvancedInRange(m: Mask, m': Mask, h: nat, pn: nat)
    requires h < pn && InRange(m, h) && Advanced(m, m', pn - h)
    ensures InRange(m', pn)
  {
    hide MaskBit;
  }

  lemma AdvancedAt(m: Mask, m': Mask, h: nat, pn: nat, p: nat)
    requires h < pn && Advanced(m, m', pn - h)
    ensures p in SeenOf(m', pn) <==> p == pn || (p in SeenOf(m, h) && p <= pn < p + WINDOW)
  {
    hide MaskBit;
    if p <= pn < p + WINDOW {
      var d, diff := pn - p, pn - h;
      assert MaskBit(m', d) <==> d == 0 || (diff <= d && MaskBit(m, d - diff));
    }
  }

  lemma AdvancedSeen(m: Mask, m': Mask, h: nat, pn: nat)
    requires h < pn && InRange(m, h) && Advanced(m, m', pn - h)
    ensures InRange(m', pn) && SeenOf(m', pn) == Recent(SeenOf(m, h), pn) + {pn}
  {
    hide MaskBit, SeenOf, Advanced;
    AdvancedInRange(m, m', h, pn);
    forall p: nat
      ensures p in SeenOf(m', pn) <==> p == pn || (p in SeenOf(m, h) && p <= pn < p + WINDOW)
    {
      AdvancedAt(m, m', h, pn, p);
    }
  }

  lemma SetSeen(m: Mask, m': Mask, h: nat, pn: nat)
    requires pn <= h < pn + WINDOW && InRange(m, h)
    requires forall d | 0 <= d < WINDOW :: MaskBit(m', d) <==> MaskBit(m, d) || d == h - pn
    ensures InRange(m', h) && SeenOf(m', h) == SeenOf(m, h) + {pn}
  {
    hide MaskBit;
    forall p: nat
      ensures p in SeenOf(m', h) <==> p in SeenOf(m, h) + {pn}
    {
      if p <= h < p + WINDOW { assert MaskBit(m', h - p) <==> MaskBit(m, h - p) || h - p == h - pn; }
    }
  }

  /** Setting one bit of one word. */
  lemma WithBit(m: Mask, i: nat, b: nat, d: nat)
    requires i < WORDS && b < 64 && d < WINDOW
    ensures MaskBit(m[i := OrWord(m[i], Shl(1, b))], d) <==> MaskBit(m, d) || d == 64 * i + b
  {
    hide Bit, Shl, OrWord;
    if d / 64 == i {
      OrWordBit(m[i], Shl(1, b), d % 64);
      OneBit(b, d % 64);
    }
  }

  lemma OneOnly(d: nat)
    requires d < WINDOW
    ensures MaskBit(Zeros()[0 := 1], d) <==> d == 0
  {
    if d / 64 > 0 { ZeroBit(d % 64); }
    else if d > 0 { NoHighBit(1, 1, d); }
  }

  class SlidingWindow {
    var highestProcessed: Option<nat>
    const bitmask: array<word>

    ghost predicate Valid()
      reads this, bitmask
    {
      && bitmask.Length == WORDS
      && (highestProcessed.None? ==> bitmask[..] == Zeros())
      && (highestProcessed.Some? ==> InRange(bitmask[..], highestProcessed.value))
    }

    ghost function Abs(): Window
      requires Valid()
      reads this, bitmask
    {
      match highestProcessed
      case None => EMPTY
      case Some(h) => Window(highestProcessed, SeenOf(bitmask[..], h))
    }

    constructor ()
      ensures Valid() && fresh(bitmask) && Abs() == EMPTY
    {
      highestProcessed := None;
      bitmask := new word[WORDS](_ => 0);
    }

    method MarkProcessed(pn: nat)
      requires Valid()
      modifies this, bitmask
      ensures Valid() && Abs() == Mark(old(Abs()), pn)
    {
      hide MaskBit, Moved, OrWord, Shl, Zeros;
      ghost var m := bitmask[..];
      match highestProcessed {
        case None =>
          bitmask[0] := 1;
          FirstMark(bitmask[..], pn);
          highestProcessed := Some(pn);
        case Some(highest) =>
          if pn > highest {
            Advance(pn - highest);
            AdvancedSeen(m, bitmask[..], highest, pn);
            highestProcessed := Some(pn);
          } else if highest - pn < WINDOW {
            SetBit(highest - pn);
            SetSeen(m, bitmask[..], highest, pn);
          }
      }
    }

    method Advance(diff: nat)
      requires bitmask.Length == WORDS && 0 < diff
      modifies bitmask
      ensures Advanced(old(bitmask[..]), bitmask[..], diff)
    {
      hide MaskBit, Moved, OrWord, Zeros;
      ghost var m := bitmask[..];
      if diff >= WINDOW {
        Clear(bitmask);
        bitmask[0] := 1;
        assert bitmask[..] == Zeros()[0 := 1];
        forall d | 0 <= d < WINDOW ensures MaskBit(bitmask[..], d) <==> d == 0 { OneOnly(d); }
      } else {
        ShiftLeft(bitmask, diff);
        bitmask[0] := OrWord(bitmask[0], 1);
        assert bitmask[..] == Moved(m, diff)[0 := OrWord(Moved(m, diff)[0], Shl(1, 0))];
        forall d | 0 <= d < WINDOW
          ensures MaskBit(bitmask[..], d) <==> d == 0 || (diff <= d && MaskBit(m, d - diff))
        {
          WithBit(Moved(m, diff), 0, 0, d);
          MovedBit(m, diff, d);
        }
      }
    }

    method SetBit(diff: nat)
      requires bitmask.Length == WORDS && diff < WINDOW
      modifies bitmask
      ensures forall d | 0 <= d < WINDOW :: MaskBit(bitmask[..], d) <==> old(MaskBit(bitmask[..], d)) || d == diff
    {
      hide MaskBit, OrWord, Shl;
      ghost var m := bitmask[..];
      var wordIdx, bitIdx := diff / 64, diff % 64;
      bitmask[wordIdx] := OrWord(bitmask[wordIdx], Shl(1, bitIdx));
      assert bitmask[..] == m[wordIdx := OrWord(m[wordIdx], Shl(1, bitIdx))];
      forall d | 0 <= d < WINDOW ensures MaskBit(bitmask[..], d) <==> MaskBit(m, d) || d == diff {
        WithBit(m, wordIdx, bitIdx, d);
      }
    }

    /** Replay check on the mask. */
    method CheckReplay(pn: nat) returns (replay: bool)
      requires Valid()
      ensures replay == IsReplay(Abs(), pn)
    {
      match highestProcessed {
        case None => return false;
        case Some(highest) =>
          if pn <= highest {
            var diff := highest - pn;
            if diff >= WINDOW {
              return true;
            }
            SeenBit(bitmask[..], highest, diff);
            return Bit(bitmask[diff / 64], diff % 64);
          }
          return false;
      }
    }

    /**
     * The acknowledgement ranges: the maximal runs of processed numbers in the last 2048, highest
     * first; all of them when there are at most 128, the top 128 otherwise.
     */
    method GetAckRanges() returns (ranges: seq<AckRange>)
      requires Valid()
      ensures highestProcessed.None? ==> ranges == []
      ensures highestProcessed.Some? ==> ranges == TopRuns(Abs().seen, highestProcessed.value)
    {
      ranges := [];
      if highestProcessed.None? {
        return;
      }
      var highest := highestProcessed.value;
      var inRange, currentEnd, diff, i := false, 0, 0, 0;
      ghost var seen := Abs().seen;
      ghost var m := bitmask[..];
      assert seen == SeenOf(m, highest) && InRange(m, highest);
      hide MaskBit, SeenOf, Runs, Scanned, TopRuns, InRange, SlidingWindow.Abs, SlidingWindow.Valid;
      ScanStart(seen, highest);
      while i < WORDS && diff <= highest
        invariant i <= WORDS && (diff <= highest ==> diff == 64 * i)
        invariant Scanned(seen, highest, diff, inRange, currentEnd, ranges)
        invariant |ranges| < MAX_ACK_RANGES
      {
        var word := bitmask[i];
        if !inRange && word == 0 {
          ZeroWord(m, highest, i);
          ScanZeros(seen, highest, diff, currentEnd, ranges);
          diff := diff + 64;
        } else if inRange && word == U64_MAX {
          FullWord(m, highest, i);
          ScanOnes(seen, highest, diff, currentEnd, ranges);
          diff := diff + 64;
        } else {
          diff, inRange, currentEnd, ranges := ScanWord(i, highest, inRange, currentEnd, ranges);
          if |ranges| >= MAX_ACK_RANGES {
            PrefixOfRuns(seen, highest, diff, inRange, currentEnd, ranges);
            return;
          }
        }
        i := i + 1;
      }
      ScanFinished(m, highest, diff, inRange, currentEnd, ranges);
      if inRange {
        ranges := ranges + [AckRange(SaturatingSub(highest, SaturatingSub(diff, 1)), currentEnd)];
      }
    }

    /** Scans the 64 bits of word `i`; stops early when the list is full or the numbers run out. */
    method ScanWord(i: nat, highest: nat, inRange0: bool, end0: nat, ranges0: seq<AckRange>)
      returns (diff: nat, inRange: bool, currentEnd: nat, ranges: seq<AckRange>)
      requires Valid() && highestProcessed == Some(highest) && i < WORDS && 64 * i <= highest
      requires Scanned(Abs().seen, highest, 64 * i, inRange0, end0, ranges0) && |ranges0| < MAX_ACK_RANGES
      ensures Scanned(Abs().seen, highest, diff, inRange, currentEnd, ranges)
      ensures |ranges| <= MAX_ACK_RANGES
      ensures |ranges| < MAX_ACK_RANGES && diff <= highest ==> diff == 64 * i + 64
    {
      hide MaskBit, SeenOf, Runs, Bit;
      ghost var seen := Abs().seen;
      inRange, currentEnd, ranges, diff := inRange0, end0, ranges0, 64 * i;
      var w := bitmask[i];
      assert Shr(bitmask[i], 0) == w;
      for j := 0 to 64
        invariant diff == 64 * i + j
        invariant Scanned(seen, highest, diff, inRange, currentEnd, ranges) && |ranges| < MAX_ACK_RANGES
        invariant w == Shr(bitmask[i], j)
      {
        if diff > highest {
          break;
        }
        var received := w % 2 != 0;
        var pn := highest - diff;
        BitSeen(bitmask[..], highest, i, j);
        if received {
          ScanSeen(seen, highest, diff, inRange, currentEnd, ranges);
          if !inRange {
            inRange := true;
            currentEnd := pn;
          }
        } else {
          ScanGap(seen, highest, diff, inRange, currentEnd, ranges);
          if inRange {
            ranges := ranges + [AckRange(pn + 1, currentEnd)];
            inRange := false;
            if |ranges| >= MAX_ACK_RANGES {
              diff := diff + 1;
              return;
            }
          }
        }
        w := w / 2;
        diff := diff + 1;
      }
    }
  }

  /**
   * The receive side of a connection's packet numbers: a replay window and an ACK tracker, both marked
   * for every packet that is handled.
   */
  class ReceivedNumbers {
    const replayWindow: SlidingWindow
    const ackTracker: SlidingWindow
    /** The numbers whose frames were handled, in order. */
    ghost var handled: seq<nat>

    ghost predicate Valid()
      reads this, replayWindow, replayWindow.bitmask, ackTracker, ackTracker.bitmask
    {
      && replayWindow != ackTracker && replayWindow.bitmask != ackTracker.bitmask
      && replayWindow.Valid() && ackTracker.Valid()
      && replayWindow.Abs() == ackTracker.Abs()
      && Tracks(replayWindow.Abs(), Elements(handled))
      && Distinct(handled)
    }

    constructor ()
      ensures Valid() && handled == []
      ensures fresh(replayWindow) && fresh(replayWindow.bitmask) && fresh(ackTracker) && fresh(ackTracker.bitmask)
    {
      replayWindow := new SlidingWindow();
      ackTracker := new SlidingWindow();
      handled := [];
    }

    /** Handles a packet unless its number is a replay; replay window and ACK tracker never disagree,
        and no number is handled twice. */
    method Receive(pn: nat) returns (handle: bool)
      requires Valid()
      modifies this, replayWindow, replayWindow.bitmask, ackTracker, ackTracker.bitmask
      ensures Valid()
      ensures handle == !old(IsReplay(ackTracker.Abs(), pn))
      ensures handled == if handle then old(handled) + [pn] else old(handled)
    {
      hide SlidingWindow.Valid, SlidingWindow.Abs, IsReplay, Mark, Tracks;
      ghost var w := replayWindow.Abs();
      var replay := replayWindow.CheckReplay(pn);
      handle := !replay;
      if handle {
        Fresh(w, handled, pn);
        replayWindow.MarkProcessed(pn);
        ackTracker.MarkProcessed(pn);
        handled := handled + [pn];
      }
    }
  }

  lemma FirstMark(m: Mask, pn: nat)
    requires m == Zeros()[0 := 1]
    ensures InRange(m, pn) && SeenOf(m, pn) == {pn}
  {
    hide MaskBit, Zeros;
    forall d | 0 <= d < WINDOW ensures MaskBit(m, d) <==> d == 0 { OneOnly(d); }
  }

  lemma SeenBit(m: Mask, h: nat, d: nat)
    requires d < WINDOW && d <= h
    ensures h - d in SeenOf(m, h) <==> MaskBit(m, d)
  {
  }

  /** The bit the scan looks at tells whether its number was processed. */
  lemma BitSeen(m: Mask, h: nat, i: nat, j: nat)
    requires i < WORDS && j < 64 && 64 * i + j <= h
    ensures Shr(m[i], j) % 2 != 0 <==> h - (64 * i + j) in SeenOf(m, h)
    ensures Shr(m[i], j) / 2 == Shr(m[i], j + 1)
  {
    hide SeenOf;
    var d := 64 * i + j;
    SeenBit(m, h, d);
    assert d / 64 == i && d % 64 == j;
    LowBit(m[i], j);
  }

  lemma {:induction false} LowBit(w: nat, k: nat)
    ensures Bit(w, k) <==> Shr(w, k) % 2 == 1
    ensures Shr(w, k) / 2 == Shr(w, k + 1)
    decreases k
  {
    if k > 0 { LowBit(w / 2, k - 1); }
  }

  lemma ZeroWord(m: Mask, h: nat, i: nat)
    requires i < WORDS && m[i] == 0
    ensures forall q: nat | h - 64 * i - 64 < q <= h - 64 * i :: q !in SeenOf(m, h)
  {
    hide SeenOf;
    forall q: nat | h - 64 * i - 64 < q <= h - 64 * i ensures q !in SeenOf(m, h) {
      SeenBit(m, h, h - q);
      ZeroBit((h - q) % 64);
      assert (h - q) / 64 == i;
    }
  }

  lemma FullWord(m: Mask, h: nat, i: nat)
    requires i < WORDS && m[i] == U64_MAX && InRange(m, h)
    ensures 64 * i + 64 <= h + 1
    ensures forall q: nat | h + 1 - 64 * i - 64 <= q < h + 1 - 64 * i :: q in SeenOf(m, h)
  {
    hide SeenOf, Pow2;
    Pow64();
    var d := 64 * i + 63;
    assert d / 64 == i && d % 64 == 63;
    OnesBit(64, 63);
    assert MaskBit(m, d);
    forall q: nat | h + 1 - 64 * i - 64 <= q < h + 1 - 64 * i ensures q in SeenOf(m, h) {
      SeenBit(m, h, h - q);
      assert (h - q) / 64 == i;
      OnesBit(64, (h - q) % 64);
    }
  }

  lemma NothingLower(m: Mask, h: nat, diff: nat)
    requires diff > h || diff >= WINDOW
    ensures forall q: nat | q + diff <= h :: q !in SeenOf(m, h)
  {
  }

  lemma ScanFinished(m: Mask, h: nat, diff: nat, inRange: bool, end: nat, ranges: seq<AckRange>)
    requires Scanned(SeenOf(m, h), h, diff, inRange, end, ranges) && |ranges| < MAX_ACK_RANGES
    requires diff > h || diff >= WINDOW
    ensures TopRuns(SeenOf(m, h), h)
         == if inRange then ranges + [AckRange(SaturatingSub(h, SaturatingSub(diff, 1)), end)] else ranges
  {
    hide Runs, SeenOf;
    NothingLower(m, h, diff);
    ScanEnd(SeenOf(m, h), h, diff, inRange, end, ranges);
  }

  lemma PrefixOfRuns(seen: set<nat>, h: nat, diff: nat, inRange: bool, end: nat, ranges: seq<AckRange>)
    requires Scanned(seen, h, diff, inRange, end, ranges) && |ranges| == MAX_ACK_RANGES
    ensures ranges == TopRuns(seen, h)
  {
    hide Runs;
  }
}
