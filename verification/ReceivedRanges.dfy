/** The received byte ranges of a stream: half-open ranges in ascending order, as an ordered map
    iterates over them. */
module ReceivedRanges {
  import opened Primitives

  datatype Range = Range(lo: nat, hi: nat)

  function Last(r: seq<Range>): Range
    requires r != []
  {
    r[|r| - 1]
  }

  function Init(r: seq<Range>): seq<Range>
    requires r != []
  {
    r[..|r| - 1]
  }

  /** Ranges are non-empty and ascending, with at least one missing offset between two of them. */
  ghost predicate Separated(r: seq<Range>) {
    r != [] ==> Separated(Init(r)) && Last(r).lo < Last(r).hi && (|r| > 1 ==> Last(Init(r)).hi < Last(r).lo)
  }

  ghost predicate Covers(r: seq<Range>, o: nat) {
    r != [] && (Covers(Init(r), o) || Last(r).lo <= o < Last(r).hi)
  }

  /** The covered offsets as a set. */
  ghost function Offsets(r: seq<Range>): set<nat> {
    if r == [] then {} else Offsets(Init(r)) + Interval(Last(r).lo, Last(r).hi)
  }

  /** Sum of the lengths of the ranges. */
  ghost function TotalLen(r: seq<Range>): int {
    if r == [] then 0 else TotalLen(Init(r)) + Last(r).hi - Last(r).lo
  }

  lemma InitConcat(a: seq<Range>, b: seq<Range>)
    requires b != []
    ensures a + b != [] && Init(a + b) == a + Init(b) && Last(a + b) == Last(b)
  {
  }

  lemma {:induction false} TotalLenConcat(a: seq<Range>, b: seq<Range>)
    ensures TotalLen(a + b) == TotalLen(a) + TotalLen(b)
  {
    if b == [] {
      assert a + b == a;
    } else {
      TotalLenConcat(a, Init(b));
      InitConcat(a, b);
    }
  }

  lemma {:induction false} CoversConcat(a: seq<Range>, b: seq<Range>, o: nat)
    ensures Covers(a + b, o) <==> Covers(a, o) || Covers(b, o)
  {
    if b == [] {
      assert a + b == a;
    } else {
      CoversConcat(a, Init(b), o);
      InitConcat(a, b);
    }
  }

  /** Two lists may stand next to each other when a gap separates them. */
  ghost predicate Apart(a: seq<Range>, b: seq<Range>) {
    a != [] && b != [] ==> Last(a).hi < b[0].lo
  }

  lemma {:induction false} SeparatedConcat(a: seq<Range>, b: seq<Range>)
    ensures Separated(a + b) <==> Separated(a) && Separated(b) && Apart(a, b)
  {
    if b == [] {
      assert a + b == a;
    } else {
      InitConcat(a, b);
      SeparatedConcat(a, Init(b));
      if |b| == 1 {
        assert a + Init(b) == a;
      } else {
        assert Init(b)[0] == b[0];
        InitConcat(a, Init(b));
      }
    }
  }

  /** A separated list reaches from its first start to its last end. */
  lemma {:induction false} Span(r: seq<Range>, o: nat)
    requires Separated(r) && r != []
    ensures r[0].lo < Last(r).hi && r[0].lo <= Last(r).lo && r[0].hi <= Last(r).hi
    ensures Covers(r, o) ==> r[0].lo <= o < Last(r).hi
    ensures r[0].lo <= o < r[0].hi ==> Covers(r, o)
  {
    if |r| > 1 {
      Span(Init(r), o);
      assert Init(r)[0] == r[0];
    } else {
      assert !Covers(Init(r), o);
    }
  }

  lemma {:induction false} OffsetsCover(r: seq<Range>, o: nat)
    ensures o in Offsets(r) <==> Covers(r, o)
  {
    if r != [] { OffsetsCover(Init(r), o); }
  }

  /** A separated list covers `TotalLen` offsets. */
  lemma {:induction false} OffsetsCount(r: seq<Range>)
    requires Separated(r)
    ensures |Offsets(r)| == TotalLen(r)
  {
    if r != [] {
      OffsetsCount(Init(r));
      forall o | o in Offsets(Init(r)) ensures o < Last(r).lo {
        OffsetsCover(Init(r), o);
        Span(Init(r), o);
      }
      assert Offsets(Init(r)) !! Interval(Last(r).lo, Last(r).hi);
    }
  }

  /** Non-empty `mid` overlaps or touches `[start, end)` at both of its ends. */
  ghost predicate Touches(mid: seq<Range>, start: nat, end: nat) {
    mid != [] ==> start <= mid[0].hi && Last(mid).lo <= end
  }

  /** The smallest range that includes `mid` and `[start, end)`. */
  function Hull(mid: seq<Range>, start: nat, end: nat): Range {
    if mid == [] then Range(start, end) else Range(Min(start, mid[0].lo), Max(end, Last(mid).hi))
  }

  lemma HullCovers(mid: seq<Range>, start: nat, end: nat, o: nat)
    requires Separated(mid) && Touches(mid, start, end) && start < end
    ensures Covers(mid, o) || start <= o < end <==> Hull(mid, start, end).lo <= o < Hull(mid, start, end).hi
  {
    if mid != [] { Span(mid, o); }
  }

  /** Replacing touching ranges by their hull keeps the list separated and adds exactly `[start, end)`. */
  lemma HullReplaces(pre: seq<Range>, mid: seq<Range>, post: seq<Range>, start: nat, end: nat)
    requires Separated(pre + mid + post) && Touches(mid, start, end) && start < end
    requires pre != [] ==> Last(pre).hi < start
    requires post != [] ==> end < post[0].lo
    ensures Separated(pre + [Hull(mid, start, end)] + post)
    ensures forall o: nat :: Covers(pre + [Hull(mid, start, end)] + post, o)
                        <==> Covers(pre + mid + post, o) || start <= o < end
    ensures TotalLen(pre + [Hull(mid, start, end)] + post) - TotalLen(pre + mid + post)
         == Hull(mid, start, end).hi - Hull(mid, start, end).lo - TotalLen(mid)
  {
    var hull := [Hull(mid, start, end)];
    SeparatedConcat(pre + mid, post);
    SeparatedConcat(pre, mid);
    HullApart(pre, mid, post, start, end);
    SeparatedConcat(pre, hull);
    SeparatedConcat(pre + hull, post);
    forall o: nat
      ensures Covers(pre + hull + post, o) <==> Covers(pre + mid + post, o) || start <= o < end
    {
      CoversConcat(pre + mid, post, o);
      CoversConcat(pre, mid, o);
      CoversConcat(pre + hull, post, o);
      CoversConcat(pre, hull, o);
      HullCovers(mid, start, end, o);
    }
    TotalLenConcat(pre + mid, post);
    TotalLenConcat(pre, mid);
    TotalLenConcat(pre + hull, post);
    TotalLenConcat(pre, hull);
  }

  lemma HullApart(pre: seq<Range>, mid: seq<Range>, post: seq<Range>, start: nat, end: nat)
    requires Separated(mid) && Apart(pre, mid) && Apart(pre + mid, post) && start < end
    requires pre != [] ==> Last(pre).hi < start
    requires post != [] ==> end < post[0].lo
    ensures Separated([Hull(mid, start, end)])
    ensures Apart(pre, [Hull(mid, start, end)]) && Apart(pre + [Hull(mid, start, end)], post)
  {
    if mid != [] {
      Span(mid, 0);
      InitConcat(pre, mid);
    }
  }

  /** Progress of the scan: `mid` touches `[start, end)`, `hull` is its hull with it, and it already
      covers `overlap` of its offsets. */
  ghost predicate Scanned(mid: seq<Range>, start: nat, end: nat, hull: Range, overlap: nat) {
    && Touches(mid, start, end)
    && hull == Hull(mid, start, end)
    && overlap == TotalLen(mid) + (end - start) - (hull.hi - hull.lo)
    && (mid != [] ==> start <= Last(mid).hi && overlap <= Min(end, Last(mid).hi) - start)
  }

  lemma ScanNext(mid: seq<Range>, next: Range, start: nat, end: nat, hull: Range, overlap: nat)
    requires Scanned(mid, start, end, hull, overlap) && start < end
    requires next.lo < next.hi && next.lo <= end && start <= next.hi && Apart(mid, [next])
    ensures Scanned(mid + [next], start, end, Range(Min(hull.lo, next.lo), Max(hull.hi, next.hi)),
                    overlap + SaturatingSub(Min(end, next.hi), Max(start, next.lo)))
  {
    TotalLenConcat(mid, [next]);
    assert Last(mid + [next]) == next;
  }
  
  /** A separated list split in three: the parts are apart, and the next range is apart from what
      comes before it. */
  lemma SplitApart(pre: seq<Range>, mid: seq<Range>, post: seq<Range>)
    requires Separated(pre + mid + post)
    ensures Separated(mid) && Apart(pre, mid) && Apart(pre + mid, post) && Apart(mid, post)
    ensures post != [] ==> post[0].lo < post[0].hi
  {
    SeparatedConcat(pre + mid, post);
    SeparatedConcat(pre, mid);
    if mid != [] { InitConcat(pre, mid); }
    if post != [] {
      Span(post, post[0].lo);
      assert post == [post[0]] + post[1..];
      SeparatedConcat([post[0]], post[1..]);
    }
  }

  lemma MoveFirst(pre: seq<Range>, mid: seq<Range>, post: seq<Range>)
    requires post != []
    ensures pre + (mid + [post[0]]) + post[1..] == pre + mid + post
    ensures mid == [] ==> (pre + [post[0]]) + mid + post[1..] == pre + mid + post
    ensures Last(pre + [post[0]]) == post[0]
  {
    assert post == [post[0]] + post[1..];
  }

  /** The scan over the ranges that start at or below `end`; those of `mid` touch `[start, end)`. */
  method ScanTouching(ranges: seq<Range>, start: nat, end: nat)
    returns (pre: seq<Range>, mid: seq<Range>, post: seq<Range>, mergedStart: nat, mergedEnd: nat, overlap: nat)
    requires Separated(ranges) && start < end
    ensures ranges == pre + mid + post
    ensures Scanned(mid, start, end, Range(mergedStart, mergedEnd), overlap)
    ensures pre != [] ==> Last(pre).hi < start
    ensures post != [] ==> end < post[0].lo
  {
    mergedStart, mergedEnd, overlap, pre, mid, post := start, end, 0, [], [], ranges;
    while post != [] && post[0].lo <= end
      invariant ranges == pre + mid + post
      invariant Scanned(mid, start, end, Range(mergedStart, mergedEnd), overlap)
      invariant pre != [] ==> Last(pre).hi < start
      decreases |post|
    {
      var range := post[0];
      SplitApart(pre, mid, post);
      MoveFirst(pre, mid, post);
      if range.hi >= start {
        ScanNext(mid, range, start, end, Range(mergedStart, mergedEnd), overlap);
        var overlapStart, overlapEnd := Max(start, range.lo), Min(end, range.hi);
        if overlapEnd > overlapStart {
          overlap := overlap + (overlapEnd - overlapStart);
        }
        mergedStart := Min(mergedStart, range.lo);
        mergedEnd := Max(mergedEnd, range.hi);
        mid := mid + [range];
      } else {
        pre := pre + [range];
      }
      post := post[1..];
    }
  }

  /** The first range that starts at or after `end`, if any. */
  function NextStart(mid: seq<Range>, post: seq<Range>, end: nat): seq<Range> {
    if mid != [] && Last(mid).lo == end then [Last(mid)] else post
  }

  /**
   * Inserts `[start, end)` and merges every overlapping or adjacent range. The ranges stay
   * separated, exactly the new interval becomes covered, and the count returned is the number of
   * offsets that were not covered before.
   */
  method AddRange(ranges: seq<Range>, start: nat, end: nat) returns (merged: seq<Range>, added: nat)
    requires Separated(ranges) && start < end
    ensures Separated(merged)
    ensures forall o: nat :: Covers(merged, o) <==> Covers(ranges, o) || start <= o < end
    ensures added == |Offsets(merged)| - |Offsets(ranges)|
  {
    var pre, mid, post, mergedStart, mergedEnd, overlap := ScanTouching(ranges, start, end);
    SplitApart(pre, mid, post);
    var next := NextStart(mid, post, end);
    if next != [] && next[0].lo <= mergedEnd {
      mergedEnd := Max(mergedEnd, next[0].hi);
    }
    merged := pre + [Range(mergedStart, mergedEnd)] + post;
    added := SaturatingSub(end - start, overlap);
    HullReplaces(pre, mid, post, start, end);
    OffsetsCount(ranges);
    OffsetsCount(merged);
  }
}
