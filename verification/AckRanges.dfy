/** Maximal runs of processed packet numbers, highest first, and how a downward scan collects them. */
module AckRanges {
  import opened Primitives

  /** An inclusive range of packet numbers. */
  datatype AckRange = AckRange(start: nat, end: nat)

  const MAX_ACK_RANGES: nat := 128

  /** The lowest number of the run that contains `p`. */
  ghost function RunStart(seen: set<nat>, p: nat): (q: nat)
    ensures q <= p
  {
    if p > 0 && p - 1 in seen then RunStart(seen, p - 1) else p
  }

  /** All runs at or below `p`, in descending order. */
  ghost function Runs(seen: set<nat>, p: int): seq<AckRange>
    decreases p + 1
  {
    if p < 0 then []
    else if p !in seen then Runs(seen, p - 1)
    else [AckRange(RunStart(seen, p), p)] + Runs(seen, RunStart(seen, p) - 1)
  }

  /** The runs that fit into one acknowledgement. */
  ghost function TopRuns(seen: set<nat>, h: nat): seq<AckRange> {
    var all := Runs(seen, h);
    if |all| <= MAX_ACK_RANGES then all else all[..MAX_ACK_RANGES]
  }

  // ---------- what the runs are ----------

  /** `r` is a maximal run of seen numbers. */
  ghost predicate IsRun(seen: set<nat>, r: AckRange) {
    && r.start <= r.end
    && (forall q: nat | r.start <= q <= r.end :: q in seen)
    && r.end + 1 !in seen
    && (r.start > 0 ==> r.start - 1 !in seen)
  }

  ghost predicate InSome(rs: seq<AckRange>, q: nat) {
    exists i :: 0 <= i < |rs| && rs[i].start <= q <= rs[i].end
  }

  lemma {:induction false} RunStartBounds(seen: set<nat>, p: nat)
    requires p in seen
    ensures forall q | RunStart(seen, p) <= q <= p :: q in seen
    ensures RunStart(seen, p) > 0 ==> RunStart(seen, p) - 1 !in seen
  {
    if p > 0 && p - 1 in seen { RunStartBounds(seen, p - 1); }
  }

  /** Every listed range is a maximal run, and the runs descend with a gap between them. */
  lemma {:induction false} RunsAreRuns(seen: set<nat>, p: int)
    requires p >= 0 ==> p + 1 !in seen
    ensures forall i | 0 <= i < |Runs(seen, p)| :: IsRun(seen, Runs(seen, p)[i]) && Runs(seen, p)[i].end <= p
    ensures forall i, j | 0 <= i < j < |Runs(seen, p)| :: Runs(seen, p)[j].end + 1 < Runs(seen, p)[i].start
    decreases p + 1
  {
    if p >= 0 {
      if p !in seen {
        RunsAreRuns(seen, p - 1);
      } else {
        var q: int := RunStart(seen, p);
        RunStartBounds(seen, p);
        if q > 0 { RunsBelowGap(seen, q); }
        RunsAreRuns(seen, q - 2);
      }
    }
  }

  lemma RunsBelowGap(seen: set<nat>, q: nat)
    requires q > 0 && q - 1 !in seen
    ensures Runs(seen, q - 1) == Runs(seen, q - 2)
  {
  }

  /** Every seen number at or below `p` lies in a listed run. */
  lemma {:induction false} RunsComplete(seen: set<nat>, p: int, q: nat)
    requires q in seen && q <= p
    ensures InSome(Runs(seen, p), q)
    decreases p + 1
  {
    var rs := Runs(seen, p);
    if p !in seen {
      RunsComplete(seen, p - 1, q);
    } else if q < RunStart(seen, p) {
      var rest := Runs(seen, RunStart(seen, p) - 1);
      RunsComplete(seen, RunStart(seen, p) - 1, q);
      var i :| 0 <= i < |rest| && rest[i].start <= q <= rest[i].end;
      assert rs[i + 1] == rest[i];
    } else {
      assert rs[0].start <= q <= rs[0].end;
    }
  }

  /** An acknowledgement leaves a seen number out only when it is full, with 128 ranges all above it. */
  lemma TopRunsComplete(seen: set<nat>, h: nat, q: nat)
    requires q in seen && q <= h && h + 1 !in seen
    ensures var top := TopRuns(seen, h);
            || InSome(top, q)
            || (|top| == 128 && forall i | 0 <= i < |top| :: top[i].start > q)
  {
    hide Runs;
    var all, top := Runs(seen, h), TopRuns(seen, h);
    RunsAreRuns(seen, h);
    RunsComplete(seen, h, q);
    var j :| 0 <= j < |all| && all[j].start <= q <= all[j].end;
    if j < |top| {
      assert top[j] == all[j];
    } else {
      forall i | 0 <= i < |top| ensures top[i].start > q {
        assert top[i] == all[i];
      }
    }
  }

  // ---------- the scan ----------

  lemma {:induction false} SkipGap(seen: set<nat>, p: int, n: nat)
    requires forall q: nat | p - n < q <= p :: q !in seen
    ensures Runs(seen, p) == Runs(seen, p - n)
    decreases n
  {
    if n > 0 && p >= 0 { SkipGap(seen, p - 1, n - 1); }
  }

  lemma {:induction false} SkipRun(seen: set<nat>, p: nat, n: nat)
    requires n <= p && forall q: nat | p - n <= q < p :: q in seen
    ensures RunStart(seen, p) == RunStart(seen, p - n)
    decreases n
  {
    if n > 0 { SkipRun(seen, p - 1, n - 1); }
  }

  /**
   * Progress of the downward scan after `diff` numbers from `h`: outside a run, the collected ranges
   * and the runs still below make up all runs; inside one, the run that ends at `end` goes on at
   * least down to the last scanned number.
   */
  ghost predicate Scanned(seen: set<nat>, h: nat, diff: nat, inRange: bool, end: nat, ranges: seq<AckRange>) {
    if inRange then
      && diff <= h + 1 && h + 1 - diff in seen && end in seen
      && RunStart(seen, end) == RunStart(seen, h + 1 - diff)
      && ranges + Runs(seen, end) == Runs(seen, h)
    else
      ranges + Runs(seen, h - diff) == Runs(seen, h)
  }

  lemma ScanStart(seen: set<nat>, h: nat)
    ensures Scanned(seen, h, 0, false, 0, [])
  {
    hide Runs;
    assert [] + Runs(seen, h) == Runs(seen, h);
  }

  lemma ScanSeen(seen: set<nat>, h: nat, diff: nat, inRange: bool, end: nat, ranges: seq<AckRange>)
    requires Scanned(seen, h, diff, inRange, end, ranges) && diff <= h && h - diff in seen
    ensures Scanned(seen, h, diff + 1, true, if inRange then end else h - diff, ranges)
  {
  }

  lemma ScanGap(seen: set<nat>, h: nat, diff: nat, inRange: bool, end: nat, ranges: seq<AckRange>)
    requires Scanned(seen, h, diff, inRange, end, ranges) && diff <= h && h - diff !in seen
    ensures Scanned(seen, h, diff + 1, false, end,
                    if inRange then ranges + [AckRange(h - diff + 1, end)] else ranges)
  {
    if inRange {
      var pn := h - diff;
      assert RunStart(seen, end) == pn + 1;
      assert Runs(seen, end) == [AckRange(pn + 1, end)] + Runs(seen, pn);
      assert ranges + ([AckRange(pn + 1, end)] + Runs(seen, pn)) == ranges + [AckRange(pn + 1, end)] + Runs(seen, pn);
    }
  }

  lemma ScanZeros(seen: set<nat>, h: nat, diff: nat, end: nat, ranges: seq<AckRange>)
    requires Scanned(seen, h, diff, false, end, ranges)
    requires forall q: nat | h - diff - 64 < q <= h - diff :: q !in seen
    ensures Scanned(seen, h, diff + 64, false, end, ranges)
  {
    SkipGap(seen, h - diff, 64);
  }

  lemma ScanOnes(seen: set<nat>, h: nat, diff: nat, end: nat, ranges: seq<AckRange>)
    requires Scanned(seen, h, diff, true, end, ranges) && diff + 64 <= h + 1
    requires forall q: nat | h + 1 - diff - 64 <= q < h + 1 - diff :: q in seen
    ensures Scanned(seen, h, diff + 64, true, end, ranges)
  {
    SkipRun(seen, h + 1 - diff, 64);
  }

  /** When the scan stops below the lowest seen number, one last push completes the list. */
  lemma ScanEnd(seen: set<nat>, h: nat, diff: nat, inRange: bool, end: nat, ranges: seq<AckRange>)
    requires Scanned(seen, h, diff, inRange, end, ranges)
    requires forall q: nat | q + diff <= h :: q !in seen
    ensures inRange ==> diff <= h + 1
    ensures Runs(seen, h) == if inRange then ranges + [AckRange(h + 1 - diff, end)] else ranges
  {
    if inRange {
      var low := h + 1 - diff;
      assert RunStart(seen, end) == low;
      assert Runs(seen, end) == [AckRange(low, end)] + Runs(seen, low - 1);
      NothingBelow(seen, low - 1);
    } else {
      NothingBelow(seen, h - diff);
    }
  }

  lemma {:induction false} NothingBelow(seen: set<nat>, p: int)
    requires forall q: nat | q <= p :: q !in seen
    ensures Runs(seen, p) == []
    decreases p + 1
  {
    if p >= 0 { NothingBelow(seen, p - 1); }
  }
}
