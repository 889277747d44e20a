/**
 * Truncated packet numbers between two endpoints: how many bytes the sender chooses depends on what it
 * still tracks, whether they suffice depends on what the receiver has handled, and nothing but
 * acknowledgements connects the two.
 */
module NumberExchange {
  import opened Primitives
  import opened Wire
  import opened PacketNumber
  import opened PacketMask

  /**
   * The sender's next number and tracked numbers, the base each number was truncated against, the
   * numbers the receiver handled, and the highest of them (0 before the first).
   */
  datatype State = State(next: nat, unacked: set<nat>, bases: map<nat, nat>, handled: set<nat>, highest: nat)

  /** `Send(false)` is a packet that is not tracked; `Forget` stands for every way a number stops being
      tracked: acknowledged, declared lost or expired. */
  datatype Step = Send(tracked: bool) | Forget(pn: nat) | Arrive(pn: nat)

  const START: State := State(0, {}, map[], {}, 0)

  /** The least member of `s` from `k` on, or `d` when there is none below `d`. */
  ghost function Least(s: set<nat>, k: nat, d: nat): (l: nat)
    requires k <= d
    ensures k <= l <= d && (forall x: nat | k <= x < l :: x !in s) && (l < d ==> l in s)
    decreases d - k
  {
    if k == d || k in s then k else Least(s, k + 1, d)
  }

  /** One below the oldest tracked number, or below the number itself. */
  ghost function BaseOf(unacked: set<nat>, pn: nat): nat { SaturatingSub(Least(unacked, 0, pn), 1) }

  /** Half the decoding window of a number truncated against `base`. */
  function Reach(pn: nat, base: nat): nat { Pow256(PnLen(pn, base)) / 2 }

  /** The receiver expands the truncated number to the number itself. */
  predicate Recovered(pn: nat, base: nat, highest: nat) {
    ExpandPn(TruncatePn(pn, base).0, TruncatePn(pn, base).1, highest) == pn
  }

  ghost function Next(s: State, step: Step): State {
    match step
    case Send(tracked) =>
      if s.next >= U64_MAX then s
      else
        s.(next := s.next + 1, unacked := if tracked then s.unacked + {s.next} else s.unacked,
           bases := s.bases[s.next := BaseOf(s.unacked, s.next)])
    case Forget(pn) => s.(unacked := s.unacked - {pn})
    case Arrive(pn) =>
      // a number expanded wrongly fails authentication, one 2048 behind counts as a replay
      if pn !in s.bases || !Recovered(pn, s.bases[pn], s.highest) || s.highest >= pn + WINDOW then s
      else s.(handled := s.handled + {pn}, highest := Max(s.highest, pn))
  }

  ghost function Run(steps: seq<Step>): State {
    if steps == [] then START else Next(Run(steps[..|steps| - 1]), steps[|steps| - 1])
  }

  ghost predicate Inv(s: State) {
    && s.next <= U64_MAX && (forall pn: nat :: pn in s.bases <==> pn < s.next)
    && (forall pn | pn in s.unacked :: pn < s.next)
    && (forall pn | pn in s.handled :: pn <= s.highest && pn < s.next)
    && (s.highest in s.handled || s.highest == 0)
  }

  lemma {:induction false} EveryRunKeeps(steps: seq<Step>)
    ensures Inv(Run(steps))
    decreases |steps|
  {
    hide Recovered, BaseOf;
    if steps != [] { EveryRunKeeps(steps[..|steps| - 1]); }
  }

  // ---------- exactly which packets are recovered ----------

  /** The number is not too far ahead of the receiver and not too far behind it. */
  predicate InReach(pn: nat, reach: nat, highest: nat) {
    if pn > highest then pn <= highest + 1 + reach || (highest + 1 < reach && pn < 2 * reach)
    else highest + 1 < pn + reach
  }

  lemma RecoveredExactly(pn: nat, base: nat, highest: nat)
    requires pn <= U64_MAX && highest < U64_MAX
    ensures Recovered(pn, base, highest) <==> InReach(pn, Reach(pn, base), highest)
  {
    hide Pow256, PnLen, ExpandPn;
    Window(PnLen(pn, base));
    RoundTripExactly(pn, base, highest);
  }

  /**
   * The same for all packets of a run at once: every packet sent so far would be recovered on arrival
   * exactly when each is within half a window of the length chosen for it, ahead of the receiver's
   * highest number or behind it. All the run adds is that its numbers stay within 64 bits.
   */
  lemma AllRecoveredExactly(steps: seq<Step>)
    ensures var s := Run(steps);
            (forall pn | pn in s.bases :: Recovered(pn, s.bases[pn], s.highest))
            <==> (forall pn | pn in s.bases :: InReach(pn, Reach(pn, s.bases[pn]), s.highest))
  {
    hide Run, Recovered, InReach, Reach;
    EveryRunKeeps(steps);
    var s := Run(steps);
    forall pn | pn in s.bases
      ensures Recovered(pn, s.bases[pn], s.highest) <==> InReach(pn, Reach(pn, s.bases[pn]), s.highest)
    {
      RecoveredExactly(pn, s.bases[pn], s.highest);
    }
  }

  // ---------- a sender that forgets only what the receiver handled ----------

  /** Everything sent is tracked, and forgotten only after the receiver handled it. */
  ghost predicate Careful(steps: seq<Step>) {
    steps != [] ==>
      var init, last := steps[..|steps| - 1], steps[|steps| - 1];
      Careful(init) && last != Send(false) && (last.Forget? ==> last.pn in Run(init).handled)
  }

  ghost predicate Covered(s: State) {
    && (forall pn: nat | pn < s.next :: pn in s.unacked || pn in s.handled)
    && (forall pn | pn in s.bases :: s.bases[pn] == 0 || s.bases[pn] in s.handled)
  }

  lemma {:induction false} CarefulCovers(steps: seq<Step>)
    requires Careful(steps)
    ensures Covered(Run(steps))
    decreases |steps|
  {
    hide Recovered;
    if steps != [] {
      var init, last := steps[..|steps| - 1], steps[|steps| - 1];
      CarefulCovers(init);
      EveryRunKeeps(init);
      if last.Send? { BaseHandled(Run(init)); }
    }
  }

  lemma BaseHandled(s: State)
    requires Covered(s)
    ensures var b := BaseOf(s.unacked, s.next); b == 0 || b in s.handled
  {
    var l := Least(s.unacked, 0, s.next);
    if l > 0 { assert l - 1 !in s.unacked; }
  }

  /**
   * In every such run a packet newer than anything the receiver handled is recovered, as long as less
   * than 2^31 numbers were in flight when it was sent; an older one exactly when the receiver is less
   * than half a window past it.
   */
  lemma CarefulRunsRecover(steps: seq<Step>, pn: nat)
    requires Careful(steps)
    ensures var s := Run(steps);
            pn in s.bases && pn < s.bases[pn] + 0x8000_0000 ==>
              (Recovered(pn, s.bases[pn], s.highest) <==> pn > s.highest || s.highest + 1 < pn + Reach(pn, s.bases[pn]))
  {
    hide Run, Pow256, PnLen, Recovered;
    CarefulCovers(steps);
    EveryRunKeeps(steps);
    var s := Run(steps);
    if pn in s.bases && pn < s.bases[pn] + 0x8000_0000 {
      RecoveredExactly(pn, s.bases[pn], s.highest);
      LenCovers(pn, s.bases[pn]);
      Window(PnLen(pn, s.bases[pn]));
    }
  }

  // ---------- a sender that forgets, or never tracks, a few numbers ----------

  /** The numbers above the receiver's highest that the sender does not track. */
  ghost function Loose(s: State): set<nat> {
    var above := Interval(s.highest + 1, s.next);
    set pn | pn in above && pn !in s.unacked
  }

  /** At every send at most `k` numbers above the receiver's highest are untracked: sent as bare
      acknowledgements, or given up. */
  ghost predicate Tight(steps: seq<Step>, k: nat) {
    steps != [] ==>
      var init, last := steps[..|steps| - 1], steps[|steps| - 1];
      Tight(init, k) && (last.Send? ==> |Loose(Run(init))| <= k)
  }

  /** A sender that tracks everything and forgets only what was handled has no loose number. */
  lemma {:induction false} CarefulIsTight(steps: seq<Step>)
    requires Careful(steps)
    ensures Tight(steps, 0)
    decreases |steps|
  {
    hide Run;
    if steps != [] {
      var init := steps[..|steps| - 1];
      CarefulIsTight(init);
      CarefulCovers(init);
      EveryRunKeeps(init);
      assert Loose(Run(init)) == {};
    }
  }

  /** The base runs ahead of the receiver by at most the loose numbers. */
  lemma BaseWithinLoose(s: State)
    ensures BaseOf(s.unacked, s.next) <= s.highest + |Loose(s)|
  {
    var l := Least(s.unacked, 0, s.next);
    var gap := Interval(s.highest + 1, l);
    assert gap <= Loose(s);
    SubsetSize(gap, Loose(s));
  }

  ghost predicate BasesWithin(s: State, k: nat) {
    forall pn | pn in s.bases :: s.bases[pn] <= s.highest + k
  }

  lemma TightNext(s: State, step: Step, k: nat)
    requires BasesWithin(s, k) && (step.Send? ==> |Loose(s)| <= k)
    ensures BasesWithin(Next(s, step), k)
  {
    hide Recovered, Loose, BaseOf;
    BaseWithinLoose(s);
  }

  lemma {:induction false} TightBases(steps: seq<Step>, k: nat)
    requires Tight(steps, k)
    ensures BasesWithin(Run(steps), k)
    decreases |steps|
  {
    hide Next, Loose;
    if steps != [] {
      var init, last := steps[..|steps| - 1], steps[|steps| - 1];
      TightBases(init, k);
      TightNext(Run(init), last, k);
    }
  }

  /**
   * In every such run a packet newer than anything the receiver handled is recovered, as long as the
   * numbers in flight when it was sent and the `k` loose ones together fit half a window. With `k` zero
   * they always do, below 2^31.
   */
  lemma TightRunsRecover(steps: seq<Step>, k: nat, pn: nat)
    requires Tight(steps, k)
    ensures var s := Run(steps);
            && (pn in s.bases && pn > s.highest && pn + k <= s.bases[pn] + Reach(pn, s.bases[pn]) + 1
                ==> Recovered(pn, s.bases[pn], s.highest))
            && (k == 0 && pn in s.bases && pn > s.highest && pn < s.bases[pn] + 0x8000_0000
                ==> Recovered(pn, s.bases[pn], s.highest))
  {
    hide Run, Pow256, PnLen, Recovered;
    TightBases(steps, k);
    EveryRunKeeps(steps);
    var s := Run(steps);
    if pn in s.bases && pn > s.highest {
      RecoveredExactly(pn, s.bases[pn], s.highest);
      Window(PnLen(pn, s.bases[pn]));
      if pn < s.bases[pn] + 0x8000_0000 { LenCovers(pn, s.bases[pn]); }
    }
  }

  // ---------- a timeout that empties the window ----------

  ghost function Sends(n: nat): seq<Step> { seq(n, _ => Send(true)) }

  ghost function Forgets(n: nat): seq<Step> { seq(n, i requires 0 <= i => Forget(i)) }

  lemma RunNext(steps: seq<Step>, step: Step)
    ensures Run(steps + [step]) == Next(Run(steps), step)
  {
    hide Next;
    assert (steps + [step])[..|steps|] == steps;
  }

  lemma {:induction false} SendsState(n: nat)
    requires n <= U64_MAX
    ensures var s := Run(Sends(n));
            && s.next == n && s.unacked == Interval(0, n) && s.handled == {} && s.highest == 0
            && (forall pn | pn in s.bases :: s.bases[pn] == 0)
    decreases n
  {
    hide Run;
    if n == 0 {
      assert Sends(0) == [];
      NoSteps();
    } else {
      SendsState(n - 1);
      assert Sends(n) == Sends(n - 1) + [Send(true)];
      RunNext(Sends(n - 1), Send(true));
      assert Interval(0, n) == Interval(0, n - 1) + {n - 1};
    }
  }

  lemma NoSteps()
    ensures Run([]) == START
  {
  }

  lemma {:induction false} SendsMore(steps: seq<Step>, n: nat)
    requires Run(steps).next + n <= U64_MAX
    ensures var s, s' := Run(steps), Run(steps + Sends(n));
            s'.next == s.next + n && s'.handled == s.handled && s'.highest == s.highest
    decreases n
  {
    hide Run;
    if n == 0 {
      assert steps + Sends(0) == steps;
    } else {
      SendsMore(steps, n - 1);
      assert steps + Sends(n) == steps + Sends(n - 1) + [Send(true)];
      RunNext(steps + Sends(n - 1), Send(true));
    }
  }

  lemma {:induction false} ForgetsAll(steps: seq<Step>, n: nat)
    ensures var s, s' := Run(steps), Run(steps + Forgets(n));
            s' == s.(unacked := s'.unacked) && s'.unacked == s.unacked - Interval(0, n)
    decreases n
  {
    hide Run;
    if n == 0 {
      assert steps + Forgets(0) == steps;
    } else {
      ForgetsAll(steps, n - 1);
      assert steps + Forgets(n) == steps + Forgets(n - 1) + [Forget(n - 1)];
      RunNext(steps + Forgets(n - 1), Forget(n - 1));
    }
  }

  ghost function Arrives(n: nat): seq<Step> { seq(n, i requires 0 <= i => Arrive(i)) }

  /** The receiver handles the numbers up to `h` of `n`, and everything sent expires at once. */
  ghost function Timeout(h: nat, n: nat): seq<Step>
    requires h < n
  {
    Sends(h + 1) + Arrives(h + 1) + Sends(n - h - 1) + Forgets(n)
  }

  lemma {:induction false} ArrivesState(n: nat, k: nat)
    requires k <= n <= U64_MAX
    ensures var s := Run(Sends(n) + Arrives(k));
            && s.next == n && s.highest == SaturatingSub(k, 1)
            && (forall pn | pn in s.bases :: s.bases[pn] == 0)
    decreases k
  {
    hide Run, Recovered;
    if k == 0 {
      assert Sends(n) + Arrives(0) == Sends(n);
      SendsState(n);
    } else {
      ArrivesState(n, k - 1);
      assert Sends(n) + Arrives(k) == Sends(n) + Arrives(k - 1) + [Arrive(k - 1)];
      RunNext(Sends(n) + Arrives(k - 1), Arrive(k - 1));
      EveryRunKeeps(Sends(n) + Arrives(k - 1));
      InOrderRecovered(k - 1);
    }
  }

  lemma InOrderRecovered(pn: nat)
    requires pn < U64_MAX
    ensures Recovered(pn, 0, SaturatingSub(pn, 1))
  {
    hide PnLen, Pow256, ExpandPn;
    Window(PnLen(pn, 0));
    RecoveredExactly(pn, 0, SaturatingSub(pn, 1));
  }

  lemma TimeoutState(h: nat, n: nat)
    requires h < n < U64_MAX
    ensures var s := Run(Timeout(h, n)); s.next == n && s.highest == h && s.unacked == {}
  {
    hide Run, Recovered;
    var arrived := Sends(h + 1) + Arrives(h + 1);
    ArrivesState(h + 1, h + 1);
    SendsMore(arrived, n - h - 1);
    var sent := arrived + Sends(n - h - 1);
    ForgetsAll(sent, n);
    EveryRunKeeps(sent);
  }

  lemma OneByte(pn: nat)
    requires 0 < pn
    ensures PnLen(pn, pn - 1) == 1 && Reach(pn, pn - 1) == 128
  {
    assert Pow256(1) == 256;
  }

  lemma {:induction false} NothingTracked(k: nat, d: nat)
    requires k <= d
    ensures Least({}, k, d) == d
    decreases d - k
  {
    if k < d { NothingTracked(k + 1, d); }
  }

  /** The packet that follows such a timeout is truncated to one byte, so it is recovered exactly when
      the receiver misses at most 128 numbers or, before its 128th, the number is below 256. */
  lemma TimeoutRecovers(h: nat, n: nat)
    requires h < n < U64_MAX
    ensures var s := Run(Timeout(h, n) + [Send(true)]);
            && n in s.bases && s.highest == h
            && (Recovered(n, s.bases[n], s.highest) <==> n <= h + 129 || (h < 127 && n < 256))
  {
    hide Run, Recovered, Timeout, Reach, PnLen;
    TimeoutState(h, n);
    RunNext(Timeout(h, n), Send(true));
    NothingTracked(0, n);
    OneByte(n);
    RecoveredExactly(n, n - 1, h);
  }

  /** The receiver is at 99, number 1000 follows a timeout of everything in flight, and is lost. */
  lemma LostAfterTimeout()
    ensures var s := Run(Timeout(99, 1000) + [Send(true)]);
            1000 in s.bases && s.highest == 99 && !Recovered(1000, s.bases[1000], 99)
  {
    hide Run, Recovered, Timeout;
    TimeoutRecovers(99, 1000);
  }
}
