/** Path-MTU discovery: a binary search between a size known to pass and a size not known to fail. */
module Pmtud {
  import opened Primitives
  import opened Bits

  /** `mtu` in use, search bounds `min` and `max`, and the configured floor `base`. */
  datatype Path = Path(mtu: nat, min: nat, max: nat, base: nat)

  /** Probing stops when the bounds are this close. */
  const RESOLUTION: nat := 10

  predicate Converged(p: Path) { p.max <= p.min + RESOLUTION }

  function ProbeSize(p: Path): nat
    requires !Converged(p)
  {
    p.min + (p.max - p.min) / 2
  }

  function ProbeAcked(p: Path, size: nat): Path {
    p.(min := Max(p.min, size), mtu := if size > p.mtu then size else p.mtu)
  }

  function ProbeLost(p: Path, size: nat): Path {
    p.(max := Min(p.max, SaturatingSub(size, 1)))
  }

  function BlackHole(p: Path): Path {
    if p.mtu <= p.base then p else Path(p.base, p.base, Max(SaturatingSub(p.mtu, 1), p.base), p.base)
  }

  /** What an acknowledged probe does: only a size above the current one is recorded. */
  function OnProbeAcked(p: Path, size: nat): Path {
    if size > p.mtu then ProbeAcked(p, size) else p
  }

  // ---------- every run with probe outcomes faithful to a path limit ----------

  /** The search bounds enclose the path's true limit. */
  ghost predicate Encloses(p: Path, limit: nat) { p.mtu == p.min <= limit <= p.max }

  /** A search and the sizes of its unresolved probes. */
  datatype Search = Search(path: Path, outstanding: multiset<nat>)

  datatype Event = Probe | Acked(size: nat) | Lost(size: nat) | Forgotten(size: nat)

  /** Probes come back exactly when they fit the path; a probe may also be forgotten unresolved. */
  ghost function Step(s: Search, e: Event, limit: nat): Search {
    match e
    case Probe =>
      if Converged(s.path) then s else s.(outstanding := s.outstanding + multiset{ProbeSize(s.path)})
    case Acked(size) =>
      if size in s.outstanding && size <= limit
      then Search(OnProbeAcked(s.path, size), s.outstanding - multiset{size}) else s
    case Lost(size) =>
      if size in s.outstanding && size > limit
      then Search(ProbeLost(s.path, size), s.outstanding - multiset{size}) else s
    case Forgotten(size) => s.(outstanding := s.outstanding - multiset{size})
  }

  ghost function Run(s: Search, events: seq<Event>, limit: nat): Search {
    if events == [] then s else Step(Run(s, events[..|events| - 1], limit), events[|events| - 1], limit)
  }

  /** With any number of outstanding probes in any order, the bounds enclose the limit and only get
      tighter; once probing stops, the size in use is within the resolution of the limit. */
  lemma {:induction false} SearchEncloses(s: Search, events: seq<Event>, limit: nat)
    requires Encloses(s.path, limit)
    ensures var p := Run(s, events, limit).path;
            && Encloses(p, limit) && s.path.min <= p.min && p.max <= s.path.max
            && (Converged(p) ==> limit - p.mtu <= 10)
  {
    if events != [] { SearchEncloses(s, events[..|events| - 1], limit); }
  }

  /** After a black hole the search restarts: it encloses exactly the limits from the floor up to the
      size that failed. At the floor nothing changes, so the size in use never falls below it. */
  lemma BlackHoleRestarts(p: Path, limit: nat)
    ensures p.mtu > p.base ==> (Encloses(BlackHole(p), limit) <==> p.base <= limit < p.mtu)
    ensures p.mtu > p.base ==> BlackHole(p).mtu == p.base
    ensures p.mtu <= p.base ==> BlackHole(p) == p
    ensures p.base <= p.mtu ==> p.base <= BlackHole(p).mtu <= p.mtu
    ensures BlackHole(p).base == p.base
  {
  }

  // ---------- convergence ----------

  function Gap(p: Path): nat { SaturatingSub(p.max, p.min) }

  /** One probe resolved against the bounds it was chosen from. */
  function Round(p: Path, limit: nat): Path {
    if Converged(p) then p
    else if ProbeSize(p) <= limit then OnProbeAcked(p, ProbeSize(p)) else ProbeLost(p, ProbeSize(p))
  }

  function Rounds(p: Path, limit: nat, n: nat): Path
    decreases n
  {
    if n == 0 then p else Rounds(Round(p, limit), limit, n - 1)
  }

  /** A probe asks for the midpoint, rounded down: acknowledged it leaves the upper half, lost the lower
      half without the midpoint. Probing goes on exactly while more than ten sizes are open. */
  lemma RoundExactly(p: Path, limit: nat)
    requires Encloses(p, limit)
    ensures Converged(p) <==> p.max - p.min <= 10
    ensures var q, g := Round(p, limit), p.max - p.min;
            if g <= 10 then q == p
            else
              q.base == p.base && q.mtu == q.min
              && if p.min + g / 2 <= limit then q.min == p.min + g / 2 && q.max == p.max
                 else q.min == p.min && q.max + 1 == p.min + g / 2
  {
  }

  /** A resolved probe halves the gap, rounded up, and keeps the limit enclosed. */
  lemma RoundHalves(p: Path, limit: nat)
    requires Encloses(p, limit)
    ensures Encloses(Round(p, limit), limit)
    ensures !Converged(p) ==> Gap(Round(p, limit)) <= (Gap(p) + 1) / 2 && Gap(Round(p, limit)) < Gap(p)
  {
  }

  /** A gap of at most `10 * 2^n` is searched in `n` rounds. */
  lemma {:induction false} ConvergesWithin(p: Path, limit: nat, n: nat)
    requires Encloses(p, limit) && Gap(p) <= 10 * Pow2(n)
    ensures var q := Rounds(p, limit, n);
            Converged(q) && Encloses(q, limit) && limit - q.mtu <= 10
    decreases n
  {
    if n > 0 {
      RoundHalves(p, limit);
      if Converged(p) { StaysConverged(p, limit, n); }
      else { ConvergesWithin(Round(p, limit), limit, n - 1); }
    }
  }

  lemma {:induction false} StaysConverged(p: Path, limit: nat, n: nat)
    requires Converged(p)
    ensures Rounds(p, limit, n) == p
    decreases n
  {
    if n > 0 { StaysConverged(p, limit, n - 1); }
  }

  /** The default bounds of 1200 and 9000 bytes are searched in ten rounds. */
  lemma DefaultsConverge(limit: nat)
    requires 1200 <= limit <= 9000
    ensures limit - Rounds(Path(1200, 1200, 9000, 1200), limit, 10).mtu <= 10
  {
    Pow8();
    assert Pow2(10) == 4 * Pow2(8);
    ConvergesWithin(Path(1200, 1200, 9000, 1200), limit, 10);
  }
}
