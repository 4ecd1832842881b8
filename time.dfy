/**
 * Time-base arithmetic of the sequencer core: stamps made of an integer
 * count and the rate that gives the count its unit (ticks at a tempo in
 * bpm, frames at a sample rate in Hz), and the conversion of a stamp from
 * one rate to another.
 *
 * Rates are exact rationals (`real`), counts are unbounded integers.
 */
module Time {

  /** Ticks per quarter note (the tick resolution of one beat). */
  const Ppqn: int := 960

  /** A compile-time ratio `num/den`, as `std::ratio` keeps it (reduced). */
  datatype Ratio = Ratio(num: int, den: int)

  function Gcd(a: nat, b: nat): (g: nat)
    ensures b > 0 ==> g > 0
    decreases b
  {
    if b == 0 then a else Gcd(b, a % b)
  }

  /** Lowest terms of `num/den`, as `std::ratio` normalises its arguments. */
  function Reduce(num: nat, den: nat): (r: Ratio)
    requires den > 0
  {
    var g := Gcd(num, den);
    Ratio(num / g, den / g)
  }

  /** The two unit kinds; each names the kind of rate that is its time base. */
  datatype Unit = Tick | Frame

  /**
   * Reference ratio of a unit's time base, in lowest terms: one bpm is
   * `Ppqn` ticks per 60 seconds (960/60 = 16/1), one Hz is one frame per
   * second (1/1).
   */
  function Reference(u: Unit): (r: Ratio)
    ensures r.num > 0 && r.den > 0
    ensures u == Tick ==> r.num * 60 == Ppqn * r.den
    ensures u == Frame ==> r.num == r.den
  {
    match u
    case Tick => Ratio(16, 1)
    case Frame => Ratio(1, 1)
  }

  /**
   * `convert`'s factor: the cross ratio `From.den * To.num / (From.num * To.den)`
   * of the two reference ratios, in lowest terms.
   */
  function Factor(from: Unit, to: Unit): (f: Ratio)
    ensures f.num > 0 && f.den > 0
    ensures f.num * Reference(from).num * Reference(to).den
         == f.den * Reference(from).den * Reference(to).num
  {
    match (from, to)
    case (Tick, Frame) => Ratio(1, 16)
    case (Frame, Tick) => Ratio(16, 1)
    case _ => Ratio(1, 1)
  }

  /** The ratios above are `std::ratio`'s normal forms of their definitions. */
  lemma RatiosAreReduced(from: Unit, to: Unit)
    ensures Reference(Tick) == Reduce(Ppqn, 60)
    ensures Reference(Frame) == Reduce(1, 1)
    ensures var a, b := Reference(from), Reference(to);
      Factor(from, to) == Reduce(a.den * b.num, a.num * b.den)
  {
    assert Gcd(960, 60) == 60 by {
      assert Gcd(960, 60) == Gcd(60, 0);
    }
    assert Gcd(1, 16) == 1 by {
      assert Gcd(1, 16) == Gcd(16, 1) == Gcd(1, 0);
    }
    assert Gcd(16, 1) == 1 by {
      assert Gcd(16, 1) == Gcd(1, 0);
    }
    assert Gcd(16, 16) == 16 by {
      assert Gcd(16, 16) == Gcd(16, 0);
    }
    assert Gcd(1, 1) == 1 by {
      assert Gcd(1, 1) == Gcd(1, 0);
    }
  }

  /** `n` Hz as a sample rate. */
  function Hz(n: nat): real
  {
    n as real
  }

  /** `n` kHz as a sample rate. */
  function KHz(n: nat): (r: real)
    ensures r == Hz(n * 1000)
  {
    (n as real) * 1000.0
  }

  /** A count of `unit`s at the rate `base` (bpm for ticks, Hz for frames). */
  datatype Stamp = Stamp(unit: Unit, count: int, base: real)

  /** `r` is `x` truncated toward zero. */
  ghost predicate TruncatesTo(r: int, x: real)
  {
    if x >= 0.0 then r as real <= x < r as real + 1.0
    else r as real - 1.0 < x <= r as real
  }

  /** Truncation toward zero, the rounding of C++'s integer division and of a float-to-integer cast. */
  function Trunc(x: real): (r: int)
    ensures TruncatesTo(r, x)
  {
    if x >= 0.0 then x.Floor else -((-x).Floor)
  }

  /** Each real has exactly one truncation. */
  lemma TruncUnique(a: int, b: int, x: real)
    requires TruncatesTo(a, x) && TruncatesTo(b, x)
    ensures a == b
  {
  }

  /** Truncation is monotone. */
  lemma TruncMonotone(a: int, b: int, x: real, y: real)
    requires TruncatesTo(a, x) && TruncatesTo(b, y) && x <= y
    ensures a <= b
  {
  }

  /** Units per second at a rate of 1: the reference ratio as a number. */
  function PerSecond(u: Unit): (p: real)
    ensures p > 0.0
  {
    (Reference(u).num as real) / (Reference(u).den as real)
  }

  /** The length in seconds of `count` `u`s at rate `base`. */
  ghost function Duration(u: Unit, count: int, base: real): real
    requires base != 0.0
  {
    NonZeroProduct(base, PerSecond(u));
    (count as real) / (base * PerSecond(u))
  }

  /** How many `u`s at rate `rate` fit exactly into `secs` seconds. */
  ghost function CountIn(u: Unit, secs: real, rate: real): real
  {
    secs * rate * PerSecond(u)
  }

  /** `convert`'s arithmetic before truncation: `tr * count * fn / (base * fd)`. */
  function Scaled(count: int, tr: real, fn: int, base: real, fd: int): real
    requires base != 0.0 && fd > 0
  {
    NonZeroProduct(base, fd as real);
    tr * (count as real) * (fn as real) / (base * (fd as real))
  }

  /** The scaled count is the exact count of `to`s in the stamp's duration. */
  lemma ScaledIsDuration(from: Unit, to: Unit, count: int, base: real, tr: real)
    requires base != 0.0
    ensures var f := Factor(from, to);
      Scaled(count, tr, f.num, base, f.den) == CountIn(to, Duration(from, count, base), tr)
  {
    var f := Factor(from, to);
    FactorIsCrossRatio(from, to);
    CrossRatio(tr, count as real, base, f.num as real, f.den as real, PerSecond(from), PerSecond(to));
  }

  /**
   * `convert`: `t` re-expressed as a count of `to`s at rate `tr`, computed
   * as `tr * count * factor.num / (base * factor.den)`, truncated toward zero.
   * The result is the same duration in seconds, with the sub-unit remainder
   * dropped toward zero.
   */
  function Convert(to: Unit, t: Stamp, tr: real): (r: Stamp)
    requires t.base != 0.0
    ensures r.unit == to && r.base == tr
    ensures TruncatesTo(r.count, CountIn(to, Duration(t.unit, t.count, t.base), tr))
  {
    var f := Factor(t.unit, to);
    ScaledIsDuration(t.unit, to, t.count, t.base, tr);
    Stamp(to, Trunc(Scaled(t.count, tr, f.num, t.base, f.den)), tr)
  }

  /** `Factor(from, to)` is `PerSecond(to) / PerSecond(from)`. */
  lemma FactorIsCrossRatio(from: Unit, to: Unit)
    ensures (Factor(from, to).num as real) * PerSecond(from)
         == (Factor(from, to).den as real) * PerSecond(to)
  {
    assert PerSecond(Tick) == 16.0 && PerSecond(Frame) == 1.0;
  }

  lemma NonZeroProduct(x: real, y: real)
    requires x != 0.0 && y != 0.0
    ensures x * y != 0.0
  {
  }

  /**
   * Scaling a count by a cross ratio `fn/fd == pt/pf` is the same as taking
   * it to seconds with `pf` and back with `pt`.
   */
  lemma CrossRatio(tr: real, c: real, b: real, fn: real, fd: real, pf: real, pt: real)
    requires b != 0.0 && fd > 0.0 && pf > 0.0
    requires fn * pf == fd * pt
    ensures b * fd != 0.0 && b * pf != 0.0
    ensures tr * c * fn / (b * fd) == c / (b * pf) * tr * pt
  {
    var x := tr * c;
    var lhs := x * fn / (b * fd);
    var rhs := c / (b * pf) * tr * pt;
    assert rhs == x * pt / (b * pf);
    assert lhs * (b * fd) == x * fn;
    assert rhs * (b * pf) == x * pt;
    assert lhs * (b * fd) * pf == x * fd * pt;
    assert rhs * (b * pf) * fd == x * pt * fd;
  }

  /** `count` at rate `base` rescaled to rate `tr` within one unit kind, exactly. */
  ghost function Rescaled(count: int, tr: real, base: real): real
    requires base != 0.0
  {
    (count as real) * tr / base
  }

  /** Going to seconds and back at the same unit kind cancels the reference ratio. */
  lemma SameKind(u: Unit, count: int, base: real, tr: real)
    requires base != 0.0
    ensures CountIn(u, Duration(u, count, base), tr) == Rescaled(count, tr, base)
  {
    var c, p := count as real, PerSecond(u);
    NonZeroProduct(base, p);
    var s := c / (base * p);
    assert s * (base * p) == c;
    assert (s * tr * p) * base == c * tr;
  }

  /** `remap`: conversion within one unit kind. */
  function Remap(t: Stamp, tr: real): (r: Stamp)
    requires t.base != 0.0
    ensures r.unit == t.unit && r.base == tr
    ensures TruncatesTo(r.count, Rescaled(t.count, tr, t.base))
  {
    SameKind(t.unit, t.count, t.base, tr);
    Convert(t.unit, t, tr)
  }

  /** `count` ticks at `bpm` as an exact number of frames at `sr`. */
  ghost function TicksAsFrames(count: int, bpm: real, sr: real): real
    requires bpm != 0.0
  {
    NonZeroProduct(bpm, 16.0);
    sr * (count as real) / (bpm * 16.0)
  }

  /** `count` frames at `sr` as an exact number of ticks at `bpm`. */
  ghost function FramesAsTicks(count: int, sr: real, bpm: real): real
    requires sr != 0.0
  {
    bpm * (count as real) * 16.0 / sr
  }

  lemma TickFrameKinds(count: int, base: real, tr: real)
    requires base != 0.0
    ensures CountIn(Frame, Duration(Tick, count, base), tr) == TicksAsFrames(count, base, tr)
    ensures CountIn(Tick, Duration(Frame, count, base), tr) == FramesAsTicks(count, base, tr)
  {
    assert PerSecond(Tick) == 16.0 && PerSecond(Frame) == 1.0;
    var c := count as real;
    NonZeroProduct(base, 16.0);
    var s := c / (base * 16.0);
    assert s * (base * 16.0) == c;
    assert (s * tr * 1.0) * (base * 16.0) == tr * c;
    var q := c / (base * 1.0);
    assert q * base == c;
    assert (q * tr * 16.0) * base == tr * c * 16.0;
  }

  /** `tick_to_frame`: ticks at a tempo as frames at a sample rate. */
  function TickToFrame(t: Stamp, sr: real): (r: Stamp)
    requires t.unit == Tick && t.base != 0.0
    ensures r.unit == Frame && r.base == sr
    ensures TruncatesTo(r.count, TicksAsFrames(t.count, t.base, sr))
  {
    TickFrameKinds(t.count, t.base, sr);
    Convert(Frame, t, sr)
  }

  /** `frame_to_tick`: frames at a sample rate as ticks at a tempo. */
  function FrameToTick(t: Stamp, bpm: real): (r: Stamp)
    requires t.unit == Frame && t.base != 0.0
    ensures r.unit == Tick && r.base == bpm
    ensures TruncatesTo(r.count, FramesAsTicks(t.count, t.base, bpm))
  {
    TickFrameKinds(t.count, t.base, bpm);
    Convert(Tick, t, bpm)
  }

  /**
   * `align_bases`: both stamps at the higher of the two rates; the stamp
   * that already has that rate is returned as it is, the other is remapped.
   */
  function AlignBases(a: Stamp, b: Stamp): (r: (Stamp, Stamp))
    requires a.unit == b.unit && a.base != 0.0 && b.base != 0.0
    ensures r.0.base == r.1.base == (if a.base < b.base then b.base else a.base)
    ensures a.base >= b.base ==> r.0 == a
    ensures b.base >= a.base ==> r.1 == b
    ensures a.base < b.base ==> r.0 == Remap(a, b.base)
    ensures b.base < a.base ==> r.1 == Remap(b, a.base)
  {
    if a.base == b.base then (a, b)
    else if a.base < b.base then (Remap(a, b.base), b)
    else (a, Remap(b, a.base))
  }

  /** `operator==` on stamps: equal counts once aligned. */
  function Equal(a: Stamp, b: Stamp): bool
    requires a.unit == b.unit && a.base != 0.0 && b.base != 0.0
  {
    var (x, y) := AlignBases(a, b);
    x.count == y.count
  }

  /** `operator<` on stamps: smaller count once aligned. */
  function Less(a: Stamp, b: Stamp): bool
    requires a.unit == b.unit && a.base != 0.0 && b.base != 0.0
  {
    var (x, y) := AlignBases(a, b);
    x.count < y.count
  }
}
