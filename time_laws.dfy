/**
 * Properties of the time-base conversion and of the relational operators
 * on stamps, and the concrete values the time tests expect.
 */
module TimeLaws {
  import opened Time

  /** `Remap` yields `n` whenever `n` is the truncation of the exact count. */
  lemma RemapIs(t: Stamp, tr: real, n: int)
    requires t.base != 0.0
    requires TruncatesTo(n, Rescaled(t.count, tr, t.base))
    ensures Remap(t, tr).count == n
  {
    TruncUnique(Remap(t, tr).count, n, Rescaled(t.count, tr, t.base));
  }

  /** `TickToFrame` yields `n` whenever `n` is the truncation of the exact count. */
  lemma TickToFrameIs(t: Stamp, sr: real, n: int)
    requires t.unit == Tick && t.base != 0.0
    requires TruncatesTo(n, TicksAsFrames(t.count, t.base, sr))
    ensures TickToFrame(t, sr).count == n
  {
    TruncUnique(TickToFrame(t, sr).count, n, TicksAsFrames(t.count, t.base, sr));
  }

  /** `FrameToTick` yields `n` whenever `n` is the truncation of the exact count. */
  lemma FrameToTickIs(t: Stamp, bpm: real, n: int)
    requires t.unit == Frame && t.base != 0.0
    requires TruncatesTo(n, FramesAsTicks(t.count, t.base, bpm))
    ensures FrameToTick(t, bpm).count == n
  {
    TruncUnique(FrameToTick(t, bpm).count, n, FramesAsTicks(t.count, t.base, bpm));
  }

  lemma RescaledOwnRate(c: int, b: real)
    requires b != 0.0
    ensures Rescaled(c, b, b) == c as real
  {
  }

  /** Remapping a stamp onto its own rate changes nothing, at any scale. */
  lemma RemapOntoOwnRate(t: Stamp)
    requires t.base != 0.0
    ensures Remap(t, t.base) == t
  {
    RescaledOwnRate(t.count, t.base);
    RemapIs(t, t.base, t.count);
  }

  lemma RescaledDivisible(v: int, a: nat, b: nat)
    requires a > 0 && (v * b) % a == 0
    ensures Rescaled(v, b as real, a as real) == (v * b / a) as real
  {
    var q := v * b / a;
    assert q * a == v * b;
    assert (q as real) * (a as real) == (v as real) * (b as real);
  }

  /** A remap whose exact count is an integer is exact. */
  lemma RemapExactWhenDivisible(v: int, a: nat, b: nat, u: Unit)
    requires a > 0 && (v * b) % a == 0
    ensures Remap(Stamp(u, v, a as real), b as real).count == v * b / a
  {
    RescaledDivisible(v, a, b);
    RemapIs(Stamp(u, v, a as real), b as real, v * b / a);
  }

  lemma RescaledUpAndBack(c: int, b: real, k: nat)
    requires b != 0.0 && k > 0
    ensures b * (k as real) != 0.0
    ensures Rescaled(c, b * (k as real), b) == (c * k) as real
    ensures Rescaled(c * k, b, b * (k as real)) == c as real
  {
    var cr, kr := c as real, k as real;
    assert (c * k) as real == cr * kr;
    assert cr * (b * kr) / b == cr * kr;
    assert (cr * kr) * b / (b * kr) == cr;
  }

  /**
   * Remapping onto a rate `k` times higher and back is lossless: the upward
   * direction is an exact multiplication.
   */
  lemma RemapUpAndBack(t: Stamp, k: nat)
    requires t.base != 0.0 && k > 0
    ensures t.base * (k as real) != 0.0
    ensures Remap(t, t.base * (k as real)).count == t.count * k
    ensures Remap(Remap(t, t.base * (k as real)), t.base) == t
  {
    RescaledUpAndBack(t.count, t.base, k);
    RemapIs(t, t.base * (k as real), t.count * k);
    RemapIs(Remap(t, t.base * (k as real)), t.base, t.count);
  }

  /** Conversions truncate toward zero, never round: 1.5 becomes 1 and -1.5 becomes -1. */
  lemma ConversionTruncates()
    ensures Remap(Stamp(Frame, 3, 2.0), 1.0).count == 1
    ensures Remap(Stamp(Frame, -3, 2.0), 1.0).count == -1
    ensures TickToFrame(Stamp(Tick, 1, 7.0), 1.0).count == 0
  {
    RemapIs(Stamp(Frame, 3, 2.0), 1.0, 1);
    RemapIs(Stamp(Frame, -3, 2.0), 1.0, -1);
    TickToFrameIs(Stamp(Tick, 1, 7.0), 1.0, 0);
  }

  /** Tick/frame conversion at 60 and 120 bpm and 48 kHz; one second is 960 ticks at 60 bpm. */
  lemma TickFrameVectors()
    ensures TickToFrame(Stamp(Tick, Ppqn, 60.0), KHz(48)).count == 48_000
    ensures TickToFrame(Stamp(Tick, Ppqn * 2, 120.0), KHz(48)).count == 48_000
    ensures FrameToTick(Stamp(Frame, 48_000, KHz(48)), 60.0).count == Ppqn
    ensures FrameToTick(Stamp(Frame, 48_000, KHz(48)), 120.0).count == Ppqn * 2
    ensures Remap(Stamp(Tick, Ppqn, 60.0), 120.0).count == Ppqn * 2
    ensures Remap(Stamp(Tick, Ppqn * 2, 120.0), 60.0).count == Ppqn
  {
    TickToFrameIs(Stamp(Tick, 960, 60.0), 48000.0, 48_000);
    TickToFrameIs(Stamp(Tick, 1920, 120.0), 48000.0, 48_000);
    FrameToTickIs(Stamp(Frame, 48_000, 48000.0), 60.0, 960);
    FrameToTickIs(Stamp(Frame, 48_000, 48000.0), 120.0, 1920);
    RemapIs(Stamp(Tick, 960, 60.0), 120.0, 1920);
    RemapIs(Stamp(Tick, 1920, 120.0), 60.0, 960);
  }

  /** Frame remapping between 48, 96 and 196 kHz, including 72 hours at 196 kHz. */
  lemma FrameRemapVectors()
    ensures Remap(Stamp(Frame, 48_000, KHz(48)), KHz(96)).count == 96_000
    ensures Remap(Stamp(Frame, 96_000, KHz(96)), KHz(48)).count == 48_000
    ensures Remap(Stamp(Frame, 196_000, KHz(196)), KHz(196)).count == 196_000
    ensures Remap(Stamp(Frame, 196_000, KHz(196)), KHz(48)).count == 48_000
    ensures Remap(Stamp(Frame, 48_000, KHz(48)), KHz(196)).count == 196_000
    ensures Remap(Stamp(Frame, 50_803_200_000, KHz(196)), KHz(196)).count == 50_803_200_000
    ensures Remap(Stamp(Frame, 24_883_200_000, KHz(96)), KHz(196)).count == 50_803_200_000
    ensures Remap(Stamp(Frame, 12_441_600_000, KHz(48)), KHz(196)).count == 50_803_200_000
  {
    RemapIs(Stamp(Frame, 48_000, 48000.0), 96000.0, 96_000);
    RemapIs(Stamp(Frame, 96_000, 96000.0), 48000.0, 48_000);
    RemapIs(Stamp(Frame, 196_000, 196000.0), 196000.0, 196_000);
    RemapIs(Stamp(Frame, 196_000, 196000.0), 48000.0, 48_000);
    RemapIs(Stamp(Frame, 48_000, 48000.0), 196000.0, 196_000);
    RemapIs(Stamp(Frame, 50_803_200_000, 196000.0), 196000.0, 50_803_200_000);
    RemapIs(Stamp(Frame, 24_883_200_000, 96000.0), 196000.0, 50_803_200_000);
    RemapIs(Stamp(Frame, 12_441_600_000, 48000.0), 196000.0, 50_803_200_000);
  }

  /** Tick/frame conversion over 72 hours at 196 kHz, at 60 and 240 bpm. */
  lemma LongRunVectors()
    ensures TickToFrame(Stamp(Tick, 248_832_000, 60.0), KHz(196)).count == 50_803_200_000
    ensures TickToFrame(Stamp(Tick, 995_328_000, 240.0), KHz(196)).count == 50_803_200_000
    ensures FrameToTick(Stamp(Frame, 50_803_200_000, KHz(196)), 240.0).count == 995_328_000
  {
    TickToFrameIs(Stamp(Tick, 248_832_000, 60.0), 196000.0, 50_803_200_000);
    TickToFrameIs(Stamp(Tick, 995_328_000, 240.0), 196000.0, 50_803_200_000);
    FrameToTickIs(Stamp(Frame, 50_803_200_000, 196000.0), 240.0, 995_328_000);
  }

  /** `align_bases` is symmetric: swapping the operands swaps the results. */
  lemma AlignSymmetric(a: Stamp, b: Stamp)
    requires a.unit == b.unit && a.base != 0.0 && b.base != 0.0
    ensures AlignBases(b, a) == (AlignBases(a, b).1, AlignBases(a, b).0)
  {
  }

  /** At one rate the operators compare the raw counts. */
  lemma SameRateCompare(a: Stamp, b: Stamp)
    requires a.unit == b.unit && a.base != 0.0 && a.base == b.base
    ensures Equal(a, b) <==> a.count == b.count
    ensures Less(a, b) <==> a.count < b.count
  {
  }

  /** `==` is reflexive and symmetric; `<` is irreflexive. */
  lemma EqualReflexiveSymmetric(a: Stamp, b: Stamp)
    requires a.unit == b.unit && a.base != 0.0 && b.base != 0.0
    ensures Equal(a, a) && !Less(a, a)
    ensures Equal(a, b) == Equal(b, a)
  {
    AlignSymmetric(a, b);
  }

  /** Exactly one of `a < b`, `a == b`, `b < a` holds. */
  lemma Trichotomy(a: Stamp, b: Stamp)
    requires a.unit == b.unit && a.base != 0.0 && b.base != 0.0
    ensures Less(a, b) || Equal(a, b) || Less(b, a)
    ensures !(Less(a, b) && Equal(a, b)) && !(Less(a, b) && Less(b, a)) && !(Equal(a, b) && Less(b, a))
  {
    AlignSymmetric(a, b);
  }

  /** Comparisons across rates, as the time tests state them. */
  lemma CompareVectors()
    ensures Equal(Stamp(Frame, 0, KHz(48)), Stamp(Frame, 0, KHz(196)))
    ensures Equal(Stamp(Frame, 196_000, KHz(196)), Stamp(Frame, 48_000, KHz(48)))
    ensures Equal(Stamp(Frame, 44_100, Hz(44_100)), Stamp(Frame, 48_000, KHz(48)))
    ensures Less(Stamp(Frame, 24_000, Hz(44_100)), Stamp(Frame, 48_000, KHz(48)))
    ensures Less(Stamp(Frame, 96_000, Hz(196_000)), Stamp(Frame, 40_000, KHz(48)))
    ensures Equal(Stamp(Tick, 0, 120.0), Stamp(Tick, 0, 240.0))
    ensures Equal(Stamp(Tick, 60, 120.0), Stamp(Tick, 120, 240.0))
    ensures Equal(Stamp(Tick, 90, 120.0), Stamp(Tick, 180, 240.0))
    ensures Less(Stamp(Tick, 90, 120.0), Stamp(Tick, 200, 240.0))
    ensures Less(Stamp(Tick, 66, 240.0), Stamp(Tick, 55, 60.0))
  {
    RemapIs(Stamp(Frame, 0, 48000.0), 196000.0, 0);
    RemapIs(Stamp(Frame, 48_000, 48000.0), 196000.0, 196_000);
    RemapIs(Stamp(Frame, 44_100, 44100.0), 48000.0, 48_000);
    RemapIs(Stamp(Frame, 24_000, 44100.0), 48000.0, 26_122);
    RemapIs(Stamp(Frame, 40_000, 48000.0), 196000.0, 163_333);
    RemapIs(Stamp(Tick, 0, 120.0), 240.0, 0);
    RemapIs(Stamp(Tick, 60, 120.0), 240.0, 120);
    RemapIs(Stamp(Tick, 90, 120.0), 240.0, 180);
    RemapIs(Stamp(Tick, 55, 60.0), 240.0, 220);
  }

  /**
   * Truncation aliases nearby stamps: 95'999 frames at 96 kHz and 47'999 at
   * 48 kHz are neither equal nor ordered the one before the other.
   */
  lemma NeitherEqualNorLess()
    ensures !Equal(Stamp(Frame, 95_999, KHz(96)), Stamp(Frame, 47_999, KHz(48)))
    ensures !Less(Stamp(Frame, 95_999, KHz(96)), Stamp(Frame, 47_999, KHz(48)))
  {
    RemapIs(Stamp(Frame, 47_999, 48000.0), 96000.0, 95_998);
  }

  /**
   * `==` is not transitive across rates: 1 frame at 2 Hz equals 1 at 3 Hz,
   * which equals 2 at 6 Hz, but 1 at 2 Hz is 3 at 6 Hz.
   */
  lemma EqualNotTransitive()
    ensures Equal(Stamp(Frame, 1, Hz(2)), Stamp(Frame, 1, Hz(3)))
    ensures Equal(Stamp(Frame, 1, Hz(3)), Stamp(Frame, 2, Hz(6)))
    ensures !Equal(Stamp(Frame, 1, Hz(2)), Stamp(Frame, 2, Hz(6)))
  {
    RemapIs(Stamp(Frame, 1, 2.0), 3.0, 1);
    RemapIs(Stamp(Frame, 1, 3.0), 6.0, 2);
    RemapIs(Stamp(Frame, 1, 2.0), 6.0, 3);
  }
}
