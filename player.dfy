/**
 * The player simulation: a sync anchor pairing a tick stamp with a frame
 * stamp, the hard-sync derivation of a tempo from "so many ticks happened
 * over so many frames", and the scheduler that walks fixed-size audio
 * blocks and lets a tick happen when its frame lies before the block end.
 */
module Player {
  import opened Time
  import TimeLaws

  /** `time::syncer`: the tick `rtime` happened at the frame `atime`. */
  datatype Syncer = Syncer(rtime: Stamp, atime: Stamp)

  /** A syncer whose stamps have the right units and a usable tempo. */
  predicate WellFormed(s: Syncer)
  {
    s.rtime.unit == Tick && s.atime.unit == Frame && s.rtime.base != 0.0
  }

  /** Ticks at a positive tempo are laid out forward in frames at a positive rate. */
  predicate Forward(s: Syncer)
  {
    WellFormed(s) && s.rtime.base > 0.0 && s.atime.base > 0.0
  }

  /**
   * `anchor(t)`: the frame of tick `t`, the anchor's frame plus the tick
   * offset from the anchor converted to frames. The offset is the exact
   * duration truncated toward zero.
   */
  function AnchorMap(s: Syncer, t: int): (f: int)
    requires WellFormed(s)
    ensures TruncatesTo(f - s.atime.count, TicksAsFrames(t - s.rtime.count, s.rtime.base, s.atime.base))
  {
    s.atime.count + TickToFrame(Stamp(Tick, t - s.rtime.count, s.rtime.base), s.atime.base).count
  }

  /** The anchor tick itself maps onto the anchor frame. */
  lemma AnchorMapAtAnchor(s: Syncer)
    requires WellFormed(s)
    ensures AnchorMap(s, s.rtime.count) == s.atime.count
  {
    TicksAsFramesZero(s.rtime.base, s.atime.base);
    TruncUnique(AnchorMap(s, s.rtime.count) - s.atime.count, 0,
                TicksAsFrames(0, s.rtime.base, s.atime.base));
  }

  lemma TicksAsFramesZero(bpm: real, sr: real)
    requires bpm != 0.0
    ensures TicksAsFrames(0, bpm, sr) == 0.0
  {
  }

  lemma TicksAsFramesMonotone(c1: int, c2: int, bpm: real, sr: real)
    requires c1 <= c2 && bpm > 0.0 && sr > 0.0
    ensures TicksAsFrames(c1, bpm, sr) <= TicksAsFrames(c2, bpm, sr)
  {
    var d := bpm * 16.0;
    assert d > 0.0;
    assert sr * (c1 as real) <= sr * (c2 as real);
  }

  /** A later tick never maps onto an earlier frame. */
  lemma AnchorMapMonotone(s: Syncer, t1: int, t2: int)
    requires Forward(s) && t1 <= t2
    ensures AnchorMap(s, t1) <= AnchorMap(s, t2)
  {
    TicksAsFramesMonotone(t1 - s.rtime.count, t2 - s.rtime.count, s.rtime.base, s.atime.base);
    TruncMonotone(AnchorMap(s, t1) - s.atime.count, AnchorMap(s, t2) - s.atime.count,
                  TicksAsFrames(t1 - s.rtime.count, s.rtime.base, s.atime.base),
                  TicksAsFrames(t2 - s.rtime.count, s.rtime.base, s.atime.base));
  }

  /**
   * The tempo at which `ticks` ticks last exactly `frames.count` frames at
   * `frames.base`: `ticks * sr / (frames * 16)`.
   */
  function RateFor(ticks: int, frames: int, sr: real): real
    requires frames != 0
  {
    NonZeroProduct(frames as real, 16.0);
    (ticks as real) * sr / ((frames as real) * 16.0)
  }

  lemma RateForExact(ticks: int, frames: int, sr: real)
    requires ticks != 0 && frames != 0 && sr != 0.0
    ensures RateFor(ticks, frames, sr) != 0.0
    ensures TicksAsFrames(ticks, RateFor(ticks, frames, sr), sr) == frames as real
  {
    var t, f := ticks as real, frames as real;
    var r := RateFor(ticks, frames, sr);
    assert r * (f * 16.0) == t * sr;
    assert r != 0.0;
    var x := TicksAsFrames(ticks, r, sr);
    assert x * (r * 16.0) == sr * t;
    assert x * (r * 16.0) * f == (f * 16.0 * r) * f;
    assert x * (r * 16.0) == f * (r * 16.0);
  }

  /**
   * `to_base<tick>(deltaf, deltat)`: the tempo under which `ticks` ticks
   * span the frames of `deltaf`. It is the rate that makes the tick-to-frame
   * conversion of `ticks` land exactly on `deltaf.count`, the inverse of
   * `TickToFrame` in its rate argument.
   */
  function ToBase(deltaf: Stamp, ticks: int): (bpm: real)
    requires deltaf.unit == Frame && deltaf.count != 0 && deltaf.base != 0.0 && ticks != 0
    ensures bpm != 0.0
    ensures TicksAsFrames(ticks, bpm, deltaf.base) == deltaf.count as real
  {
    RateForExact(ticks, deltaf.count, deltaf.base);
    RateFor(ticks, deltaf.count, deltaf.base)
  }

  /** Played back at the derived tempo, the ticks span exactly the measured frames. */
  lemma ToBaseRoundTrip(deltaf: Stamp, ticks: int)
    requires deltaf.unit == Frame && deltaf.count != 0 && deltaf.base != 0.0 && ticks != 0
    ensures TickToFrame(Stamp(Tick, ticks, ToBase(deltaf, ticks)), deltaf.base).count == deltaf.count
  {
    var bpm := ToBase(deltaf, ticks);
    TimeLaws.TickToFrameIs(Stamp(Tick, ticks, bpm), deltaf.base, deltaf.count);
  }

  /** The derived tempo is the only one for which the ticks span the frames exactly. */
  lemma ToBaseUnique(deltaf: Stamp, ticks: int, bpm: real)
    requires deltaf.unit == Frame && deltaf.count != 0 && deltaf.base != 0.0 && ticks != 0
    requires bpm != 0.0 && TicksAsFrames(ticks, bpm, deltaf.base) == deltaf.count as real
    ensures bpm == ToBase(deltaf, ticks)
  {
    var r := ToBase(deltaf, ticks);
    TicksAsFramesInjective(ticks, bpm, r, deltaf.base);
  }

  lemma TicksAsFramesInjective(ticks: int, b1: real, b2: real, sr: real)
    requires ticks != 0 && sr != 0.0 && b1 != 0.0 && b2 != 0.0
    requires TicksAsFrames(ticks, b1, sr) == TicksAsFrames(ticks, b2, sr)
    ensures b1 == b2
  {
    var n := sr * (ticks as real);
    var x := TicksAsFrames(ticks, b1, sr);
    assert n != 0.0;
    assert x * (b1 * 16.0) == n;
    assert x * (b2 * 16.0) == n;
    assert x != 0.0;
  }

  /**
   * A hard sync received at frame stamp `at` for tick `rtick`: the new
   * anchor, whose tempo is derived from `ticks` ticks having taken
   * `deltaf.count` frames.
   */
  function HardSync(rtick: int, at: Stamp, deltaf: Stamp, ticks: int): (s: Syncer)
    requires at.unit == Frame
    requires deltaf.unit == Frame && deltaf.count != 0 && deltaf.base != 0.0 && ticks != 0
    ensures WellFormed(s)
    ensures s.rtime.count == rtick && s.atime == at
    ensures TicksAsFrames(ticks, s.rtime.base, deltaf.base) == deltaf.count as real
  {
    Syncer(Stamp(Tick, rtick, ToBase(deltaf, ticks)), at)
  }

  /** The derivations of the simulation: 128 and 100 frames at 48 kHz for one tick. */
  lemma ToBaseVectors()
    ensures ToBase(Stamp(Frame, 128, KHz(48)), 1) == 23.4375
    ensures ToBase(Stamp(Frame, 100, KHz(48)), 1) == 30.0
  {
    assert TicksAsFrames(1, 23.4375, 48000.0) == 128.0;
    ToBaseUnique(Stamp(Frame, 128, 48000.0), 1, 23.4375);
    assert TicksAsFrames(1, 30.0, 48000.0) == 100.0;
    ToBaseUnique(Stamp(Frame, 100, 48000.0), 1, 30.0);
  }

  lemma AnchorMapIs(s: Syncer, t: int, n: int)
    requires WellFormed(s)
    requires TruncatesTo(n, TicksAsFrames(t - s.rtime.count, s.rtime.base, s.atime.base))
    ensures AnchorMap(s, t) == s.atime.count + n
  {
    TruncUnique(AnchorMap(s, t) - s.atime.count, n,
                TicksAsFrames(t - s.rtime.count, s.rtime.base, s.atime.base));
  }

  /** The three anchors of the simulation. */
  function Start(): Syncer { Syncer(Stamp(Tick, 0, 60.0), Stamp(Frame, 0, KHz(48))) }
  function FirstSync(): Syncer { Syncer(Stamp(Tick, 1, 23.4375), Stamp(Frame, 128, KHz(48))) }
  function SecondSync(): Syncer { Syncer(Stamp(Tick, 4, 30.0), Stamp(Frame, 484, KHz(48))) }

  /** At 60 bpm and 48 kHz a tick lasts 50 frames; after the syncs, 256 and 100. */
  lemma AnchorVectors()
    ensures AnchorMap(Start(), 1) == 50
    ensures AnchorMap(Start(), 2) == 100
    ensures AnchorMap(Start(), 3) == 150
    ensures AnchorMap(FirstSync(), 3) == 384
    ensures AnchorMap(FirstSync(), 4) == 512
    ensures AnchorMap(SecondSync(), 4) == 484
    ensures AnchorMap(SecondSync(), 5) == 584
  {
    assert TicksAsFrames(1, 60.0, 48000.0) == 50.0;
    AnchorMapIs(Start(), 1, 50);
    assert TicksAsFrames(2, 60.0, 48000.0) == 100.0;
    AnchorMapIs(Start(), 2, 100);
    assert TicksAsFrames(3, 60.0, 48000.0) == 150.0;
    AnchorMapIs(Start(), 3, 150);
    assert TicksAsFrames(2, 23.4375, 48000.0) == 256.0;
    AnchorMapIs(FirstSync(), 3, 256);
    assert TicksAsFrames(3, 23.4375, 48000.0) == 384.0;
    AnchorMapIs(FirstSync(), 4, 384);
    AnchorMapAtAnchor(SecondSync());
    assert TicksAsFrames(1, 30.0, 48000.0) == 100.0;
    AnchorMapIs(SecondSync(), 5, 100);
  }

  /**
   * The block-stepping state of the simulation: the current tick, the next
   * tick and its frame under the current anchor, and the current block
   * `[currentFrame, blockEndFrame[` with its index.
   */
  class Scheduler {
    var anchor: Syncer
    var currentTick: int
    var nextTick: int
    var nextTickFrame: int
    var currentFrame: int
    var blockEndFrame: int
    var blockIndex: nat
    const blockSize: int

    /** The next tick follows the current one, its frame is the anchor's image of it, and the block has the block size. */
    ghost predicate Valid()
      reads this
    {
      WellFormed(anchor)
      && nextTick == currentTick + 1
      && nextTickFrame == AnchorMap(anchor, nextTick)
      && blockEndFrame == currentFrame + blockSize
    }

    /** The initial state: the anchor's own tick and frame, and the first block. */
    constructor (start: Syncer, size: int)
      requires WellFormed(start)
      ensures Valid()
      ensures anchor == start && blockSize == size && blockIndex == 0
      ensures currentTick == start.rtime.count && currentFrame == start.atime.count
    {
      anchor := start;
      blockSize := size;
      blockIndex := 0;
      currentTick := start.rtime.count;
      currentFrame := start.atime.count;
      nextTick := start.rtime.count + 1;
      nextTickFrame := AnchorMap(start, start.rtime.count + 1);
      blockEndFrame := start.atime.count + size;
    }

    /**
     * `_step`: the next tick happens, and the one after it is scheduled,
     * exactly when its frame lies before the end of the current block;
     * otherwise nothing changes.
     */
    method Step() returns (passed: bool)
      requires Valid()
      modifies this
      ensures Valid()
      ensures passed <==> old(nextTickFrame) < old(blockEndFrame)
      ensures passed ==> currentTick == old(currentTick) + 1
      ensures !passed ==> currentTick == old(currentTick) && nextTickFrame == old(nextTickFrame)
      ensures anchor == old(anchor) && currentFrame == old(currentFrame)
      ensures blockEndFrame == old(blockEndFrame) && blockIndex == old(blockIndex)
    {
      if nextTickFrame < blockEndFrame {
        currentTick := currentTick + 1;
        nextTick := currentTick + 1;
        nextTickFrame := AnchorMap(anchor, nextTick);
        passed := true;
      } else {
        passed := false;
      }
    }

    /** `_step_block`: the next block starts where the current one ended. */
    method StepBlock()
      requires Valid()
      modifies this
      ensures Valid()
      ensures currentFrame == old(blockEndFrame)
      ensures blockEndFrame == old(blockEndFrame) + blockSize
      ensures blockIndex == old(blockIndex) + 1
      ensures anchor == old(anchor) && currentTick == old(currentTick)
      ensures nextTick == old(nextTick) && nextTickFrame == old(nextTickFrame)
    {
      currentFrame := blockEndFrame;
      blockEndFrame := currentFrame + blockSize;
      blockIndex := blockIndex + 1;
    }

    /** A hard sync: the anchor is replaced and the next tick's frame recomputed from it. */
    method Resync(s: Syncer)
      requires Valid() && WellFormed(s)
      modifies this
      ensures Valid()
      ensures anchor == s && nextTickFrame == AnchorMap(s, nextTick)
      ensures currentTick == old(currentTick) && nextTick == old(nextTick)
      ensures currentFrame == old(currentFrame) && blockEndFrame == old(blockEndFrame)
      ensures blockIndex == old(blockIndex)
    {
      anchor := s;
      nextTickFrame := AnchorMap(anchor, nextTick);
    }
  }

  /**
   * The player simulation replayed step by step with its expectations:
   * 64-frame blocks at 48 kHz starting from 60 bpm, a hard sync at frame
   * 128 that derives 23.4375 bpm, and a second one at frame 484 that
   * derives 30 bpm. It ends on tick 4, with tick 5 due at frame 584, in
   * block 7.
   */
  method Simulate() returns (tick: int, nextFrame: int, block: nat)
    ensures tick == 4 && nextFrame == 584 && block == 7
  {
    var p := new Scheduler(Start(), 64);
    OpeningBlocks(p);
    QuietBlocks(p);
    LastBlock(p);
    tick, nextFrame, block := p.currentTick, p.nextTickFrame, p.blockIndex;
  }

  /** The scheduler `p` in block `index` starting at `frame`, after tick `tick`, under `anchor`. */
  ghost predicate At(p: Scheduler, anchor: Syncer, tick: int, frame: int, index: nat)
    reads p
  {
    p.Valid() && p.blockSize == 64 && p.anchor == anchor
    && p.currentTick == tick && p.currentFrame == frame && p.blockIndex == index
  }

  /** Blocks 0 to 2: ticks 1 and 2 at frames 50 and 100, then the first hard sync. */
  method OpeningBlocks(p: Scheduler)
    requires At(p, Start(), 0, 0, 0)
    modifies p
    ensures At(p, FirstSync(), 2, 128, 2) && p.nextTickFrame == 384
  {
    AnchorVectors();
    ToBaseVectors();
    // block 0 [0, 64[
    var passed := p.Step();
    assert passed && p.currentTick == 1 && p.nextTickFrame == 100;
    passed := p.Step();
    assert !passed;

    // block 1 [64, 128[
    p.StepBlock();
    assert p.currentFrame == 64 && p.blockEndFrame == 128;
    passed := p.Step();
    assert passed;
    passed := p.Step();
    assert !passed && p.currentTick == 2 && p.nextTickFrame == 150;

    // block 2 [128, 192[: one tick happened over 128 frames
    p.StepBlock();
    assert p.currentFrame == 128 && p.blockEndFrame == 192;
    var rtick := p.anchor.rtime.count + 1;
    var deltaf := Stamp(Frame, 128 - p.anchor.atime.count, KHz(48));
    var sync := HardSync(rtick, Stamp(Frame, 128, KHz(48)), deltaf, rtick - p.anchor.rtime.count);
    assert sync == FirstSync();
    p.Resync(sync);
    assert p.nextTick == 3 && p.nextTickFrame == 384;
    passed := p.Step();
    assert !passed;
  }

  /** Blocks 2 to 6: nothing happens until block 6, which holds tick 3 at frame 384. */
  method QuietBlocks(p: Scheduler)
    requires At(p, FirstSync(), 2, 128, 2) && p.nextTickFrame == 384
    modifies p
    ensures At(p, FirstSync(), 3, 384, 6) && p.nextTickFrame == 512
  {
    AnchorVectors();
    p.StepBlock();
    var passed := p.Step();
    assert !passed;
    p.StepBlock();
    passed := p.Step();
    assert !passed;
    p.StepBlock();
    passed := p.Step();
    assert !passed;
    p.StepBlock();
    assert p.blockIndex == 6 && p.currentFrame == 384 && p.blockEndFrame == 448;

    // block 6 [384, 448[: tick 3
    passed := p.Step();
    assert passed && p.currentTick == 3 && p.nextTick == 4 && p.nextTickFrame == 512;
    passed := p.Step();
    assert !passed;
  }

  /** Block 7: tick 3 sounded at 384 and the next came 100 frames later; tick 4 then happens at 484. */
  method LastBlock(p: Scheduler)
    requires At(p, FirstSync(), 3, 384, 6) && p.nextTickFrame == 512
    modifies p
    ensures At(p, SecondSync(), 4, 448, 7) && p.nextTickFrame == 584
  {
    AnchorVectors();
    ToBaseVectors();
    p.StepBlock();
    assert p.blockIndex == 7 && p.currentFrame == 448 && p.blockEndFrame == 512;
    var rtick := p.currentTick + 1;
    var deltaf := Stamp(Frame, 484 - 384, KHz(48));
    var sync := HardSync(rtick, Stamp(Frame, 484, KHz(48)), deltaf, rtick - p.currentTick);
    assert sync == SecondSync();
    p.Resync(sync);
    assert p.nextTick == 4 && p.nextTickFrame == 484;
    var passed := p.Step();
    assert passed;
    passed := p.Step();
    assert !passed;
  }
}
