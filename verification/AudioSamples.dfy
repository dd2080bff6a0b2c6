/** The audio callbacks and the normalisation of 16-bit samples. */
module AudioSamples {
  type i16 = x: int | -32768 <= x <= 32767

  const INT16_MAX := 32767

  // ---------------------------------------------------------------- normalisation

  function Abs(x: int): nat { if x < 0 then -x else x }

  /** Division that truncates toward zero. */
  function Truncated(n: int, d: int): int
    requires d > 0
  {
    if n >= 0 then n / d else -(-n / d)
  }

  function Scaled(x: int, peak: int): int
    requires peak > 0
  {
    Truncated(x * INT16_MAX, peak)
  }

  lemma QuotientIs(n: int, d: int, q: int)
    requires d > 0 && q * d <= n < q * d + d
    ensures n / d == q
  {
    var e := n / d - q;
    assert e * d == (n / d) * d - q * d;
    assert n == (n / d) * d + n % d;
    assert e >= 1 ==> e * d >= d;
    assert e <= -1 ==> e * d <= -d;
  }

  lemma DivideExact(q: nat, d: nat)
    requires d > 0
    ensures q * d / d == q
  {
    QuotientIs(q * d, d, q);
  }

  lemma DivideAfterStep(n: nat, d: nat)
    requires d > 0
    ensures (n + d) / d == n / d + 1
  {
    assert n == (n / d) * d + n % d;
    assert (n / d + 1) * d == (n / d) * d + d;
    QuotientIs(n + d, d, n / d + 1);
  }

  lemma DivideMonotone(a: nat, b: nat, d: nat)
    requires d > 0 && a <= b
    ensures a / d <= b / d
  {
    var q, r := a / d, b / d;
    assert a == q * d + a % d && b == r * d + b % d;
    assert (q - r) * d == q * d - r * d;
    assert q - r >= 1 ==> (q - r) * d >= d;
  }

  lemma ScaledIsOdd(x: int, peak: int)
    requires peak > 0
    ensures Scaled(-x, peak) == -Scaled(x, peak)
  {
  }

  lemma ScaledKeepsOrderUpwards(x: nat, y: nat, peak: int)
    requires 0 < peak <= INT16_MAX && x < y
    ensures Scaled(x, peak) < Scaled(y, peak)
  {
    assert x * INT16_MAX + peak <= y * INT16_MAX;
    DivideMonotone(x * INT16_MAX + peak, y * INT16_MAX, peak);
    DivideAfterStep(x * INT16_MAX, peak);
  }

  /** No two different levels become equal, and none change places. */
  lemma ScaledKeepsOrder(x: int, y: int, peak: int)
    requires 0 < peak <= INT16_MAX && x < y
    ensures Scaled(x, peak) < Scaled(y, peak)
  {
    if x >= 0 {
      ScaledKeepsOrderUpwards(x, y, peak);
    } else if y <= 0 {
      ScaledKeepsOrderUpwards(-y, -x, peak);
      ScaledIsOdd(x, peak);
      ScaledIsOdd(y, peak);
    } else {
      ScaledKeepsOrderUpwards(0, -x, peak);
      ScaledIsOdd(x, peak);
      ScaledKeepsOrderUpwards(0, y, peak);
    }
  }

  /** The peak becomes exactly full scale, and nothing goes beyond it: the clamp has nothing to do. */
  lemma ScaledFits(x: int, peak: int)
    requires 0 < peak <= INT16_MAX && Abs(x) <= peak
    ensures Abs(Scaled(x, peak)) <= INT16_MAX
    ensures Abs(x) == peak ==> Abs(Scaled(x, peak)) == INT16_MAX
    ensures Abs(Scaled(x, peak)) >= Abs(x)
  {
    DivideExact(INT16_MAX, peak);
    ScaledIsOdd(Abs(x), peak);
    DivideMonotone(Abs(x) * INT16_MAX, INT16_MAX * peak, peak);
    DivideExact(Abs(x), peak);
    DivideMonotone(Abs(x) * peak, Abs(x) * INT16_MAX, peak);
  }

  function Larger(a: nat, b: nat): nat { if a >= b then a else b }

  function Peak(samples: seq<i16>): nat {
    if samples == [] then 0 else Larger(Peak(samples[..|samples| - 1]), Abs(samples[|samples| - 1]))
  }

  lemma {:induction false} PeakIsMaximum(samples: seq<i16>)
    ensures forall i :: 0 <= i < |samples| ==> Abs(samples[i]) <= Peak(samples)
    ensures samples != [] ==> exists i :: 0 <= i < |samples| && Abs(samples[i]) == Peak(samples)
  {
    if samples != [] {
      PeakIsMaximum(samples[..|samples| - 1]);
      assert Abs(samples[|samples| - 1]) <= Peak(samples);
      if Peak(samples) != Abs(samples[|samples| - 1]) {
        var i :| 0 <= i < |samples| - 1 && Abs(samples[..|samples| - 1][i]) == Peak(samples[..|samples| - 1]);
        assert Abs(samples[i]) == Peak(samples);
      }
    }
  }

  predicate NeedsScaling(peak: nat) { 0 < peak < INT16_MAX }

  /** What normalisation makes of the samples. */
  ghost predicate IsNormalized(before: seq<i16>, after: seq<i16>) {
    && |after| == |before|
    && if NeedsScaling(Peak(before))
       then forall i :: 0 <= i < |before| ==> after[i] == Scaled(before[i], Peak(before))
       else after == before
  }

  method NormalizeToFullScale(samples: array<i16>)
    modifies samples
    ensures IsNormalized(old(samples[..]), samples[..])
  {
    ghost var before := samples[..];
    var peak := 0;
    for i := 0 to samples.Length
      invariant peak == Peak(before[..i]) && samples[..] == before
    {
      assert before[..i + 1][..i] == before[..i];
      var sample: int := samples[i];
      var value := if sample < 0 then -sample else sample;
      peak := if value > peak then value else peak;
    }
    assert before[..samples.Length] == before;
    if peak <= 0 || peak >= INT16_MAX {
      return;
    }
    PeakIsMaximum(before);
    for i := 0 to samples.Length
      invariant forall k :: 0 <= k < i ==> samples[k] == Scaled(before[k], peak)
      invariant forall k :: i <= k < samples.Length ==> samples[k] == before[k]
    {
      ScaledFits(before[i], peak);
      var scaled: int := Truncated(samples[i] * INT16_MAX, peak);
      scaled := if scaled < INT16_MAX then scaled else INT16_MAX;
      scaled := if scaled > -32768 then scaled else -32768;
      samples[i] := scaled;
    }
  }

  lemma PeakReached(samples: seq<i16>, i: nat, peak: nat)
    requires i < |samples| && Abs(samples[i]) == peak
    requires forall k :: 0 <= k < |samples| ==> Abs(samples[k]) <= peak
    ensures Peak(samples) == peak
  {
    PeakIsMaximum(samples);
  }

  /** Full scale is reached exactly, by samples that keep their order, signs included. */
  lemma NormalizedIsFullScale(before: seq<i16>, after: seq<i16>)
    requires IsNormalized(before, after) && NeedsScaling(Peak(before))
    ensures Peak(after) == INT16_MAX
    ensures forall i, j :: 0 <= i < |before| && 0 <= j < |before| ==> (before[i] < before[j] <==> after[i] < after[j])
    ensures forall i :: 0 <= i < |before| ==> (before[i] < 0 <==> after[i] < 0)
  {
    var peak := Peak(before);
    PeakIsMaximum(before);
    forall i | 0 <= i < |before|
      ensures Abs(after[i]) <= INT16_MAX && (Abs(before[i]) == peak ==> Abs(after[i]) == INT16_MAX)
    {
      ScaledFits(before[i], peak);
    }
    var top :| 0 <= top < |before| && Abs(before[top]) == peak;
    PeakReached(after, top, INT16_MAX);
    NormalizedKeepsOrder(before, after);
  }

  lemma NormalizedKeepsOrder(before: seq<i16>, after: seq<i16>)
    requires IsNormalized(before, after) && NeedsScaling(Peak(before))
    ensures forall i, j :: 0 <= i < |before| && 0 <= j < |before| ==> (before[i] < before[j] <==> after[i] < after[j])
    ensures forall i :: 0 <= i < |before| ==> (before[i] < 0 <==> after[i] < 0)
  {
    forall i, j | 0 <= i < |before| && 0 <= j < |before|
      ensures before[i] < before[j] <==> after[i] < after[j]
    {
      OrderBothWays(before[i], before[j], Peak(before));
    }
    forall i | 0 <= i < |before|
      ensures before[i] < 0 <==> after[i] < 0
    {
      OrderBothWays(before[i], 0, Peak(before));
      DivideExact(0, Peak(before));
    }
  }

  lemma OrderBothWays(x: int, y: int, peak: int)
    requires 0 < peak <= INT16_MAX
    ensures x < y <==> Scaled(x, peak) < Scaled(y, peak)
  {
    if x < y {
      ScaledKeepsOrder(x, y, peak);
    } else if y < x {
      ScaledKeepsOrder(y, x, peak);
    }
  }

  /** Doing it again changes nothing. */
  lemma NormalizeTwice(first: seq<i16>, second: seq<i16>, third: seq<i16>)
    requires IsNormalized(first, second) && IsNormalized(second, third)
    ensures third == second
  {
    if NeedsScaling(Peak(first)) {
      NormalizedIsFullScale(first, second);
    }
  }

  // ---------------------------------------------------------------- playback

  /** The sample that an output channel gets from a frame: extra channels repeat the last one. */
  function Mapped(samples: seq<i16>, inputChannels: nat, frame: nat, channel: nat): i16
    requires inputChannels > 0 && frame < |samples| / inputChannels
  {
    FrameInside(samples, inputChannels, frame);
    samples[frame * inputChannels + if channel < inputChannels - 1 then channel else inputChannels - 1]
  }

  lemma FrameInside(samples: seq<i16>, inputChannels: nat, frame: nat)
    requires inputChannels > 0 && frame < |samples| / inputChannels
    ensures (frame + 1) * inputChannels <= |samples|
  {
    var total := |samples| / inputChannels;
    assert |samples| == total * inputChannels + |samples| % inputChannels;
    assert (total - frame - 1) * inputChannels >= 0;
    assert (frame + 1) * inputChannels == total * inputChannels - (total - frame - 1) * inputChannels;
  }

  /** One frame of the endless output: the audio's frames, then silence. */
  function Frame(samples: seq<i16>, inputChannels: nat, outputChannels: nat, frame: nat): (out: seq<i16>)
    requires inputChannels > 0
    ensures |out| == outputChannels
  {
    FrameUpTo(samples, inputChannels, outputChannels, frame)
  }

  function FrameUpTo(samples: seq<i16>, inputChannels: nat, channels: nat, frame: nat): (out: seq<i16>)
    requires inputChannels > 0
    ensures |out| == channels
    decreases channels
  {
    if channels == 0 then []
    else FrameUpTo(samples, inputChannels, channels - 1, frame)
         + [if frame < |samples| / inputChannels then Mapped(samples, inputChannels, frame, channels - 1) else 0]
  }

  /** Frames from..from + count of the endless output. */
  function Frames(samples: seq<i16>, inputChannels: nat, outputChannels: nat, from: nat, count: nat): seq<i16>
    requires inputChannels > 0
    decreases count
  {
    if count == 0 then []
    else Frames(samples, inputChannels, outputChannels, from, count - 1)
         + Frame(samples, inputChannels, outputChannels, from + count - 1)
  }

  /** The pieces that successive callbacks deliver make up one stream, whatever their sizes. */
  lemma {:induction false} FramesJoin(samples: seq<i16>, inputChannels: nat, outputChannels: nat,
                                     from: nat, a: nat, b: nat)
    requires inputChannels > 0
    ensures Frames(samples, inputChannels, outputChannels, from, a)
            + Frames(samples, inputChannels, outputChannels, from + a, b)
            == Frames(samples, inputChannels, outputChannels, from, a + b)
    decreases b
  {
    if b > 0 {
      FramesJoin(samples, inputChannels, outputChannels, from, a, b - 1);
      assert from + a + b - 1 == from + (a + b) - 1;
    }
  }

  lemma {:induction false} FramesSize(samples: seq<i16>, inputChannels: nat, outputChannels: nat, from: nat, count: nat)
    requires inputChannels > 0
    ensures |Frames(samples, inputChannels, outputChannels, from, count)| == count * outputChannels
    decreases count
  {
    if count > 0 {
      FramesSize(samples, inputChannels, outputChannels, from, count - 1);
      assert count * outputChannels == (count - 1) * outputChannels + outputChannels;
    }
  }

  lemma {:induction false} SilentFrame(samples: seq<i16>, inputChannels: nat, channels: nat, frame: nat)
    requires inputChannels > 0 && frame >= |samples| / inputChannels
    ensures forall c :: 0 <= c < channels ==> FrameUpTo(samples, inputChannels, channels, frame)[c] == 0
    decreases channels
  {
    if channels > 0 {
      SilentFrame(samples, inputChannels, channels - 1, frame);
    }
  }

  /** From the end of the audio on, everything is silence. */
  lemma {:induction false} SilentFrames(samples: seq<i16>, inputChannels: nat, outputChannels: nat,
                                       from: nat, count: nat)
    requires inputChannels > 0 && from >= |samples| / inputChannels
    ensures forall k :: 0 <= k < |Frames(samples, inputChannels, outputChannels, from, count)| ==>
              Frames(samples, inputChannels, outputChannels, from, count)[k] == 0
    decreases count
  {
    if count > 0 {
      SilentFrames(samples, inputChannels, outputChannels, from, count - 1);
      SilentFrame(samples, inputChannels, outputChannels, from + count - 1);
    }
  }

  function AtLeastOne(channels: nat): nat { if channels == 0 then 1 else channels }

  lemma FrameFits(f: nat, count: nat, channels: nat)
    requires f < count
    ensures f * channels + channels == (f + 1) * channels <= count * channels
  {
    assert (count - f - 1) * channels >= 0;
    assert (count - f - 1) * channels == count * channels - (f + 1) * channels;
  }

  class PlaybackState {
    const samples: seq<i16>
    const channels: nat
    var frameOffset: nat
    var complete: bool
    /** Frames that the device has asked for so far. */
    ghost var delivered: nat

    constructor (samples: seq<i16>, channels: nat)
      ensures this.samples == samples && this.channels == channels && Valid() && delivered == 0
    {
      this.samples, this.channels := samples, channels;
      frameOffset, complete, delivered := 0, false, 0;
    }

    function InputChannels(): (n: nat)
      ensures n > 0
    {
      AtLeastOne(channels)
    }

    function TotalFrames(): nat { |samples| / InputChannels() }

    ghost predicate Valid()
      reads this
    {
      && frameOffset == (if delivered <= TotalFrames() then delivered else TotalFrames())
      && (complete ==> delivered >= TotalFrames()) && (0 < delivered && delivered >= TotalFrames() ==> complete)
    }

    /** Whatever the device asks for, it gets the next frames of the one endless stream. */
    method DataCallback(out: array<i16>, frameCount: nat, deviceChannels: nat)
      requires Valid() && out.Length == frameCount * AtLeastOne(deviceChannels)
      modifies this, out
      ensures Valid() && delivered == old(delivered) + frameCount
      ensures out[..] == Frames(samples, InputChannels(), AtLeastOne(deviceChannels), old(delivered), frameCount)
    {
      if frameCount == 0 {
        assert out[..] == [];
        return;
      }
      var outputChannels := AtLeastOne(deviceChannels);
      forall i | 0 <= i < out.Length {
        out[i] := 0;
      }
      ghost var from := delivered;
      delivered := delivered + frameCount;
      var totalFrames := |samples| / InputChannels();
      if complete {
        AllSilent(out[..], from, outputChannels, frameCount);
        return;
      }
      var offset := frameOffset;
      if offset >= totalFrames {
        complete := true;
        AllSilent(out[..], from, outputChannels, frameCount);
        return;
      }
      var copyFrames := if frameCount <= totalFrames - offset then frameCount else totalFrames - offset;
      CopyFrames(out, frameCount, outputChannels, offset, copyFrames);
      var nextOffset := offset + copyFrames;
      frameOffset := nextOffset;
      if nextOffset >= totalFrames {
        complete := true;
      }
    }

    lemma AllSilent(out: seq<i16>, from: nat, outputChannels: nat, count: nat)
      requires from >= TotalFrames() && |out| == count * outputChannels
      requires forall k :: 0 <= k < |out| ==> out[k] == 0
      ensures out == Frames(samples, InputChannels(), outputChannels, from, count)
    {
      FramesSize(samples, InputChannels(), outputChannels, from, count);
      SilentFrames(samples, InputChannels(), outputChannels, from, count);
    }

    method CopyFrames(out: array<i16>, frameCount: nat, outputChannels: nat, offset: nat, copyFrames: nat)
      requires out.Length == frameCount * outputChannels && copyFrames <= frameCount
      requires offset + copyFrames <= TotalFrames()
      requires copyFrames < frameCount ==> offset + copyFrames == TotalFrames()
      requires forall k :: 0 <= k < out.Length ==> out[k] == 0
      modifies out
      ensures out[..] == Frames(samples, InputChannels(), outputChannels, offset, frameCount)
    {
      for frame := 0 to copyFrames
        invariant frame * outputChannels <= out.Length
        invariant out[..frame * outputChannels] == Frames(samples, InputChannels(), outputChannels, offset, frame)
        invariant forall k :: frame * outputChannels <= k < out.Length ==> out[k] == 0
      {
        FrameFits(frame, frameCount, outputChannels);
        ghost var before := out[..frame * outputChannels];
        CopyFrame(out, frame * outputChannels, outputChannels, offset + frame);
        assert out[..(frame + 1) * outputChannels]
               == before + out[frame * outputChannels..frame * outputChannels + outputChannels];
      }
      FrameFitsAll(copyFrames, frameCount, outputChannels);
      ghost var end := copyFrames * outputChannels;
      if copyFrames < frameCount {
        AllSilent(out[end..], offset + copyFrames, outputChannels, frameCount - copyFrames);
        FramesJoin(samples, InputChannels(), outputChannels, offset, copyFrames, frameCount - copyFrames);
      }
      assert out[..] == out[..end] + out[end..];
    }

    method CopyFrame(out: array<i16>, outputBase: nat, outputChannels: nat, frame: nat)
      requires outputBase + outputChannels <= out.Length && frame < TotalFrames()
      modifies out
      ensures out[outputBase..outputBase + outputChannels] == Frame(samples, InputChannels(), outputChannels, frame)
      ensures out[..outputBase] == old(out[..outputBase])
      ensures forall k :: outputBase + outputChannels <= k < out.Length ==> out[k] == old(out[k])
    {
      var inputBase := frame * InputChannels();
      FrameInside(samples, InputChannels(), frame);
      for channel := 0 to outputChannels
        invariant out[outputBase..outputBase + channel] == FrameUpTo(samples, InputChannels(), channel, frame)
        invariant out[..outputBase] == old(out[..outputBase])
        invariant forall k :: outputBase + outputChannels <= k < out.Length ==> out[k] == old(out[k])
      {
        var inputChannel :=
          if InputChannels() == 1 then 0
          else if channel < InputChannels() - 1 then channel else InputChannels() - 1;
        out[outputBase + channel] := samples[inputBase + inputChannel];
      }
    }
  }

  lemma FrameFitsAll(copied: nat, count: nat, channels: nat)
    requires copied <= count
    ensures copied * channels <= count * channels
    ensures (count - copied) * channels == count * channels - copied * channels
  {
  }

  // ---------------------------------------------------------------- capture

  /** Capture stores the first samples of everything it is given, up to its target, and then is complete. */
  class CaptureState {
    const target: nat
    var samples: seq<i16>
    var complete: bool
    ghost var stream: seq<i16>

    constructor (target: nat)
      ensures this.target == target && Valid() && stream == []
    {
      this.target, samples, complete, stream := target, [], false, [];
    }

    ghost predicate Valid()
      reads this
    {
      && samples == (if |stream| <= target then stream else stream[..target])
      && (complete ==> |stream| >= target) && (stream != [] && |stream| >= target ==> complete)
    }

    method DataCallback(input: seq<i16>)
      requires Valid()
      modifies this
      ensures Valid() && stream == old(stream) + input
    {
      stream := stream + input;
      if input == [] || complete {
        return;
      }
      var remaining := target - if |samples| <= target then |samples| else target;
      var copyCount := if |input| <= remaining then |input| else remaining;
      samples := samples + input[..copyCount];
      if |samples| >= target {
        complete := true;
      }
    }
  }
}
