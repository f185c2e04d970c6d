/**
 The decode loop that cuts a fixture to a duration, written once in Python and once in C++.
 The decoder is an arbitrary sequence of blocks of interleaved 16-bit samples.
 */
module Fixture {
  import opened Wire

  type Block = seq<int>

  function Samples(blocks: seq<Block>, n: nat): seq<int>
    requires n <= |blocks|
  {
    if n == 0 then [] else Samples(blocks, n - 1) + blocks[n - 1]
  }

  /** Every block holds a whole number of frames. */
  predicate Whole(blocks: seq<Block>, channels: nat)
    requires channels > 0
  {
    forall b <- blocks :: |b| % channels == 0
  }

  /** What both loops are to keep: everything, or the first `cap` frames of it. */
  function Kept(blocks: seq<Block>, channels: nat, cap: Option<nat>): seq<int> {
    var all := Samples(blocks, |blocks|);
    match cap
    case None => all
    case Some(frames) => all[..Min(|all|, frames * channels)]
  }

  lemma {:induction false} SamplesGrow(blocks: seq<Block>, i: nat, n: nat)
    requires i <= n <= |blocks|
    ensures |Samples(blocks, i)| <= |Samples(blocks, n)|
    ensures Samples(blocks, n)[..|Samples(blocks, i)|] == Samples(blocks, i)
  {
    if i < n {
      SamplesGrow(blocks, i, n - 1);
    }
  }

  lemma Frames(length: nat, channels: nat) returns (frames: nat)
    requires channels > 0 && length % channels == 0
    ensures frames == length / channels && frames * channels == length
  {
    frames := length / channels;
  }

  lemma Ordered(a: nat, b: nat, channels: nat)
    requires channels > 0
    ensures a <= b <==> a * channels <= b * channels
  {
    if a <= b {
      assert (b - a) * channels >= 0;
    } else {
      assert (a - b) * channels > 0;
    }
  }

  lemma AddFrames(a: nat, b: nat, channels: nat)
    ensures (a + b) * channels == a * channels + b * channels
  {
  }

  /** The Python loop, which cuts the block that crosses the cap. */
  method DecodePython(blocks: seq<Block>, channels: nat, cap: Option<nat>)
    returns (samples: seq<int>, frameCount: nat)
    requires channels > 0 && Whole(blocks, channels)
    ensures samples == Kept(blocks, channels, cap)
    ensures frameCount * channels == |samples|
  {
    samples, frameCount := [], 0;
    for i := 0 to |blocks|
      invariant samples == Samples(blocks, i) && frameCount * channels == |samples|
      invariant i > 0 && cap.Some? ==> frameCount < cap.value
    {
      var outSamples := |blocks[i]| / channels;
      ghost var _ := Frames(|blocks[i]|, channels);
      AddFrames(frameCount, outSamples, channels);
      SamplesGrow(blocks, i + 1, |blocks|);
      assert samples + blocks[i] == Samples(blocks, i + 1);
      var pcm := blocks[i];
      if cap.Some? && frameCount + outSamples > cap.value {
        Ordered(cap.value, frameCount + outSamples, channels);
        if cap.value <= frameCount {
          return;
        }
        var remaining := cap.value - frameCount;
        AddFrames(frameCount, remaining, channels);
        pcm := pcm[..remaining * channels];
        outSamples := remaining;
      }
      samples := samples + pcm;
      frameCount := frameCount + outSamples;
      if cap.Some? && frameCount >= cap.value {
        return;
      }
    }
    if cap.Some? {
      Ordered(frameCount, cap.value, channels);
    }
  }

  /** The C++ loop takes whole blocks in until the cap is reached. */
  method TakeBlocks(blocks: seq<Block>, channels: nat, cap: nat) returns (taken: seq<int>)
    requires channels > 0 && Whole(blocks, channels)
    ensures var all := Samples(blocks, |blocks|);
            && |taken| <= |all| && all[..|taken|] == taken
            && (taken == all || cap * channels <= |taken|)
            && (taken == [] <==> all == [] || (cap == 0 && blocks[0] == []))
  {
    taken := [];
    ghost var frames := 0;
    for i := 0 to |blocks|
      invariant taken == Samples(blocks, i) && frames * channels == |taken|
      invariant i > 0 ==> frames < cap
    {
      ghost var more := Frames(|blocks[i]|, channels);
      AddFrames(frames, more, channels);
      taken := taken + blocks[i];
      frames := frames + more;
      WholeFrames(frames, |taken|, channels);
      if |taken| / channels >= cap {
        Ordered(cap, frames, channels);
        SamplesGrow(blocks, i + 1, |blocks|);
        if taken == [] {
          Ordered(frames, 0, channels);
        }
        if cap == 0 {
          assert taken == blocks[0];
        }
        return;
      }
    }
    if cap == 0 {
      assert blocks == [];
    }
  }

  lemma WholeFrames(frames: nat, length: nat, channels: nat)
    requires channels > 0 && frames * channels == length
    ensures length / channels == frames
  {
    Ordered(length / channels, frames, channels);
    Ordered(frames + 1, length / channels, channels);
    AddFrames(frames, 1, channels);
    if length / channels < frames {
      Ordered(length / channels + 1, frames, channels);
      AddFrames(length / channels, 1, channels);
    }
  }

  /** No audio at all is an error in C++. Whenever it yields audio, Python yields the same. */
  method DecodeCpp(blocks: seq<Block>, channels: nat, cap: nat) returns (samples: Option<seq<int>>)
    requires channels > 0 && Whole(blocks, channels)
    ensures samples.Some? ==> samples.value == Kept(blocks, channels, Some(cap))
    ensures samples.None? <==>
            Samples(blocks, |blocks|) == [] || (cap == 0 && blocks[0] == [])
  {
    var taken := TakeBlocks(blocks, channels, cap);
    if taken == [] {
      return None;
    }
    return Some(taken[..Min(|taken|, cap * channels)]);
  }
}
