/**
 * `split_voice` of the chunk-based answer scripts: the joined transcript of a video is cut
 * into consecutive pieces of `chunk_size` characters, the last one possibly shorter
 * (`[voice[i:i + chunk_size] for i in range(0, len(voice), chunk_size)]`).
 */
module VoiceSplit {
  import opened Text

  /** The piece sizes the two scripts pass: 3000 for the llama variant, 22000 for the older one. */
  const LlamaChunkSize: nat := 3000
  const OlderChunkSize: nat := 22000

  function Min(a: int, b: int): int
  {
    if a <= b then a else b
  }

  /** The pieces of `voice`, taken from the front. */
  function SplitVoice(voice: string, chunkSize: nat): (chunks: seq<string>)
    requires chunkSize > 0
    decreases |voice|
  {
    if voice == [] then []
    else if |voice| <= chunkSize then [voice]
    else [voice[..chunkSize]] + SplitVoice(voice[chunkSize..], chunkSize)
  }

  /** Joining the pieces gives back the transcript. */
  lemma {:induction false} SplitVoiceRoundTrip(voice: string, chunkSize: nat)
    requires chunkSize > 0
    ensures Concat(SplitVoice(voice, chunkSize)) == voice
    decreases |voice|
  {
    if |voice| > chunkSize {
      var rest := SplitVoice(voice[chunkSize..], chunkSize);
      SplitVoiceRoundTrip(voice[chunkSize..], chunkSize);
      assert (([voice[..chunkSize]] + rest)[1..]) == rest;
      assert voice[..chunkSize] + voice[chunkSize..] == voice;
    }
  }

  /** Non-empty pieces of at most `chunkSize` characters, all but the last exactly that long. */
  predicate WellSized(chunks: seq<string>, chunkSize: nat)
  {
    && (forall k | 0 <= k < |chunks| :: 0 < |chunks[k]| <= chunkSize)
    && (forall k | 0 <= k < |chunks| - 1 :: |chunks[k]| == chunkSize)
  }

  /** Every piece is non-empty and at most `chunkSize` long; all but the last are exactly that long. */
  lemma {:induction false} SplitVoiceSizes(voice: string, chunkSize: nat)
    requires chunkSize > 0
    ensures WellSized(SplitVoice(voice, chunkSize), chunkSize)
    decreases |voice|
  {
    if |voice| > chunkSize {
      SplitVoiceSizes(voice[chunkSize..], chunkSize);
      var rest := SplitVoice(voice[chunkSize..], chunkSize);
      var chunks := SplitVoice(voice, chunkSize);
      assert chunks == [voice[..chunkSize]] + rest;
      forall k | 0 <= k < |chunks| ensures 0 < |chunks[k]| <= chunkSize && (k < |chunks| - 1 ==> |chunks[k]| == chunkSize) {
        if k > 0 {
          assert chunks[k] == rest[k - 1];
          assert 0 < |rest[k - 1]| <= chunkSize;
          assert k - 1 < |rest| - 1 ==> |rest[k - 1]| == chunkSize;
        }
      }
    }
  }

  /** There are `ceil(len(voice) / chunkSize)` pieces; an empty transcript gives none. */
  lemma {:induction false} SplitVoiceCount(voice: string, chunkSize: nat)
    requires chunkSize > 0
    ensures |SplitVoice(voice, chunkSize)| == (|voice| + chunkSize - 1) / chunkSize
    ensures SplitVoice(voice, chunkSize) == [] <==> voice == ""
    decreases |voice|
  {
    if |voice| > chunkSize {
      var n := |voice| - chunkSize;
      SplitVoiceCount(voice[chunkSize..], chunkSize);
      DivStep(n + chunkSize - 1, chunkSize);
    } else if voice != [] {
      DivOne(|voice| + chunkSize - 1, chunkSize);
    }
  }

  lemma DivStep(m: nat, d: nat)
    requires d > 0
    ensures (m + d) / d == m / d + 1
  {
    var q, r := m / d, m % d;
    var q', r' := (m + d) / d, (m + d) % d;
    assert d * (q' - q - 1) == r - r' by {
      assert m == d * q + r && m + d == d * q' + r';
    }
    ProductBelow(d, q' - q - 1, r - r');
  }

  /** The only multiple of `d` strictly between `-d` and `d` is zero. */
  lemma ProductBelow(d: int, a: int, x: int)
    requires d > 0 && d * a == x && -d < x < d
    ensures a == 0
  {
  }

  lemma DivOne(m: nat, d: nat)
    requires d > 0 && d <= m < 2 * d
    ensures m / d == 1
  {
  }

  /** Piece `k` is `voice[k * chunkSize : (k + 1) * chunkSize]`, as in the comprehension. */
  lemma {:induction false} SplitVoicePiece(voice: string, chunkSize: nat, k: nat)
    requires chunkSize > 0 && k < |SplitVoice(voice, chunkSize)|
    ensures k * chunkSize < |voice|
    ensures SplitVoice(voice, chunkSize)[k] == voice[k * chunkSize .. Min((k + 1) * chunkSize, |voice|)]
    decreases |voice|
  {
    if |voice| > chunkSize && k > 0 {
      var rest := voice[chunkSize..];
      SplitVoicePiece(rest, chunkSize, k - 1);
      assert SplitVoice(voice, chunkSize)[k] == SplitVoice(rest, chunkSize)[k - 1];
      assert (k - 1) * chunkSize + chunkSize == k * chunkSize;
      assert k * chunkSize + chunkSize == (k + 1) * chunkSize;
    }
  }
}
