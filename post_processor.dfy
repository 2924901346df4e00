/**
 * The audio post-processor applied to every synthesized buffer: amplify by
 * 1.5 and hard-clip to [-0.8, 0.8], build a copy delayed by 100 ms (a
 * circular shift whose wrapped-around head is then zeroed), and mix
 * 0.7 x clipped + 0.3 x delayed. Samples are mathematical reals.
 */
module PostProcessor {
  import opened Wrappers

  const SampleRate: nat := 44100
  /** `int(0.1 * 44100)`: the echo delay in samples. */
  const DelaySamples: nat := SampleRate / 10

  /**
   * The speech engine (the external TTS, or the synthetic fallback) as seen by
   * the post-processor: a buffer, or `None` when it raised or produced no 1-D buffer.
   */
  type Synthesizer = string -> Option<seq<real>>

  const Gain: real := 1.5
  const Ceiling: real := 0.8
  const DryWeight: real := 0.7
  const WetWeight: real := 0.3

  function Min(a: int, b: int): int { if a <= b then a else b }

  /** `np.clip(x * 1.5, -0.8, 0.8)` on one sample. */
  function Distort(x: real): (y: real)
    ensures -Ceiling <= y <= Ceiling
    ensures -Ceiling <= Gain * x <= Ceiling ==> y == Gain * x
    ensures Gain * x > Ceiling ==> y == Ceiling
    ensures Gain * x < -Ceiling ==> y == -Ceiling
  {
    var v := Gain * x;
    if v < -Ceiling then -Ceiling else if v > Ceiling then Ceiling else v
  }

  /** The amplified and hard-clipped buffer. */
  function Clipped(s: seq<real>): (c: seq<real>)
    ensures |c| == |s|
    ensures forall i :: 0 <= i < |c| ==> -Ceiling <= c[i] <= Ceiling
    ensures forall i :: 0 <= i < |s| && -Ceiling <= Gain * s[i] <= Ceiling ==> c[i] == Gain * s[i]
  {
    seq(|s|, i requires 0 <= i < |s| => Distort(s[i]))
  }

  /** `np.roll(s, k)`: sample i of the result is sample (i - k) mod n of `s`. */
  function Rolled(s: seq<real>, k: nat): (r: seq<real>)
  {
    seq(|s|, i requires 0 <= i < |s| => s[(i - k) % |s|])
  }

  /**
   * A roll is a rotation: samples at or past the shift come from k places
   * earlier, and the first k samples are the last k of the buffer.
   */
  lemma RolledAt(s: seq<real>, k: nat)
    ensures |Rolled(s, k)| == |s|
    ensures forall i :: k <= i < |s| ==> Rolled(s, k)[i] == s[i - k]
    ensures forall i :: 0 <= i < k && k <= |s| ==> Rolled(s, k)[i] == s[|s| - k + i]
  {
    var r := Rolled(s, k);
    forall i | k <= i < |s| ensures r[i] == s[i - k] {
      ModInRange(i - k, |s|);
    }
    forall i | 0 <= i < k && k <= |s| ensures r[i] == s[|s| - k + i] {
      ModOfNegative(i - k, |s|);
    }
  }

  lemma ModInRange(a: int, n: int)
    requires 0 <= a < n
    ensures a % n == a
  {
  }

  lemma ModOfNegative(a: int, n: int)
    requires -n <= a < 0
    ensures a % n == a + n
  {
  }

  /** `delayed[:k] = 0`: the first k samples (all of them when k >= n) become silence. */
  function ZeroHead(s: seq<real>, k: nat): (r: seq<real>)
  {
    seq(|s|, i requires 0 <= i < |s| => if i < k then 0.0 else s[i])
  }

  /** The delayed copy of a (clipped) buffer. */
  function Delayed(c: seq<real>): (d: seq<real>)
    ensures |d| == |c|
    ensures forall i :: 0 <= i < Min(|c|, DelaySamples) ==> d[i] == 0.0
    ensures forall i :: DelaySamples <= i < |c| ==> d[i] == c[i - DelaySamples]
    ensures |c| <= DelaySamples ==> forall i :: 0 <= i < |c| ==> d[i] == 0.0
  {
    RolledAt(c, DelaySamples);
    ZeroHead(Rolled(c, DelaySamples), DelaySamples)
  }

  /** `c * 0.7 + d * 0.3`, sample by sample. */
  function Mixed(c: seq<real>, d: seq<real>): (m: seq<real>)
    requires |c| == |d|
  {
    seq(|c|, i requires 0 <= i < |c| => c[i] * DryWeight + d[i] * WetWeight)
  }

  /** The whole post-processing of one synthesized buffer. */
  function PostProcess(s: seq<real>): (out: seq<real>)
  {
    var c := Clipped(s);
    Mixed(c, Delayed(c))
  }

  /**
   * The processed buffer is as long as the input; before the delay it is
   * 0.7 of the clipped input, after it the clipped input plus 0.3 of the
   * clipped input one delay earlier; no sample exceeds 0.8 in magnitude.
   */
  lemma PostProcessSpec(s: seq<real>)
    ensures |PostProcess(s)| == |s|
    ensures forall i :: 0 <= i < |s| && i < DelaySamples ==>
      PostProcess(s)[i] == DryWeight * Clipped(s)[i]
    ensures forall i :: DelaySamples <= i < |s| ==>
      PostProcess(s)[i] == DryWeight * Clipped(s)[i] + WetWeight * Clipped(s)[i - DelaySamples]
    ensures forall i :: 0 <= i < |s| ==> -Ceiling <= PostProcess(s)[i] <= Ceiling
  {
    var c := Clipped(s);
    var d := Delayed(c);
    var out := PostProcess(s);
    forall i | 0 <= i < |s| ensures -Ceiling <= out[i] <= Ceiling {
      assert out[i] == c[i] * DryWeight + d[i] * WetWeight;
      assert -Ceiling <= d[i] <= Ceiling by {
        if i >= DelaySamples { assert d[i] == c[i - DelaySamples]; }
      }
    }
  }

  /** A buffer no longer than the delay gets no echo at all. */
  lemma ShortBufferHasNoEcho(s: seq<real>)
    requires |s| <= DelaySamples
    ensures Delayed(Clipped(s)) == seq(|s|, i => 0.0)
    ensures forall i :: 0 <= i < |s| ==> PostProcess(s)[i] == DryWeight * Clipped(s)[i]
  {
  }

  /**
   * A full-scale constant buffer longer than the delay: the delayed copy is
   * silent before sample 4410, and sample 4410 of the output is the full
   * 0.7 + 0.3 mix of the clipped level 0.8.
   */
  lemma ConstantBufferEcho(s: seq<real>)
    requires |s| > DelaySamples
    requires forall i :: 0 <= i < |s| ==> s[i] == 1.0
    ensures forall i :: 0 <= i < DelaySamples ==> Delayed(Clipped(s))[i] == 0.0
    ensures PostProcess(s)[DelaySamples] == Ceiling
  {
  }

  /** `np.clip(audio * 1.5, -0.8, 0.8)` into a new array. */
  method ClipBuffer(audio: array<real>) returns (clipped: array<real>)
    ensures clipped[..] == Clipped(audio[..])
  {
    clipped := new real[audio.Length];
    for i := 0 to audio.Length
      invariant forall k :: 0 <= k < i ==> clipped[k] == Distort(audio[k])
    {
      clipped[i] := Distort(audio[i]);
    }
  }

  /** `np.roll(a, k)` into a new array. */
  method RollBuffer(a: array<real>, k: nat) returns (rolled: array<real>)
    ensures fresh(rolled)
    ensures rolled[..] == Rolled(a[..], k)
  {
    var n := a.Length;
    rolled := new real[n];
    for i := 0 to n
      invariant forall j :: 0 <= j < i ==> rolled[j] == a[(j - k) % n]
    {
      rolled[i] := a[(i - k) % n];
    }
  }

  /** `a[:k] = 0`, in place. */
  method ZeroHeadInPlace(a: array<real>, k: nat)
    modifies a
    ensures a[..] == ZeroHead(old(a[..]), k)
  {
    var head := Min(a.Length, k);
    for i := 0 to head
      invariant forall j :: 0 <= j < i ==> a[j] == 0.0
      invariant forall j :: i <= j < a.Length ==> a[j] == old(a[j])
    {
      a[i] := 0.0;
    }
  }

  /** `c * 0.7 + d * 0.3` into a new array. */
  method MixBuffers(c: array<real>, d: array<real>) returns (m: array<real>)
    requires c.Length == d.Length
    ensures m[..] == Mixed(c[..], d[..])
  {
    m := new real[c.Length];
    for i := 0 to c.Length
      invariant forall j :: 0 <= j < i ==> m[j] == c[j] * DryWeight + d[j] * WetWeight
    {
      m[i] := c[i] * DryWeight + d[i] * WetWeight;
    }
  }

  /** The post-processing, step by step as the source runs it, over arrays. */
  method ProcessBuffer(audio: array<real>) returns (out: array<real>)
    ensures out[..] == PostProcess(audio[..])
  {
    var clipped := ClipBuffer(audio);
    var delayed := RollBuffer(clipped, DelaySamples);
    ZeroHeadInPlace(delayed, DelaySamples);
    out := MixBuffers(clipped, delayed);
  }

  /**
   * `create_industrial_scream` after the engine call: no audio when the
   * engine failed, otherwise the post-processed engine buffer.
   */
  method CreateIndustrialScream(text: string, engine: Synthesizer)
    returns (audio: Option<array<real>>)
    ensures audio.Some? <==> engine(text).Some?
    ensures audio.Some? ==> audio.value[..] == PostProcess(engine(text).value)
  {
    var raw := engine(text);
    match raw
    case None =>
      audio := None;
    case Some(samples) =>
      var buffer := new real[|samples|](i requires 0 <= i < |samples| => samples[i]);
      assert buffer[..] == samples;
      var processed := ProcessBuffer(buffer);
      audio := Some(processed);
  }
}
