/**
 * The audio loader built by `set_load_func(sr, one_audio_sec)`: the decoded
 * waveform is forced to exactly `sr * one_audio_sec` samples (truncated from
 * the start, or zero-padded on both sides and cut) and returned as one row.
 * Decoding itself is a foreign call: its outcome is an input here.
 */
module AudioLoader {
  import opened Results

  /** Sample rate and clip length the single-split (HSS) runner passes. */
  const HSS_SAMPLE_RATE: nat := 4000
  const HSS_SECONDS: nat := 10
  /** Sample rate and clip length the cross-validation (CinC) runner and Grad-CAM pass. */
  const CINC_SAMPLE_RATE: nat := 2000
  const CINC_SECONDS: nat := 60

  /** `const_length = sr * one_audio_sec` */
  function ConstLength(sr: nat, oneAudioSec: nat): nat {
    sr * oneAudioSec
  }

  function Zeros<T>(n: nat, zero: T): (r: seq<T>)
    ensures |r| == n
    ensures forall i :: 0 <= i < n ==> r[i] == zero
  {
    seq(n, _ => zero)
  }

  /** Python's `s[:n]` for `n >= 0`: at most the first `n` elements. */
  function Take<T>(s: seq<T>, n: nat): seq<T> {
    if n <= |s| then s[..n] else s
  }

  /** `np.pad(s, n)` in its default constant mode: `n` zeros on each side. */
  function Pad<T>(s: seq<T>, n: nat, zero: T): (r: seq<T>)
    ensures |r| == |s| + 2 * n
    ensures forall i :: 0 <= i < n || n + |s| <= i < |r| ==> r[i] == zero
    ensures r[n..n + |s|] == s
  {
    Zeros(n, zero) + s + Zeros(n, zero)
  }

  /** `n_pad = (const_length - len) // 2 + 1`, used only when `len < const_length`. */
  function PadCount(t: nat, len: nat): nat
    requires len < t
  {
    (t - len) / 2 + 1
  }

  /** The branch of `load_func` that shapes the decoded wave `wave` to `t` samples. */
  function FixLength<T>(wave: seq<T>, t: nat, zero: T): (r: seq<T>)
    ensures |r| == t
  {
    if |wave| > t then wave[..t]
    else if |wave| < t then Take(Pad(Take(wave, t), PadCount(t, |wave|), zero), t)
    else wave
  }

  /** `wave.reshape((1, -1))`: a single row holding every sample. */
  function Reshape<T>(wave: seq<T>): (r: seq<seq<T>>)
    ensures |r| == 1 && r[0] == wave
  {
    [wave]
  }

  /**
   * `load_func(path)` given what decoding `path[0]` at rate `sr` produced:
   * a decode failure propagates unchanged; otherwise the result is one row
   * of exactly `sr * one_audio_sec` samples.
   */
  function LoadFunc<T, E>(sr: nat, oneAudioSec: nat, decoded: Result<seq<T>, E>, zero: T): (r: Result<seq<seq<T>>, E>)
    ensures r.Err? <==> decoded.Err?
    ensures decoded.Err? ==> r == Err(decoded.error)
    ensures r.Ok? ==> |r.value| == 1 && |r.value[0]| == sr * oneAudioSec
    ensures r.Ok? ==> r.value[0] == FixLength(decoded.value, ConstLength(sr, oneAudioSec), zero)
  {
    match decoded
    case Err(e) => Err(e)
    case Ok(wave) => Ok(Reshape(FixLength(wave, ConstLength(sr, oneAudioSec), zero)))
  }

  /** A wave at least `t` long becomes its first `t` samples, in order; one exactly `t` long is unchanged. */
  lemma FixLengthTruncates<T>(wave: seq<T>, t: nat, zero: T)
    requires |wave| >= t
    ensures FixLength(wave, t, zero) == wave[..t]
    ensures |wave| == t ==> FixLength(wave, t, zero) == wave
  {
  }

  /**
   * A wave shorter than `t` keeps every sample: `n_pad` zeros, then the
   * whole wave in order, then zeros up to length `t`; `n_pad + len <= t`.
   */
  lemma FixLengthPads<T>(wave: seq<T>, t: nat, zero: T)
    requires |wave| < t
    ensures var n := PadCount(t, |wave|);
      var r := FixLength(wave, t, zero);
      && n + |wave| <= t
      && r[..n] == Zeros(n, zero)
      && r[n..n + |wave|] == wave
      && r[n + |wave|..] == Zeros(t - n - |wave|, zero)
  {
    var n := PadCount(t, |wave|);
    var padded := Pad(wave, n, zero);
    assert Take(wave, t) == wave;
    assert |padded| == 2 * n + |wave| >= t;
    var r := FixLength(wave, t, zero);
    assert r == padded[..t];
    assert r[..n] == padded[..n] == Zeros(n, zero);
    assert r[n..n + |wave|] == padded[n..n + |wave|] == wave;
    assert r[n + |wave|..] == padded[n + |wave|..t];
  }

  /**
   * The padding is not centred: the zeros before the wave outnumber the
   * zeros after it by one when `t - len` is odd and by two when it is even.
   */
  lemma PadOffCentre(len: nat, t: nat)
    requires len < t
    ensures var n := PadCount(t, len);
      var trailing := t - n - len;
      && trailing >= 0
      && n - trailing == (if (t - len) % 2 == 1 then 1 else 2)
  {
  }

  /** Every clip the single-split runner loads is one row of 40000 samples, whatever was decoded. */
  lemma HssClipLength<T>(wave: seq<T>, zero: T)
    ensures var r := LoadFunc<T, string>(HSS_SAMPLE_RATE, HSS_SECONDS, Ok(wave), zero);
      r.Ok? && |r.value| == 1 && |r.value[0]| == 40000
  {
  }

  /** Every clip the cross-validation runner loads is one row of 120000 samples, whatever was decoded. */
  lemma CincClipLength<T>(wave: seq<T>, zero: T)
    ensures var r := LoadFunc<T, string>(CINC_SAMPLE_RATE, CINC_SECONDS, Ok(wave), zero);
      r.Ok? && |r.value| == 1 && |r.value[0]| == 120000
  {
  }
}
