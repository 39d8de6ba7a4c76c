/**
 * One channel of the impulse response: a zeroed buffer of IR_SAMPLES samples,
 * the main impulse assigned at sample 0 (direct path) or at the interaural
 * delay (cross path), early reflections added with alternating polarity, and
 * on the cross path a low-pass filter over the whole buffer.
 *
 * Delays are sample indices already converted from milliseconds, gains are
 * reals, and the filter is a parameter: only the bookkeeping of the buffer is
 * modelled, not the floating-point numerics.
 */
module ImpulseChannel {

  /** 80 ms at 48000 Hz. */
  const IR_SAMPLES: nat := 3840

  /** One early reflection: the sample it lands on and its gain. */
  datatype Reflection = Reflection(delay: nat, gain: real)

  /** The head-shadow filter, applied to a whole buffer with a cutoff frequency;
      it keeps the length of the buffer. */
  type LowPass = f: (seq<real>, nat) -> seq<real> | forall s, cutoff :: |f(s, cutoff)| == |s|
    witness (s: seq<real>, cutoff: nat) => s

  /** Reflection k is added as is when k is even and negated when k is odd. */
  function Polarity(k: nat): real {
    if k % 2 == 0 then 1.0 else -1.0
  }

  /** A buffer of n zeros with the main impulse assigned at `delay`, unless the
      delay is not below n. */
  function Impulse(n: nat, delay: nat, gain: real): (b: seq<real>)
    ensures |b| == n
    ensures forall j | 0 <= j < n :: b[j] == if j == delay then gain else 0.0
  {
    var zeros := seq(n, _ => 0.0);
    if delay < n then zeros[delay := gain] else zeros
  }

  /** The buffer after reflections 0..k-1 have been added, in order; a
      reflection whose delay is not below the length is dropped. */
  function AddReflections(buf: seq<real>, reflections: seq<Reflection>, k: nat): (b: seq<real>)
    requires k <= |reflections|
    ensures |b| == |buf|
  {
    if k == 0 then buf
    else
      var b := AddReflections(buf, reflections, k - 1);
      var r := reflections[k - 1];
      if r.delay < |b| then b[r.delay := b[r.delay] + r.gain * Polarity(k - 1)] else b
  }

  /** Adding reflection k to the buffer that holds reflections 0..k-1 gives
      the buffer that holds reflections 0..k. */
  lemma AddReflectionStep(buf: seq<real>, reflections: seq<Reflection>, k: nat, delta: real,
                           before: seq<real>, after: seq<real>)
    requires k < |reflections|
    requires delta == reflections[k].gain * Polarity(k)
    requires before == AddReflections(buf, reflections, k)
    requires reflections[k].delay < |before| ==>
      after == before[reflections[k].delay := before[reflections[k].delay] + delta]
    requires reflections[k].delay >= |before| ==> after == before
    ensures after == AddReflections(buf, reflections, k + 1)
  {
  }

  /** The total that reflections 0..k-1 contribute to sample j. */
  function ReflectedAt(reflections: seq<Reflection>, j: nat, k: nat): real
    requires k <= |reflections|
  {
    if k == 0 then 0.0
    else
      var r := reflections[k - 1];
      ReflectedAt(reflections, j, k - 1) + (if r.delay == j then r.gain * Polarity(k - 1) else 0.0)
  }

  /** Each sample of the buffer gains exactly the reflections that land on it. */
  lemma {:induction false} AddReflectionsAt(buf: seq<real>, reflections: seq<Reflection>, k: nat, j: nat)
    requires k <= |reflections| && j < |buf|
    ensures AddReflections(buf, reflections, k)[j] == buf[j] + ReflectedAt(reflections, j, k)
  {
    if k > 0 {
      AddReflectionsAt(buf, reflections, k - 1, j);
    }
  }

  /** Reflections that land at or beyond the end of the buffer change nothing. */
  lemma {:induction false} LateReflectionsDropped(buf: seq<real>, reflections: seq<Reflection>, k: nat)
    requires k <= |reflections|
    requires forall m | 0 <= m < k :: reflections[m].delay >= |buf|
    ensures AddReflections(buf, reflections, k) == buf
  {
    if k > 0 {
      LateReflectionsDropped(buf, reflections, k - 1);
    }
  }

  /** Where the main impulse goes: sample 0 on the direct path, the cross delay
      on the cross path. */
  function MainDelay(isCross: bool, crossDelay: nat): nat {
    if isCross then crossDelay else 0
  }

  /** The channel before filtering. */
  function Unfiltered(gain: real, reflections: seq<Reflection>, isCross: bool, crossDelay: nat): seq<real> {
    AddReflections(Impulse(IR_SAMPLES, MainDelay(isCross, crossDelay), gain), reflections, |reflections|)
  }

  /** The channel: the filter runs only on the cross path with a non-zero
      cutoff; either way the channel is IR_SAMPLES long. */
  function Channel(gain: real, reflections: seq<Reflection>, isCross: bool, crossDelay: nat,
                   cutoff: nat, lpf: LowPass): (c: seq<real>)
    ensures |c| == IR_SAMPLES
  {
    var b := Unfiltered(gain, reflections, isCross, crossDelay);
    if isCross && cutoff != 0 then lpf(b, cutoff) else b
  }

  /** Sample j of an unfiltered channel: the main gain if j is the main delay,
      plus the signed gains of the reflections that land on j. */
  lemma UnfilteredAt(gain: real, reflections: seq<Reflection>, isCross: bool, crossDelay: nat, j: nat)
    requires j < IR_SAMPLES
    ensures Unfiltered(gain, reflections, isCross, crossDelay)[j]
      == (if j == MainDelay(isCross, crossDelay) then gain else 0.0) + ReflectedAt(reflections, j, |reflections|)
  {
    AddReflectionsAt(Impulse(IR_SAMPLES, MainDelay(isCross, crossDelay), gain), reflections, |reflections|, j);
  }

  /** Builds one channel in a fresh buffer. */
  method GenerateChannel(gain: real, reflections: seq<Reflection>, isCross: bool, crossDelay: nat,
                         cutoff: nat, lpf: LowPass)
    returns (buf: array<real>)
    ensures fresh(buf)
    ensures buf.Length == IR_SAMPLES
    ensures buf[..] == Channel(gain, reflections, isCross, crossDelay, cutoff, lpf)
  {
    buf := new real[IR_SAMPLES](_ => 0.0);

    var delaySamples := if isCross then crossDelay else 0;
    if delaySamples < IR_SAMPLES {
      buf[delaySamples] := gain;
    }
    assert buf[..] == Impulse(IR_SAMPLES, delaySamples, gain);

    ghost var base := buf[..];
    for k := 0 to |reflections|
      invariant buf[..] == AddReflections(base, reflections, k)
    {
      ghost var before := buf[..];
      var totalDelay := reflections[k].delay;
      if totalDelay < IR_SAMPLES {
        var polarity := if k % 2 == 0 then 1.0 else -1.0;
        var delta := reflections[k].gain * polarity;
        buf[totalDelay] := buf[totalDelay] + delta;
        AddReflectionStep(base, reflections, k, delta, before, buf[..]);
      } else {
        AddReflectionStep(base, reflections, k, reflections[k].gain * Polarity(k), before, buf[..]);
      }
    }

    if isCross && cutoff != 0 {
      var filtered := lpf(buf[..], cutoff);
      forall j | 0 <= j < buf.Length {
        buf[j] := filtered[j];
      }
    }
  }
}
