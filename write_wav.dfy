/**
 * The WAVE writer of the impulse response generator: the header writes, then
 * the samples in two nested loops, frame by frame and channel by channel.
 * The file is modelled as the sequence of bytes written to it, including the
 * bytes already written when an exception stops the writer.
 */
module WavWriter {
  import opened Wrappers
  import opened WavFormat

  /** The exceptions the writer can raise. */
  datatype WavError =
    | NoChannels                                // channels[0] of an empty list, before the file is opened
    | FieldOutOfRange(value: int)               // the integer packer rejected a header field
    | SampleMissing(channel: nat, index: nat)   // channels[channel][index] is past the end of a channel

  /** A write that raised: the exception, and what the file holds at that point. */
  datatype Failure = Failure(error: WavError, written: seq<byte>)

  /** Writes a multi-channel 32-bit float WAVE file and returns its bytes.
      The number of frames is the length of the first channel. */
  method WriteWav(pack: Packer, channels: seq<seq<real>>, sampleRate: int)
    returns (r: Result<seq<byte>, Failure>)
    ensures r.Ok? <==> Writable(channels, sampleRate)
    ensures r.Ok? ==> r.value == WavBytes(pack, channels, sampleRate)
    ensures channels == [] ==> r == Err(Failure(NoChannels, []))
    ensures channels != [] && !HeaderFits(|channels|, sampleRate, DataSize(|channels|, |channels[0]|)) ==>
      && r.Err? && r.error.error.FieldOutOfRange?
      && Emit(HeaderFields(|channels|, sampleRate, DataSize(|channels|, |channels[0]|)))
         == Emitted(r.error.written, Some(r.error.error.value))
    ensures
      && channels != []
      && HeaderFits(|channels|, sampleRate, DataSize(|channels|, |channels[0]|))
      && !Covers(channels, |channels[0]|)
      ==>
      && r.Err? && r.error.error.SampleMissing?
      && var ch, i := r.error.error.channel, r.error.error.index;
      // the first (frame, channel) position, in writing order, that has no sample
      && i < |channels[0]| && ch < |channels| && |channels[ch]| <= i
      && Covers(channels, i) && (forall c | 0 <= c < ch :: i < |channels[c]|)
      && r.error.written
         == HeaderBytes(|channels|, sampleRate, DataSize(|channels|, |channels[0]|))
            + Frames(pack, channels, i) + FramePrefix(pack, channels, i, ch)
  {
    if |channels| == 0 {
      return Err(Failure(NoChannels, []));
    }
    var numChannels := |channels|;
    var numSamples := |channels[0]|;
    var blockAlign := numChannels * BYTES_PER_SAMPLE;
    var dataSize := numSamples * blockAlign;
    assert dataSize == DataSize(numChannels, numSamples);

    HeaderFieldsFit(numChannels, sampleRate, dataSize);
    var header := Emit(HeaderFields(numChannels, sampleRate, dataSize));
    var out := header.bytes;
    if header.rejected.Some? {
      assert !Writable(channels, sampleRate);
      return Err(Failure(FieldOutOfRange(header.rejected.value), out));
    }
    HeaderWritesLayout(numChannels, sampleRate, dataSize);

    for i := 0 to numSamples
      invariant Covers(channels, i)
      invariant out == HeaderBytes(numChannels, sampleRate, dataSize) + Frames(pack, channels, i)
    {
      for ch := 0 to numChannels
        invariant forall c | 0 <= c < ch :: i < |channels[c]|
        invariant out == HeaderBytes(numChannels, sampleRate, dataSize)
          + Frames(pack, channels, i) + FramePrefix(pack, channels, i, ch)
      {
        if |channels[ch]| <= i {
          assert !Covers(channels, numSamples);
          return Err(Failure(SampleMissing(ch, i), out));
        }
        AppendSample(pack, channels, i, ch, HeaderBytes(numChannels, sampleRate, dataSize) + Frames(pack, channels, i));
        out := out + pack(channels[ch][i]);
      }
      AppendFrame(pack, channels, i, HeaderBytes(numChannels, sampleRate, dataSize));
    }
    assert Writable(channels, sampleRate);
    return Ok(out);
  }

  /** Writing sample i of channel ch extends the frame under way by its word. */
  lemma AppendSample(pack: Packer, channels: seq<seq<real>>, i: nat, ch: nat, before: seq<byte>)
    requires ch < |channels| && forall c | 0 <= c <= ch :: i < |channels[c]|
    ensures before + FramePrefix(pack, channels, i, ch) + pack(channels[ch][i])
      == before + FramePrefix(pack, channels, i, ch + 1)
  {
  }

  /** Completing frame i extends the frames written so far by one. */
  lemma AppendFrame(pack: Packer, channels: seq<seq<real>>, i: nat, before: seq<byte>)
    requires Covers(channels, i + 1)
    ensures before + Frames(pack, channels, i) + FramePrefix(pack, channels, i, |channels|)
      == before + Frames(pack, channels, i + 1)
  {
  }
}
