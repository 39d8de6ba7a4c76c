/**
 * The top level of the impulse response generator: look up the preset, build
 * the direct and the cross channel, mirror them into a four-channel set in the
 * order LL, RR, LR, RL, and write that set as a 48 kHz WAVE file.
 */
module SpatialIr {
  import opened Wrappers
  import opened WavFormat
  import opened WavWriter
  import opened ImpulseChannel

  const SAMPLE_RATE := 48000
  const NUM_CHANNELS := 4

  const PRESET_NAMES: seq<string> := ["light", "medium", "heavy"]

  type PresetName = s: string | s in PRESET_NAMES witness "medium"

  /** The parameters of one intensity preset, with delays already in samples.
      The delay of each reflection is its total delay on its own path. */
  datatype Preset = Preset(
    directGain: real,
    reflections: seq<Reflection>,
    crossGain: real,
    crossDelay: nat,
    crossLpfFreq: nat,
    crossReflections: seq<Reflection>)

  /** The error raised for a preset name that is not in the table. */
  datatype IrError = ValueError(message: string)

  /** The four channels and the file written from them. */
  datatype Generated = Generated(channels: seq<seq<real>>, wav: seq<byte>)

  /** The names joined with `sep` between each pair, as Python's `str.join`. */
  function Join(names: seq<string>, sep: string): string {
    if |names| == 0 then ""
    else if |names| == 1 then names[0]
    else names[0] + sep + Join(names[1..], sep)
  }

  /** The ValueError message, listing the preset names in table order. */
  function UnknownPresetMessage(name: string): string {
    "Unknown preset: " + name + ". Choose from: " + Join(PRESET_NAMES, ", ")
  }

  /** The direct path: main impulse at sample 0, no filter. */
  function DirectChannel(p: Preset, lpf: LowPass): seq<real> {
    Channel(p.directGain, p.reflections, false, 0, 0, lpf)
  }

  /** The cross path: main impulse at the interaural delay, head-shadow filter. */
  function CrossChannel(p: Preset, lpf: LowPass): seq<real> {
    Channel(p.crossGain, p.crossReflections, true, p.crossDelay, p.crossLpfFreq, lpf)
  }

  /** Generates the impulse response set for the named preset.  An unknown
      name fails before any channel is built or any byte is written. */
  method GenerateIr(presetName: string, presets: PresetName -> Preset, lpf: LowPass, pack: Packer)
    returns (r: Result<Generated, IrError>)
    ensures r.Err? <==> presetName !in PRESET_NAMES
    ensures r.Err? ==> r.error == ValueError(UnknownPresetMessage(presetName))
    ensures r.Ok? ==>
      var p := presets(presetName);
      var chans := r.value.channels;
      && |chans| == NUM_CHANNELS
      && chans[0] == DirectChannel(p, lpf)   // LL
      && chans[1] == chans[0]                // RR mirrors LL
      && chans[2] == CrossChannel(p, lpf)    // LR
      && chans[3] == chans[2]                // RL mirrors LR
      && Writable(chans, SAMPLE_RATE)
      && r.value.wav == WavBytes(pack, chans, SAMPLE_RATE)
  {
    if presetName !in PRESET_NAMES {
      return Err(ValueError(UnknownPresetMessage(presetName)));
    }
    var p := presets(presetName);

    var ll := GenerateChannel(p.directGain, p.reflections, false, 0, 0, lpf);
    var chLL := ll[..];
    var chRR := chLL;  // an element-wise copy
    var lr := GenerateChannel(p.crossGain, p.crossReflections, true, p.crossDelay, p.crossLpfFreq, lpf);
    var chLR := lr[..];
    var chRL := chLR;  // an element-wise copy

    var channels := [chLL, chRR, chLR, chRL];
    // four channels of IR_SAMPLES samples at 48 kHz always fit the header
    assert Writable(channels, SAMPLE_RATE);
    var written := WriteWav(pack, channels, SAMPLE_RATE);
    return Ok(Generated(channels, written.value));
  }

  /** The file generated for any preset: 4 channels at 48000 Hz, 16-byte
      frames, 3840 frames, 61484 bytes in all; decoding it gives RR equal to
      LL and RL equal to LR. */
  lemma GeneratedFile(pack: Packer, g: Generated)
    requires |g.channels| == NUM_CHANNELS && Writable(g.channels, SAMPLE_RATE)
    requires forall c | 0 <= c < NUM_CHANNELS :: |g.channels[c]| == IR_SAMPLES
    requires g.channels[1] == g.channels[0] && g.channels[3] == g.channels[2]
    requires g.wav == WavBytes(pack, g.channels, SAMPLE_RATE)
    ensures |g.wav| == 61484
    ensures DecodeWav(g.wav).Some?
    ensures var d := DecodeWav(g.wav).value;
      && d.header == HeaderInfo(riffSize := 61476, channels := 4, sampleRate := 48000,
           byteRate := 768000, blockAlign := 16, dataSize := 61440)
      && |d.samples| == 4
      && d.samples[1] == d.samples[0] && d.samples[3] == d.samples[2]
  {
    WavSizes(pack, g.channels, SAMPLE_RATE);
    WavRoundTrip(pack, g.channels, SAMPLE_RATE);
  }
}
