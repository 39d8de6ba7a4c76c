# Spatial impulse response generator: a Dafny model

The generator builds the four-channel impulse response that the virtual audio
output convolves stereo audio with:

- channel 0 is the direct path L→L;
- channel 1 is R→R, a copy of channel 0;
- channel 2 is the cross path L→R;
- channel 3 is R→L, a copy of channel 2.

It writes these channels as a 32-bit IEEE-float WAVE file. This project models
two exact parts of that generator and proves properties of them.

- **The WAVE writer** (`wav_format.dfy`, `write_wav.dfy`). The writer emits a
  44-byte RIFF header of little-endian integer fields, as in the "WAVE Form
  Definition" of the Microsoft/IBM *Multimedia Programming Interface and Data
  Specifications 1.0*, with format tag 3 (WAVE_FORMAT_IEEE_FLOAT). The samples
  follow, interleaved frame by frame. `WriteWav` performs the header writes and
  then the nested frame/channel loops. Its result is the file's bytes, or the
  exception raised for a missing channel, an unfit header field or a short
  channel, together with the bytes already in the file. The float32 overflow
  that `struct.pack("<f", x)` can raise is not modelled (see "Left out").
  `WavFormat` gives the expected file (`WavBytes`) and a decoder
  (`DecodeWav`). It proves the header layout, the size equations, the offset
  of every sample and the decode/encode round trip.
- **The impulse buffers** (`impulse_channel.dfy`, `spatial_ir.dfy`).
  `GenerateChannel` fills a fresh `array<real>` of `IR_SAMPLES` (3840)
  samples. The main impulse is assigned at sample 0 on the direct path and at
  the cross delay on the cross path. The reflections are added with
  alternating polarity, and only at indices below the buffer length. The
  head-shadow filter runs on the cross path. `GenerateIr` rejects a preset
  name other than light, medium or heavy. For a known preset it builds the
  channels in the order LL, RR, LR, RL and writes them at 48000 Hz.

Modules: `Wrappers` (Option, Result), `WavFormat`, `WavWriter`,
`ImpulseChannel`, `SpatialIr`.

## Model

| member | source | states |
|---|---|---|
| `WavFormat.LE16` | handheld-audio-enhance/generate_ir.py:162-167 | a 16-bit field is two bytes, low byte first, and reading them back gives the value |
| `WavFormat.LE32` | handheld-audio-enhance/generate_ir.py:156-171 | a 32-bit field is four bytes, low byte first, and reading them back gives the value |
| `WavFormat.LE16OfRead` | handheld-audio-enhance/generate_ir.py:162-167 | every two bytes are the encoding of the 16-bit value they read as, so the encoding is injective and onto |
| `WavFormat.LE32OfRead` | handheld-audio-enhance/generate_ir.py:156-171 | every four bytes are the encoding of the 32-bit value they read as |
| `WavFormat.Emit` | handheld-audio-enhance/generate_ir.py:153-171 | the header writes happen in order and stop at the first field the integer packer rejects. Nothing is rejected exactly when every field fits, and then all bytes are written. Otherwise the rejected value is that of the first unfit field, and the file holds exactly the fields before it |
| `WavFormat.HeaderFieldsFit` | handheld-audio-enhance/generate_ir.py:146-171 | no header write fails if and only if RIFF size, channel count, rate, byte rate and block align all fit their widths |
| `WavFormat.HeaderBytes` | handheld-audio-enhance/generate_ir.py:154-171 | the header is exactly 44 bytes |
| `WavFormat.HeaderWritesLayout` | handheld-audio-enhance/generate_ir.py:155-171 | the thirteen writes produce exactly the RIFF descriptor, the 24-byte "fmt " chunk and the "data" chunk head |
| `WavFormat.HeaderOffsets` | handheld-audio-enhance/generate_ir.py:155-171 | the fields appear at fixed offsets, in this order: "RIFF", u32 36+data_size, "WAVE", "fmt ", u32 16, u16 3, u16 channels, u32 rate, u32 rate·channels·4, u16 channels·4, u16 32, "data", u32 data_size |
| `WavFormat.ParseHeaderBytes` | handheld-audio-enhance/generate_ir.py:146-171 | parsing the header gives back the channel count, rate, byte rate, block align, data size and RIFF size that were written |
| `WavFormat.Frames` | handheld-audio-enhance/generate_ir.py:151 | n frames occupy n·(channels·4) bytes, which is the data_size the header declares |
| `WavFormat.FramesAt` | handheld-audio-enhance/generate_ir.py:172-174 | in the data chunk, sample i of channel c is the 4-byte word at byte 4·(i·channels + c) |
| `WavFormat.DeinterleaveFrames` | handheld-audio-enhance/generate_ir.py:172-174 | de-interleaving the data chunk gives back each channel's packed samples |
| `WavFormat.WavSizes` | handheld-audio-enhance/generate_ir.py:148-156 | the file is 44 + data_size bytes with data_size = samples·channels·4. The RIFF size field is 36 + data_size, which is the file length less 8. The data size field is data_size |
| `WavFormat.WavSampleOffset` | handheld-audio-enhance/generate_ir.py:147-174 | in the whole file, sample i of channel ch sits at byte 44 + 4·(i·channels + ch) |
| `WavFormat.WavRoundTrip` | handheld-audio-enhance/generate_ir.py:141-174 | decoding the file gives back the channel count, the rate and the derived sizes. It gives each channel's packed samples, truncated to the length of channel 0 |
| `WavWriter.WriteWav` | handheld-audio-enhance/generate_ir.py:141-174 | with a packer that accepts every sample, the write succeeds exactly when there is a channel, no channel is shorter than channel 0 and the header fits. Its bytes are then `WavBytes`. An empty channel list fails before anything is written. An unfit field fails with the bytes written before it. A short channel fails at the first (frame, channel) pair, in writing order, that has no sample, with the header and all earlier samples in the file |
| `ImpulseChannel.Impulse` | handheld-audio-enhance/generate_ir.py:120-125 | the buffer holds n samples. Each sample is zero except the main gain at the delay, and only when the delay is below n |
| `ImpulseChannel.AddReflectionsAt` | handheld-audio-enhance/generate_ir.py:127-132 | after the reflections are added, sample j equals its old value plus the sum of gain·polarity over the reflections whose delay is j. Polarity is +1 for even k and −1 for odd k |
| `ImpulseChannel.LateReflectionsDropped` | handheld-audio-enhance/generate_ir.py:129-132 | reflections whose delay is at or beyond the buffer length leave the buffer unchanged |
| `ImpulseChannel.Channel` | handheld-audio-enhance/generate_ir.py:120-138 | every channel has exactly IR_SAMPLES samples, filtered or not |
| `ImpulseChannel.UnfilteredAt` | handheld-audio-enhance/generate_ir.py:120-132 | before the filter, sample j is the main gain when j is the main delay, plus the signed gains of the reflections that land on j. The main delay is 0 on the direct path and the cross delay on the cross path |
| `ImpulseChannel.GenerateChannel` | handheld-audio-enhance/generate_ir.py:117-138 | the array is freshly allocated, IR_SAMPLES long and holds the specified channel. The filter runs only on the cross path with a non-zero cutoff |
| `SpatialIr.GenerateIr` | handheld-audio-enhance/generate_ir.py:177-205 | an unknown preset name fails with the ValueError message, which lists the preset names joined by ", ", and yields no channels or bytes. A known name yields exactly 4 channels: LL is the direct channel, RR equals LL, LR is the cross channel and RL equals LR. The file is the WAVE encoding of these channels at 48000 Hz |
| `SpatialIr.GeneratedFile` | handheld-audio-enhance/generate_ir.py:26-29 | a generated file is 61484 bytes. Its header declares 4 channels, 48000 Hz, byte rate 768000, block align 16 and data size 61440. Decoding it gives RR equal to LL and RL equal to LR |

## Left out

- The IEEE 754 float32 encoding of `struct.pack("<f", x)`: samples are encoded by a `Packer` parameter. It is any function into 4-byte words, so the round trip recovers the packed words, not the reals.
- `apply_lpf_to_impulse`: the single-pole filter is floating-point arithmetic. It is a `LowPass` parameter, and the model assumes only that it keeps the buffer length. It is applied when the cutoff is non-zero; a cutoff of 0 stands for both `None` and `0`, which Python treats as false.
- `ms_to_samples` and the computation of `IR_SAMPLES`: delays are given as `nat` sample indices and `IR_SAMPLES` as 3840. A reflection's delay is its already converted total delay on its path, because the source converts the sum of the reflection delay and the cross delay. Negative delays, which Python would use to index from the end of the list, cannot be expressed.
- The preset numbers (gains, delays, cutoffs): `GenerateIr` takes the preset table as a parameter over the three valid names.
- Sample values are Dafny `real`, so floating-point rounding in `+=` and in the filter is not modelled.
- File I/O: `WriteWav` returns the file's bytes instead of writing a file. For the empty channel list, `channels[0]` raises before the file is opened, so the output path is neither created nor truncated (a file already there stays as it was); the model reports an empty `written`. `os.path.getsize`, the progress printing and the argparse handling in `main` are not modelled.
- Non-numeric samples, which `struct.pack` would reject with a `struct.error`, cannot occur because samples are reals.
- WavWriter.WriteWav: the `OverflowError` that `struct.pack("<f", x)` raises for a finite sample too large for float32 (for instance 1e39), after the header and the earlier samples are written, is not modelled. The `Packer` is total, so the model writes such a sample instead of failing; the success condition holds only for packers that accept every sample.
- Device discovery, the convolver graph configuration and install/uninstall are not part of this model.
