/**
 * The byte layout of the multi-channel IEEE-float WAVE file that the impulse
 * response generator writes: a 44-byte RIFF header of little-endian integer
 * fields followed by the samples interleaved frame by frame.  The layout is
 * the "WAVE Form Definition" of the Microsoft/IBM Multimedia Programming
 * Interface and Data Specifications 1.0, with format tag 3
 * (WAVE_FORMAT_IEEE_FLOAT).
 *
 * This module holds the specification only: what the file must contain, a
 * decoder for it, and the lemmas that relate the two.
 */
module WavFormat {
  import opened Wrappers

  newtype byte = x: int | 0 <= x < 256

  /** The four bytes that one 32-bit float sample is packed into.  The IEEE 754
      encoding itself is not modelled: a `Packer` is any function of this type. */
  type Word = b: seq<byte> | |b| == 4 witness [0, 0, 0, 0]

  type Packer = real -> Word

  const BITS_PER_SAMPLE := 32
  const BYTES_PER_SAMPLE := BITS_PER_SAMPLE / 8
  const FMT_CHUNK_SIZE := 16
  const FORMAT_IEEE_FLOAT := 3
  const HEADER_SIZE := 44

  const U16_LIMIT := 0x1_0000
  const U32_LIMIT := 0x1_0000_0000

  const RIFF: seq<byte> := [0x52, 0x49, 0x46, 0x46]  // "RIFF"
  const WAVE: seq<byte> := [0x57, 0x41, 0x56, 0x45]  // "WAVE"
  const FMT: seq<byte> := [0x66, 0x6D, 0x74, 0x20]   // "fmt "
  const DATA: seq<byte> := [0x64, 0x61, 0x74, 0x61]  // "data"

  // ---------------------------------------------------------------------------
  // Little-endian integers
  // ---------------------------------------------------------------------------

  function ReadLE16(b: seq<byte>): int
    requires |b| == 2
  {
    b[0] as int + 256 * b[1] as int
  }

  function ReadLE32(b: seq<byte>): int
    requires |b| == 4
  {
    b[0] as int + 256 * (b[1] as int + 256 * (b[2] as int + 256 * b[3] as int))
  }

  /** The two bytes of an unsigned 16-bit field, low byte first. */
  function LE16(v: int): (b: seq<byte>)
    requires 0 <= v < U16_LIMIT
    ensures |b| == 2 && ReadLE16(b) == v
  {
    [(v % 256) as byte, (v / 256) as byte]
  }

  /** The four bytes of an unsigned 32-bit field, low byte first. */
  function LE32(v: int): (b: seq<byte>)
    requires 0 <= v < U32_LIMIT
    ensures |b| == 4 && ReadLE32(b) == v
  {
    var q1 := v / 256;
    var q2 := q1 / 256;
    var q3 := q2 / 256;
    [(v % 256) as byte, (q1 % 256) as byte, (q2 % 256) as byte, q3 as byte]
  }

  /** Reading a 16-bit field and writing it back gives the same two bytes. */
  lemma LE16OfRead(b: seq<byte>)
    requires |b| == 2
    ensures 0 <= ReadLE16(b) < U16_LIMIT && LE16(ReadLE16(b)) == b
  {
    var v := ReadLE16(b);
    assert v % 256 == b[0] as int && v / 256 == b[1] as int;
  }

  /** Reading a 32-bit field and writing it back gives the same four bytes. */
  lemma LE32OfRead(b: seq<byte>)
    requires |b| == 4
    ensures 0 <= ReadLE32(b) < U32_LIMIT && LE32(ReadLE32(b)) == b
  {
    var v := ReadLE32(b);
    var q1 := b[1] as int + 256 * (b[2] as int + 256 * b[3] as int);
    var q2 := b[2] as int + 256 * b[3] as int;
    assert v == b[0] as int + 256 * q1;
    assert v % 256 == b[0] as int && v / 256 == q1;
    assert q1 % 256 == b[1] as int && q1 / 256 == q2;
    assert q2 % 256 == b[2] as int && q2 / 256 == b[3] as int;
  }

  // ---------------------------------------------------------------------------
  // The header, as the sequence of writes that produce it
  // ---------------------------------------------------------------------------

  /** One write of the header: a four-character tag or a packed integer. */
  datatype Field = Tag(tag: seq<byte>) | U16(n: int) | U32(n: int)

  /** Whether the integer packer accepts the field; a tag is always written. */
  predicate Fits(f: Field) {
    match f
    case Tag(_) => true
    case U16(n) => 0 <= n < U16_LIMIT
    case U32(n) => 0 <= n < U32_LIMIT
  }

  predicate AllFit(fs: seq<Field>) {
    forall k | 0 <= k < |fs| :: Fits(fs[k])
  }

  function Encode(f: Field): seq<byte>
    requires Fits(f)
  {
    match f
    case Tag(t) => t
    case U16(n) => LE16(n)
    case U32(n) => LE32(n)
  }

  /** The bytes of the fields, in order; all of them must fit. */
  function EncodeAll(fs: seq<Field>): seq<byte>
    requires AllFit(fs)
  {
    if fs == [] then [] else Encode(fs[0]) + EncodeAll(fs[1..])
  }

  /** What a run of writes leaves behind: the bytes written, and the value of
      the integer field whose packing failed, if one did. */
  datatype Emitted = Emitted(bytes: seq<byte>, rejected: Option<int>)

  /** Performs the writes in order and stops at the first integer field the
      packer rejects; the writes before it have already happened. */
  function Emit(fs: seq<Field>): (e: Emitted)
    ensures e.rejected.None? <==> AllFit(fs)
    ensures e.rejected.None? ==> e.bytes == EncodeAll(fs)
    ensures e.rejected.Some? ==>
      exists k | 0 <= k < |fs| :: !Fits(fs[k]) && e.rejected.value == fs[k].n
        && AllFit(fs[..k]) && e.bytes == EncodeAll(fs[..k])
  {
    if fs == [] then Emitted([], None)
    else if !Fits(fs[0]) then
      assert fs[..0] == [];
      Emitted([], Some(fs[0].n))
    else
      var rest := Emit(fs[1..]);
      if rest.rejected.Some? then
        ghost var k :| 0 <= k < |fs[1..]| && !Fits(fs[1..][k]) && rest.rejected.value == fs[1..][k].n
          && AllFit(fs[1..][..k]) && rest.bytes == EncodeAll(fs[1..][..k]);
        assert fs[..k + 1] == [fs[0]] + fs[1..][..k];
        assert fs[..k + 1][1..] == fs[1..][..k];
        Emitted(Encode(fs[0]) + rest.bytes, rest.rejected)
      else
        Emitted(Encode(fs[0]) + rest.bytes, None)
  }

  /** The thirteen writes of the header, in the order the generator issues
      them: the RIFF chunk descriptor, the "fmt " chunk and the "data" chunk head. */
  function HeaderFields(channels: nat, sampleRate: int, dataSize: nat): seq<Field> {
    RiffFields(dataSize) + FmtFields(channels, sampleRate) + DataFields(dataSize)
  }

  function RiffFields(dataSize: nat): seq<Field> {
    [Tag(RIFF), U32(36 + dataSize), Tag(WAVE)]
  }

  /** byte_rate and block_align are derived from the channel count and the rate. */
  function FmtFields(channels: nat, sampleRate: int): seq<Field> {
    var blockAlign := channels * BYTES_PER_SAMPLE;
    var byteRate := sampleRate * channels * BYTES_PER_SAMPLE;
    [ Tag(FMT), U32(FMT_CHUNK_SIZE), U16(FORMAT_IEEE_FLOAT), U16(channels),
      U32(sampleRate), U32(byteRate), U16(blockAlign), U16(BITS_PER_SAMPLE) ]
  }

  function DataFields(dataSize: nat): seq<Field> {
    [Tag(DATA), U32(dataSize)]
  }

  /** The size of the data chunk: every frame holds one 4-byte sample per channel. */
  function DataSize(channels: nat, samples: nat): nat {
    samples * (channels * BYTES_PER_SAMPLE)
  }

  /** The header can be written: every derived field is within its integer width. */
  predicate HeaderFits(channels: nat, sampleRate: int, dataSize: nat) {
    && 36 + dataSize < U32_LIMIT
    && channels * BYTES_PER_SAMPLE < U16_LIMIT
    && 0 <= sampleRate < U32_LIMIT
    && sampleRate * channels * BYTES_PER_SAMPLE < U32_LIMIT
  }

  /** The explicit width conditions are exactly the condition that no header write fails. */
  lemma HeaderFieldsFit(channels: nat, sampleRate: int, dataSize: nat)
    ensures AllFit(HeaderFields(channels, sampleRate, dataSize)) <==> HeaderFits(channels, sampleRate, dataSize)
  {
    var fs := HeaderFields(channels, sampleRate, dataSize);
    var byteRate := sampleRate * channels * BYTES_PER_SAMPLE;
    assert |fs| == 13;
    assert fs[1] == U32(36 + dataSize) && fs[6] == U16(channels) && fs[7] == U32(sampleRate);
    assert fs[8] == U32(byteRate) && fs[9] == U16(channels * BYTES_PER_SAMPLE) && fs[12] == U32(dataSize);
    if HeaderFits(channels, sampleRate, dataSize) {
      assert 0 <= byteRate;
      forall k | 0 <= k < |fs| ensures Fits(fs[k]) {
      }
    }
  }

  /** The header as the file format defines it: 44 bytes, field by field. */
  function HeaderBytes(channels: nat, sampleRate: int, dataSize: nat): (h: seq<byte>)
    requires HeaderFits(channels, sampleRate, dataSize)
    ensures |h| == HEADER_SIZE
  {
    RiffDescriptor(dataSize) + FmtChunk(channels, sampleRate) + DataChunkHead(dataSize)
  }

  function RiffDescriptor(dataSize: nat): seq<byte>
    requires 36 + dataSize < U32_LIMIT
  {
    RIFF + LE32(36 + dataSize) + WAVE
  }

  function FmtChunk(channels: nat, sampleRate: int): seq<byte>
    requires channels * BYTES_PER_SAMPLE < U16_LIMIT
    requires 0 <= sampleRate < U32_LIMIT && sampleRate * channels * BYTES_PER_SAMPLE < U32_LIMIT
  {
    assert 0 <= sampleRate * channels * BYTES_PER_SAMPLE;
    FMT + LE32(FMT_CHUNK_SIZE) + LE16(FORMAT_IEEE_FLOAT) + LE16(channels)
    + LE32(sampleRate) + LE32(sampleRate * channels * BYTES_PER_SAMPLE)
    + LE16(channels * BYTES_PER_SAMPLE) + LE16(BITS_PER_SAMPLE)
  }

  function DataChunkHead(dataSize: nat): seq<byte>
    requires dataSize < U32_LIMIT
  {
    DATA + LE32(dataSize)
  }

  lemma EncodeAllAppend(a: seq<Field>, b: seq<Field>)
    requires AllFit(a) && AllFit(b)
    ensures AllFit(a + b) && EncodeAll(a + b) == EncodeAll(a) + EncodeAll(b)
  {
    assert AllFit(a + b) by {
      forall k | 0 <= k < |a + b| ensures Fits((a + b)[k]) {
        if k < |a| { assert (a + b)[k] == a[k]; } else { assert (a + b)[k] == b[k - |a|]; }
      }
    }
    if a == [] {
      assert a + b == b;
    } else {
      assert (a + b)[0] == a[0];
      assert (a + b)[1..] == a[1..] + b;
      EncodeAllAppend(a[1..], b);
    }
  }

  /** The thirteen writes produce exactly the header the file format defines. */
  lemma HeaderWritesLayout(channels: nat, sampleRate: int, dataSize: nat)
    requires HeaderFits(channels, sampleRate, dataSize)
    ensures AllFit(HeaderFields(channels, sampleRate, dataSize))
    ensures EncodeAll(HeaderFields(channels, sampleRate, dataSize)) == HeaderBytes(channels, sampleRate, dataSize)
  {
    var riff, fmt, data := RiffFields(dataSize), FmtFields(channels, sampleRate), DataFields(dataSize);
    RiffWrites(dataSize);
    FmtWrites(channels, sampleRate);
    DataWrites(dataSize);
    EncodeAllAppend(riff, fmt);
    EncodeAllAppend(riff + fmt, data);
  }

  lemma RiffWrites(dataSize: nat)
    requires 36 + dataSize < U32_LIMIT
    ensures AllFit(RiffFields(dataSize)) && EncodeAll(RiffFields(dataSize)) == RiffDescriptor(dataSize)
  {
    var fs := RiffFields(dataSize);
    assert Fits(fs[0]) && Fits(fs[1]) && Fits(fs[2]);
    EncodeThree(fs);
  }

  lemma FmtWrites(channels: nat, sampleRate: int)
    requires channels * BYTES_PER_SAMPLE < U16_LIMIT
    requires 0 <= sampleRate < U32_LIMIT && sampleRate * channels * BYTES_PER_SAMPLE < U32_LIMIT
    ensures AllFit(FmtFields(channels, sampleRate))
    ensures EncodeAll(FmtFields(channels, sampleRate)) == FmtChunk(channels, sampleRate)
  {
    var fs := FmtFields(channels, sampleRate);
    assert 0 <= sampleRate * channels * BYTES_PER_SAMPLE;
    assert Fits(fs[0]) && Fits(fs[1]) && Fits(fs[2]) && Fits(fs[3]);
    assert Fits(fs[4]) && Fits(fs[5]) && Fits(fs[6]) && Fits(fs[7]);
    EncodeEight(fs);
  }

  lemma DataWrites(dataSize: nat)
    requires dataSize < U32_LIMIT
    ensures AllFit(DataFields(dataSize)) && EncodeAll(DataFields(dataSize)) == DataChunkHead(dataSize)
  {
    var fs := DataFields(dataSize);
    assert Fits(fs[0]) && Fits(fs[1]);
    EncodeTwo(fs);
  }

  lemma EncodeOne(f: Field)
    requires Fits(f)
    ensures AllFit([f]) && EncodeAll([f]) == Encode(f)
  {
    assert [f][1..] == [];
  }

  /** Appending one more write appends its bytes. */
  lemma EncodeSnoc(fs: seq<Field>, f: Field)
    requires AllFit(fs) && Fits(f)
    ensures AllFit(fs + [f]) && EncodeAll(fs + [f]) == EncodeAll(fs) + Encode(f)
  {
    EncodeOne(f);
    EncodeAllAppend(fs, [f]);
  }

  lemma EncodeThree(fs: seq<Field>)
    requires |fs| == 3 && AllFit(fs)
    ensures EncodeAll(fs) == Encode(fs[0]) + Encode(fs[1]) + Encode(fs[2])
  {
    assert fs == [fs[0]] + [fs[1]] + [fs[2]];
    EncodeOne(fs[0]);
    EncodeSnoc([fs[0]], fs[1]);
    EncodeSnoc([fs[0]] + [fs[1]], fs[2]);
  }

  lemma EncodeTwo(fs: seq<Field>)
    requires |fs| == 2 && AllFit(fs)
    ensures EncodeAll(fs) == Encode(fs[0]) + Encode(fs[1])
  {
    assert fs == [fs[0]] + [fs[1]];
    EncodeOne(fs[0]);
    EncodeSnoc([fs[0]], fs[1]);
  }

  lemma EncodeEight(fs: seq<Field>)
    requires |fs| == 8 && AllFit(fs)
    ensures EncodeAll(fs) == Encode(fs[0]) + Encode(fs[1]) + Encode(fs[2]) + Encode(fs[3])
      + Encode(fs[4]) + Encode(fs[5]) + Encode(fs[6]) + Encode(fs[7])
  {
    var p1 := [fs[0]];
    var p2 := p1 + [fs[1]];
    var p3 := p2 + [fs[2]];
    var p4 := p3 + [fs[3]];
    var p5 := p4 + [fs[4]];
    var p6 := p5 + [fs[5]];
    var p7 := p6 + [fs[6]];
    assert fs == p7 + [fs[7]];
    EncodeOne(fs[0]);
    EncodeSnoc(p1, fs[1]);
    EncodeSnoc(p2, fs[2]);
    EncodeSnoc(p3, fs[3]);
    EncodeSnoc(p4, fs[4]);
    EncodeSnoc(p5, fs[5]);
    EncodeSnoc(p6, fs[6]);
    EncodeSnoc(p7, fs[7]);
  }

  /** Where each header field sits in the first 44 bytes. */
  lemma HeaderOffsets(channels: nat, sampleRate: int, dataSize: nat)
    requires HeaderFits(channels, sampleRate, dataSize)
    ensures var h := HeaderBytes(channels, sampleRate, dataSize);
      && h[0..4] == RIFF && h[4..8] == LE32(36 + dataSize) && h[8..12] == WAVE
      && h[12..16] == FMT && h[16..20] == LE32(FMT_CHUNK_SIZE)
      && h[20..22] == LE16(FORMAT_IEEE_FLOAT) && h[22..24] == LE16(channels)
      && h[24..28] == LE32(sampleRate)
      && h[28..32] == LE32(sampleRate * channels * BYTES_PER_SAMPLE)
      && h[32..34] == LE16(channels * BYTES_PER_SAMPLE)
      && h[34..36] == LE16(BITS_PER_SAMPLE)
      && h[36..40] == DATA && h[40..44] == LE32(dataSize)
  {
    var h := HeaderBytes(channels, sampleRate, dataSize);
    var r := RiffDescriptor(dataSize);
    var f := FmtChunk(channels, sampleRate);
    var d := DataChunkHead(dataSize);
    assert h[0..12] == r && h[12..36] == f && h[36..44] == d;
    assert r[0..4] == RIFF && r[4..8] == LE32(36 + dataSize) && r[8..12] == WAVE;
    assert h[0..4] == r[0..4] && h[4..8] == r[4..8] && h[8..12] == r[8..12];
    assert d[0..4] == DATA && d[4..8] == LE32(dataSize);
    assert h[36..40] == d[0..4] && h[40..44] == d[4..8];
    FmtOffsets(channels, sampleRate);
    assert forall a, b | 0 <= a <= b <= 24 :: h[12 + a..12 + b] == f[a..b];
  }

  lemma FmtOffsets(channels: nat, sampleRate: int)
    requires channels * BYTES_PER_SAMPLE < U16_LIMIT
    requires 0 <= sampleRate < U32_LIMIT && sampleRate * channels * BYTES_PER_SAMPLE < U32_LIMIT
    ensures var f := FmtChunk(channels, sampleRate);
      && |f| == 24
      && f[0..4] == FMT && f[4..8] == LE32(FMT_CHUNK_SIZE)
      && f[8..10] == LE16(FORMAT_IEEE_FLOAT) && f[10..12] == LE16(channels)
      && f[12..16] == LE32(sampleRate)
      && f[16..20] == LE32(sampleRate * channels * BYTES_PER_SAMPLE)
      && f[20..22] == LE16(channels * BYTES_PER_SAMPLE)
      && f[22..24] == LE16(BITS_PER_SAMPLE)
  {
  }

  // ---------------------------------------------------------------------------
  // The data chunk: samples interleaved frame by frame
  // ---------------------------------------------------------------------------

  /** Every channel holds at least n samples. */
  predicate Covers(channels: seq<seq<real>>, n: nat) {
    forall c | 0 <= c < |channels| :: n <= |channels[c]|
  }

  /** The position of sample i of channel c among all interleaved samples. */
  function Slot(numChannels: nat, i: nat, c: nat): nat {
    i * numChannels + c
  }

  /** A slot of a frame that exists lies inside the data chunk. */
  lemma SlotInRange(numChannels: nat, n: nat, i: nat, c: nat)
    requires i < n && c < numChannels
    ensures 4 * Slot(numChannels, i, c) + 4 <= DataSize(numChannels, n)
  {
    assert i * numChannels + numChannels <= n * numChannels by {
      assert (i + 1) * numChannels <= n * numChannels;
    }
  }

  /** The bytes of frame i for channels 0..ch-1. */
  function FramePrefix(pack: Packer, channels: seq<seq<real>>, i: nat, ch: nat): (b: seq<byte>)
    requires ch <= |channels|
    requires forall c | 0 <= c < ch :: i < |channels[c]|
    ensures |b| == 4 * ch
  {
    if ch == 0 then [] else FramePrefix(pack, channels, i, ch - 1) + pack(channels[ch - 1][i])
  }

  /** The bytes of frames 0..n-1, each frame holding one sample of every channel. */
  function Frames(pack: Packer, channels: seq<seq<real>>, n: nat): (b: seq<byte>)
    requires Covers(channels, n)
    ensures |b| == DataSize(|channels|, n)
  {
    if n == 0 then []
    else
      var prev := Frames(pack, channels, n - 1);
      assert (n - 1) * (|channels| * 4) + 4 * |channels| == n * (|channels| * 4);
      prev + FramePrefix(pack, channels, n - 1, |channels|)
  }

  lemma {:induction false} FramePrefixAt(pack: Packer, channels: seq<seq<real>>, i: nat, ch: nat, c: nat)
    requires ch <= |channels|
    requires forall c' | 0 <= c' < ch :: i < |channels[c']|
    requires c < ch
    ensures FramePrefix(pack, channels, i, ch)[4 * c .. 4 * c + 4] == pack(channels[c][i])
  {
    var p := FramePrefix(pack, channels, i, ch - 1);
    if c < ch - 1 {
      FramePrefixAt(pack, channels, i, ch - 1, c);
      assert FramePrefix(pack, channels, i, ch)[4 * c .. 4 * c + 4] == p[4 * c .. 4 * c + 4];
    }
  }

  /** The slots of the last of n frames start right after the first n - 1 frames. */
  lemma LastFrameSlot(numChannels: nat, n: nat, c: nat)
    requires n > 0
    ensures 4 * Slot(numChannels, n - 1, c) == DataSize(numChannels, n - 1) + 4 * c
  {
  }

  /** Sample i of channel c is the 4-byte word at slot i * numChannels + c. */
  lemma {:induction false} FramesAt(pack: Packer, channels: seq<seq<real>>, n: nat, i: nat, c: nat)
    requires Covers(channels, n) && i < n && c < |channels|
    ensures 4 * Slot(|channels|, i, c) + 4 <= |Frames(pack, channels, n)|
    ensures Frames(pack, channels, n)[4 * Slot(|channels|, i, c) .. 4 * Slot(|channels|, i, c) + 4]
      == pack(channels[c][i])
  {
    var numChannels := |channels|;
    SlotInRange(numChannels, n, i, c);
    var prev := Frames(pack, channels, n - 1);
    var last := FramePrefix(pack, channels, n - 1, numChannels);
    var whole := Frames(pack, channels, n);
    var at := 4 * Slot(numChannels, i, c);
    assert whole == prev + last;
    if i < n - 1 {
      FramesAt(pack, channels, n - 1, i, c);
      assert whole[at .. at + 4] == prev[at .. at + 4];
    } else {
      FramePrefixAt(pack, channels, n - 1, numChannels, c);
      LastFrameSlot(numChannels, n, c);
      assert whole[at .. at + 4] == last[4 * c .. 4 * c + 4];
    }
  }

  /** The words each channel's samples are packed into, over the first n samples. */
  function Encoded(pack: Packer, channels: seq<seq<real>>, n: nat): (words: seq<seq<Word>>)
    requires Covers(channels, n)
    ensures |words| == |channels| && forall c | 0 <= c < |words| :: |words[c]| == n
  {
    seq(|channels|, c requires 0 <= c < |channels| =>
      seq(n, i requires 0 <= i < n => pack(channels[c][i])))
  }

  function SampleAt(data: seq<byte>, numChannels: nat, n: nat, i: nat, c: nat): Word
    requires |data| == DataSize(numChannels, n) && i < n && c < numChannels
  {
    SlotInRange(numChannels, n, i, c);
    data[4 * Slot(numChannels, i, c) .. 4 * Slot(numChannels, i, c) + 4]
  }

  /** Splits an interleaved data chunk back into per-channel sequences of words. */
  function Deinterleave(data: seq<byte>, numChannels: nat, n: nat): (words: seq<seq<Word>>)
    requires |data| == DataSize(numChannels, n)
    ensures |words| == numChannels && forall c | 0 <= c < numChannels :: |words[c]| == n
  {
    seq(numChannels, c requires 0 <= c < numChannels =>
      seq(n, i requires 0 <= i < n => SampleAt(data, numChannels, n, i, c)))
  }

  /** De-interleaving the frames gives back each channel's packed samples. */
  lemma DeinterleaveFrames(pack: Packer, channels: seq<seq<real>>, n: nat)
    requires Covers(channels, n)
    ensures Deinterleave(Frames(pack, channels, n), |channels|, n) == Encoded(pack, channels, n)
  {
    var data := Frames(pack, channels, n);
    var got := Deinterleave(data, |channels|, n);
    var want := Encoded(pack, channels, n);
    forall c | 0 <= c < |channels| ensures got[c] == want[c] {
      forall i | 0 <= i < n ensures got[c][i] == want[c][i] {
        FramesAt(pack, channels, n, i, c);
      }
    }
  }

  // ---------------------------------------------------------------------------
  // The whole file, and a decoder for it
  // ---------------------------------------------------------------------------

  /** What the writer needs: at least one channel, no channel shorter than the
      first, and a header whose fields fit their widths. */
  predicate Writable(channels: seq<seq<real>>, sampleRate: int) {
    && |channels| > 0
    && Covers(channels, |channels[0]|)
    && HeaderFits(|channels|, sampleRate, DataSize(|channels|, |channels[0]|))
  }

  /** The file: the header, then the first |channels[0]| frames. */
  function WavBytes(pack: Packer, channels: seq<seq<real>>, sampleRate: int): seq<byte>
    requires Writable(channels, sampleRate)
  {
    HeaderBytes(|channels|, sampleRate, DataSize(|channels|, |channels[0]|))
      + Frames(pack, channels, |channels[0]|)
  }

  datatype HeaderInfo = HeaderInfo(
    riffSize: int, channels: int, sampleRate: int, byteRate: int, blockAlign: int, dataSize: int)

  /** Reads the 44-byte header; rejects wrong tags and a format other than
      16-byte-fmt, IEEE float, 32 bits per sample. */
  function ParseHeader(h: seq<byte>): Option<HeaderInfo>
    requires |h| == HEADER_SIZE
  {
    if h[0..4] != RIFF || h[8..12] != WAVE || h[12..16] != FMT || h[36..40] != DATA
      || ReadLE32(h[16..20]) != FMT_CHUNK_SIZE || ReadLE16(h[20..22]) != FORMAT_IEEE_FLOAT
      || ReadLE16(h[34..36]) != BITS_PER_SAMPLE
    then None
    else Some(HeaderInfo(
      riffSize := ReadLE32(h[4..8]), channels := ReadLE16(h[22..24]),
      sampleRate := ReadLE32(h[24..28]), byteRate := ReadLE32(h[28..32]),
      blockAlign := ReadLE16(h[32..34]), dataSize := ReadLE32(h[40..44])))
  }

  datatype Decoded = Decoded(header: HeaderInfo, samples: seq<seq<Word>>)

  /** Decodes a whole file, accepting only a header whose sizes agree with each
      other and with the length of the file. */
  function DecodeWav(file: seq<byte>): Option<Decoded> {
    if |file| < HEADER_SIZE then None
    else match ParseHeader(file[..HEADER_SIZE])
      case None => None
      case Some(h) =>
        if || h.channels <= 0
           || h.blockAlign != h.channels * BYTES_PER_SAMPLE
           || h.byteRate != h.sampleRate * h.blockAlign
           || h.riffSize != |file| - 8
           || h.dataSize != |file| - HEADER_SIZE
           || h.dataSize % h.blockAlign != 0
        then None
        else
          var n := h.dataSize / h.blockAlign;
          DivMulCancel(h.dataSize, h.blockAlign);
          assert |file[HEADER_SIZE..]| == DataSize(h.channels, n);
          Some(Decoded(h, Deinterleave(file[HEADER_SIZE..], h.channels, n)))
  }

  lemma ByteRateProduct(sampleRate: int, numChannels: nat)
    ensures sampleRate * numChannels * 4 == sampleRate * (numChannels * 4)
  {
  }

  lemma DataSizeProduct(numChannels: nat, n: nat)
    ensures DataSize(numChannels, n) == n * numChannels * 4
  {
  }

  /** The file splits into the header and the data chunk. */
  lemma WavSplit(pack: Packer, channels: seq<seq<real>>, sampleRate: int)
    requires Writable(channels, sampleRate)
    ensures var file := WavBytes(pack, channels, sampleRate);
      var dataSize := DataSize(|channels|, |channels[0]|);
      && |file| == HEADER_SIZE + dataSize
      && file[..HEADER_SIZE] == HeaderBytes(|channels|, sampleRate, dataSize)
      && file[HEADER_SIZE..] == Frames(pack, channels, |channels[0]|)
  {
  }

  /** The size fields agree with the file: 44 + data_size bytes in all, the
      RIFF size is the length less 8, and data_size is samples x channels x 4. */
  lemma WavSizes(pack: Packer, channels: seq<seq<real>>, sampleRate: int)
    requires Writable(channels, sampleRate)
    ensures var file := WavBytes(pack, channels, sampleRate);
      var dataSize := |channels[0]| * |channels| * 4;
      && |file| == HEADER_SIZE + dataSize
      && ReadLE32(file[4..8]) == 36 + dataSize == |file| - 8
      && ReadLE32(file[40..44]) == dataSize
  {
    var numChannels, n := |channels|, |channels[0]|;
    var dataSize := DataSize(numChannels, n);
    DataSizeProduct(numChannels, n);
    var h := HeaderBytes(numChannels, sampleRate, dataSize);
    var file := WavBytes(pack, channels, sampleRate);
    WavSplit(pack, channels, sampleRate);
    HeaderOffsets(numChannels, sampleRate, dataSize);
    assert file[4..8] == h[4..8] && file[40..44] == h[40..44];
  }

  /** Sample i of channel ch sits at byte 44 + 4 * (i * numChannels + ch). */
  lemma WavSampleOffset(pack: Packer, channels: seq<seq<real>>, sampleRate: int, i: nat, ch: nat)
    requires Writable(channels, sampleRate)
    requires i < |channels[0]| && ch < |channels|
    ensures var file := WavBytes(pack, channels, sampleRate);
      var at := HEADER_SIZE + 4 * (i * |channels| + ch);
      at + 4 <= |file| && file[at .. at + 4] == pack(channels[ch][i])
  {
    var numChannels, n := |channels|, |channels[0]|;
    var h := HeaderBytes(numChannels, sampleRate, DataSize(numChannels, n));
    var data := Frames(pack, channels, n);
    FramesAt(pack, channels, n, i, ch);
    var at := 4 * Slot(numChannels, i, ch);
    assert (h + data)[HEADER_SIZE + at .. HEADER_SIZE + at + 4] == data[at .. at + 4];
  }

  /** Reading the header back recovers every field that was written. */
  lemma ParseHeaderBytes(numChannels: nat, sampleRate: int, dataSize: nat)
    requires HeaderFits(numChannels, sampleRate, dataSize)
    ensures ParseHeader(HeaderBytes(numChannels, sampleRate, dataSize)) == Some(HeaderInfo(
      riffSize := 36 + dataSize, channels := numChannels,
      sampleRate := sampleRate, byteRate := sampleRate * numChannels * 4,
      blockAlign := numChannels * 4, dataSize := dataSize))
  {
    HeaderOffsets(numChannels, sampleRate, dataSize);
  }

  /** Decoding the written file recovers the channel count, the rate, the
      derived sizes and every channel's packed samples. */
  lemma WavRoundTrip(pack: Packer, channels: seq<seq<real>>, sampleRate: int)
    requires Writable(channels, sampleRate)
    ensures var numChannels, n := |channels|, |channels[0]|;
      DecodeWav(WavBytes(pack, channels, sampleRate)) == Some(Decoded(
        HeaderInfo(
          riffSize := 36 + n * numChannels * 4, channels := numChannels,
          sampleRate := sampleRate, byteRate := sampleRate * numChannels * 4,
          blockAlign := numChannels * 4, dataSize := n * numChannels * 4),
        Encoded(pack, channels, n)))
  {
    var numChannels, n := |channels|, |channels[0]|;
    var dataSize := DataSize(numChannels, n);
    var file := WavBytes(pack, channels, sampleRate);
    WavSplit(pack, channels, sampleRate);
    DataSizeProduct(numChannels, n);
    ParseHeaderBytes(numChannels, sampleRate, dataSize);
    var blockAlign := numChannels * 4;
    assert dataSize / blockAlign == n && dataSize % blockAlign == 0 by {
      DivExact(n, blockAlign);
    }
    var h := ParseHeader(file[..HEADER_SIZE]).value;
    assert h.channels == numChannels && h.blockAlign == blockAlign && h.dataSize == dataSize;
    ByteRateProduct(sampleRate, numChannels);
    DeinterleaveFrames(pack, channels, n);
    assert file[HEADER_SIZE..] == Frames(pack, channels, n);
    assert |file| >= HEADER_SIZE;
    assert h.riffSize == |file| - 8;
    assert h.dataSize == |file| - HEADER_SIZE;
    assert DecodeWav(file) == Some(Decoded(h, Deinterleave(file[HEADER_SIZE..], numChannels, n)));
  }

  lemma {:induction false} MulAtLeast(d: nat, k: nat)
    requires d >= 1
    ensures d * k >= k
  {
    if d > 1 {
      MulAtLeast(d - 1, k);
      assert d * k == (d - 1) * k + k;
    }
  }

  /** The only multiple of k in [0, k) is 0 * k. */
  lemma SmallMultiple(d: int, k: nat)
    requires k > 0 && 0 <= d * k < k
    ensures d == 0
  {
    if d > 0 {
      MulAtLeast(d, k);
    }
  }

  lemma DivExact(n: nat, k: nat)
    requires k > 0
    ensures (n * k) / k == n && (n * k) % k == 0
  {
    var x := n * k;
    var q, r := x / k, x % k;
    assert (n - q) * k == r by {
      assert x == q * k + r;
      assert n * k - q * k == (n - q) * k;
    }
    SmallMultiple(n - q, k);
  }

  lemma DivMulCancel(x: int, k: int)
    requires k > 0 && x % k == 0
    ensures (x / k) * k == x
  {
  }
}
