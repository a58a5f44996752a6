/**
  Decoding a whole HCA stream: block by block from the file, the encoder delay cut off the
  front however many blocks it spans, as samples or as a WAV file.
 */
module HcaStream {
  import opened Bytes
  import opened Common
  import opened Streams

  const SAMPLES: nat := 1024

  /** A sixteen-bit sample, as an unsigned number. */
  type word = x: int | 0 <= x < 0x1_0000

  datatype Info = Info(headerSize: nat, blockSize: nat, blockCount: nat, channels: nat, delay: nat, samplingRate: nat)
  {
    /** What an accepted header guarantees. */
    predicate Valid()
    {
      8 <= blockSize && 0 < blockCount < WORD32 && 1 <= channels <= 16 && delay < 0x1_0000 && samplingRate < 0x80_0000
    }
  }

  /** The block decoder: its reset, one block, and the interleaved samples of the block just decoded. */
  datatype Codec<!H> = Codec(reset: H -> H, decode: (H, seq<byte>) -> Option<H>, wave: H -> seq<real>)

  ghost predicate IsCodec<H(!new)>(codec: Codec<H>, channels: nat)
  {
    forall h :: |codec.wave(h)| == SAMPLES * channels
  }

  // ---------- blocks of the file ----------

  /** Missing: the file ends at or before the block, which looks like the regular end. */
  datatype Packet = Whole(bytes: seq<byte>) | Missing | Cut

  function PacketAt(info: Info, data: seq<byte>, k: nat): Packet
  {
    var offset := info.headerSize + k * info.blockSize;
    if k >= info.blockCount || offset >= |data| then Missing
    else if offset + info.blockSize <= |data| then Whole(data[offset..offset + info.blockSize])
    else Cut
  }

  /** All samples of the first k blocks, or of those before the end of the file. */
  datatype Played<H> = Playing(h: H, samples: seq<real>) | Ended(samples: seq<real>) | Failed

  function Play<H>(codec: Codec<H>, info: Info, data: seq<byte>, h: H, k: nat): Played<H>
  {
    if k == 0 then Playing(h, []) else
      var before := Play(codec, info, data, h, k - 1);
      if !before.Playing? then before else PlayOne(codec, before.h, before.samples, PacketAt(info, data, k - 1))
  }

  function PlayOne<H>(codec: Codec<H>, h: H, samples: seq<real>, packet: Packet): Played<H>
  {
    match packet
    case Missing => Ended(samples)
    case Cut => Failed
    case Whole(bytes) =>
      match codec.decode(h, bytes)
      case None => Failed
      case Some(h') => Playing(h', samples + codec.wave(h'))
  }

  lemma {:induction false} StaysEnded<H>(codec: Codec<H>, info: Info, data: seq<byte>, h: H, k: nat, n: nat)
    requires k <= n && !Play(codec, info, data, h, k).Playing?
    ensures Play(codec, info, data, h, n) == Play(codec, info, data, h, k)
    decreases n
  {
    if k < n {
      StaysEnded(codec, info, data, h, k, n - 1);
    }
  }

  // ---------- cutting off the delay ----------

  function Drop<T>(s: seq<T>, n: nat): seq<T> { if n <= |s| then s[n..] else [] }

  function Interleaved(frames: nat, channels: nat): nat { frames * channels }

  lemma InterleavedSplit(a: nat, b: nat, channels: nat)
    ensures Interleaved(a + b, channels) == Interleaved(a, channels) + Interleaved(b, channels)
  {
  }

  /** How much of the delay is left after k blocks. */
  function DelayLeft(delay: nat, k: nat): nat
  {
    if k == 0 then delay else
      var before := DelayLeft(delay, k - 1);
      before - Min(before, SAMPLES)
  }

  lemma {:induction false} DelayLeftIs(delay: nat, k: nat)
    ensures DelayLeft(delay, k) == if delay <= SAMPLES * k then 0 else delay - SAMPLES * k
  {
    if k > 0 {
      DelayLeftIs(delay, k - 1);
    }
  }

  /** Dropping from a block what is left of the delay continues dropping the delay from everything. */
  lemma DropContinues<T>(s: seq<T>, w: seq<T>, delay: nat, k: nat, channels: nat)
    requires |s| == Interleaved(SAMPLES * k, channels) && |w| == Interleaved(SAMPLES, channels)
    ensures var cut := Interleaved(Min(DelayLeft(delay, k), SAMPLES), channels);
      cut <= |w| && Drop(s + w, Interleaved(delay, channels)) == Drop(s, Interleaved(delay, channels)) + w[cut..]
    ensures |s + w| == Interleaved(SAMPLES * (k + 1), channels)
  {
    DelayLeftIs(delay, k);
    InterleavedSplit(SAMPLES * k, SAMPLES, channels);
    var left := DelayLeft(delay, k);
    var d := Interleaved(delay, channels);
    if delay <= SAMPLES * k {
      InterleavedSplit(delay, SAMPLES * k - delay, channels);
      InterleavedSplit(0, 0, channels);
    } else {
      InterleavedSplit(SAMPLES * k, left, channels);
      if left <= SAMPLES {
        InterleavedSplit(left, SAMPLES - left, channels);
      } else {
        InterleavedSplit(SAMPLES, left - SAMPLES, channels);
      }
    }
    hide Interleaved, DelayLeft;
  }

  // ---------- the decoder ----------

  datatype Outcome = Frame | End | Error

  class Decoder<H(!new)> {
    const codec: Codec<H>
    const info: Info
    const data: seq<byte>
    var handle: H
    var currentBlock: nat
    var currentDelay: nat

    ghost predicate Valid()
    {
      info.Valid() && IsCodec(codec, info.channels)
    }

    constructor (codec: Codec<H>, info: Info, data: seq<byte>, handle: H)
      requires info.Valid() && IsCodec(codec, info.channels)
      ensures Valid() && this.codec == codec && this.info == info && this.data == data
      ensures this.handle == codec.reset(handle) && currentBlock == 0 && currentDelay == info.delay
    {
      this.codec := codec;
      this.info := info;
      this.data := data;
      this.handle := codec.reset(handle);
      currentBlock := 0;
      currentDelay := info.delay;
    }

    method Reset()
      modifies this
      ensures handle == codec.reset(old(handle)) && currentBlock == 0 && currentDelay == info.delay
    {
      handle := codec.reset(handle);
      currentBlock := 0;
      currentDelay := info.delay;
    }

    method ReadPacket() returns (packet: Packet)
      requires Valid()
      modifies this`currentBlock
      ensures packet == PacketAt(info, data, old(currentBlock))
      ensures currentBlock == if packet.Whole? then old(currentBlock) + 1 else old(currentBlock)
    {
      if currentBlock >= info.blockCount {
        return Missing;
      }
      var offset := info.headerSize + currentBlock * info.blockSize;
      if offset >= |data| {
        return Missing;
      }
      if offset + info.blockSize > |data| {
        return Cut;
      }
      packet := Whole(data[offset..offset + info.blockSize]);
      currentBlock := currentBlock + 1;
    }

    /** One block; a delay of a whole block or more swallows it. */
    method DecodeFrame() returns (samples: seq<real>, n: nat, outcome: Outcome)
      requires Valid()
      modifies this
      ensures var played := PlayOne(codec, old(handle), [], PacketAt(info, data, old(currentBlock)));
        var cut := Min(old(currentDelay), SAMPLES);
        outcome == (if played.Playing? then Frame else if played.Ended? then End else Error)
        && (outcome.Frame? ==>
              handle == played.h && currentBlock == old(currentBlock) + 1 && currentDelay == old(currentDelay) - cut
              && n == SAMPLES - cut && |played.samples| == SAMPLES * info.channels
              && Interleaved(cut, info.channels) <= |played.samples|
              && samples == played.samples[Interleaved(cut, info.channels)..])
    {
      var packet := ReadPacket();
      if packet.Missing? {
        return [], 0, End;
      }
      if packet.Cut? {
        return [], 0, Error;
      }
      var decoded := codec.decode(handle, packet.bytes);
      if decoded.None? {
        return [], 0, Error;
      }
      handle := decoded.value;
      var fbuf := codec.wave(handle);
      assert [] + fbuf == fbuf;
      var discard := 0;
      InterleavedSplit(Min(currentDelay, SAMPLES), SAMPLES - Min(currentDelay, SAMPLES), info.channels);
      if currentDelay > 0 {
        if currentDelay >= SAMPLES {
          currentDelay := currentDelay - SAMPLES;
          assert fbuf[|fbuf|..] == [];
          return fbuf[0..0], 0, Frame;
        }
        discard := currentDelay;
        currentDelay := 0;
      }
      var startIdx := Interleaved(discard, info.channels);
      samples, n, outcome := fbuf[startIdx..], SAMPLES - discard, Frame;
    }

    /** Everything after the delay; the file ending between two blocks counts as the end of the stream. */
    method DecodeAll() returns (r: Option<seq<real>>)
      requires Valid()
      modifies this
      ensures var played := Play(codec, info, data, codec.reset(old(handle)), info.blockCount);
        r == if played.Failed? then None else Some(Drop(played.samples, Interleaved(info.delay, info.channels)))
    {
      hide PacketAt, Interleaved, Drop, DelayLeft;
      Reset();
      ghost var h, k, s := handle, 0, [];
      var allSamples: seq<real> := [];
      NothingDropped(s, Interleaved(info.delay, info.channels));
      DelayStarts(info.delay);
      while true
        invariant k == currentBlock <= info.blockCount
        invariant Play(codec, info, data, h, k) == Playing(handle, s) && |s| == Interleaved(SAMPLES * k, info.channels)
        invariant allSamples == Drop(s, Interleaved(info.delay, info.channels))
        invariant currentDelay == DelayLeft(info.delay, k)
        decreases info.blockCount - currentBlock
      {
        ghost var h0, cut := handle, Min(currentDelay, SAMPLES);
        PacketInside(info, data, k);
        var samples, numSamples, outcome := DecodeFrame();
        ghost var packet := PacketAt(info, data, k);
        PlayOneShifts(codec, h0, s, packet);
        if outcome.End? {
          if k < info.blockCount {
            StaysEnded(codec, info, data, h, k + 1, info.blockCount);
          }
          return Some(allSamples);
        }
        if outcome.Error? {
          StaysEnded(codec, info, data, h, k + 1, info.blockCount);
          return None;
        }
        var samplesToAdd := Interleaved(numSamples, info.channels);
        FrameLength(numSamples, cut, info.channels);
        ghost var w := codec.wave(handle);
        DropContinues(s, w, info.delay, k, info.channels);
        DelayContinues(info.delay, k);
        allSamples := allSamples + samples[..samplesToAdd];
        k, s := k + 1, s + w;
      }
    }

    /** The header first, then the sixteen-bit samples of every block after the delay. */
    method DecodeToWav(quantise: real -> word) returns (out: seq<byte>, ok: bool)
      requires Valid()
      modifies this
      ensures var played := Play(codec, info, data, codec.reset(old(handle)), info.blockCount);
        ok == !played.Failed?
        && (ok ==> out == WavHeader(info) + Pcm(quantise, Drop(played.samples, Interleaved(info.delay, info.channels))))
        && (ok ==> SaysWav(out, info) && HoldsSamples(out, quantise, Drop(played.samples, Interleaved(info.delay, info.channels))))
    {
      hide PacketAt, Interleaved, Drop, DelayLeft, Pcm, WavHeader, SaysWav, HoldsSamples;
      Reset();
      ghost var h, k, s := handle, 0, [];
      out := WavHeader(info);
      NothingDropped(s, Interleaved(info.delay, info.channels));
      NoPcm(quantise, out);
      DelayStarts(info.delay);
      while true
        invariant k == currentBlock <= info.blockCount
        invariant Play(codec, info, data, h, k) == Playing(handle, s) && |s| == Interleaved(SAMPLES * k, info.channels)
        invariant out == WavHeader(info) + Pcm(quantise, Drop(s, Interleaved(info.delay, info.channels)))
        invariant currentDelay == DelayLeft(info.delay, k)
        decreases info.blockCount - currentBlock
      {
        ghost var h0, cut := handle, Min(currentDelay, SAMPLES);
        PacketInside(info, data, k);
        var bytes, outcome := PcmFrame(quantise);
        PlayOneShifts(codec, h0, s, PacketAt(info, data, k));
        if outcome.End? {
          if k < info.blockCount {
            StaysEnded(codec, info, data, h, k + 1, info.blockCount);
          }
          WavReads(info, quantise, Drop(s, Interleaved(info.delay, info.channels)));
          return out, true;
        }
        if outcome.Error? {
          StaysEnded(codec, info, data, h, k + 1, info.blockCount);
          return out, false;
        }
        ghost var w := codec.wave(handle);
        FrameLength(SAMPLES, 0, info.channels);
        DropContinues(s, w, info.delay, k, info.channels);
        DelayContinues(info.delay, k);
        PcmAppend(quantise, Drop(s, Interleaved(info.delay, info.channels)), w[Interleaved(cut, info.channels)..]);
        out := out + bytes;
        k, s := k + 1, s + w;
      }
    }

    /** The bytes of one block; the two range errors never occur. */
    method PcmFrame(quantise: real -> word) returns (bytes: seq<byte>, outcome: Outcome)
      requires Valid()
      modifies this
      ensures var played := PlayOne(codec, old(handle), [], PacketAt(info, data, old(currentBlock)));
        var cut := Min(old(currentDelay), SAMPLES);
        outcome == (if played.Playing? then Frame else if played.Ended? then End else Error)
        && (outcome.Frame? ==>
              handle == played.h && currentBlock == old(currentBlock) + 1 && currentDelay == old(currentDelay) - cut
              && played.samples == codec.wave(handle) && Interleaved(cut, info.channels) <= |played.samples|
              && bytes == Pcm(quantise, played.samples[Interleaved(cut, info.channels)..]))
    {
      hide Pcm;
      var packet := ReadPacket();
      if packet.Missing? {
        return [], End;
      }
      if packet.Cut? {
        return [], Error;
      }
      var decoded := codec.decode(handle, packet.bytes);
      if decoded.None? {
        return [], Error;
      }
      handle := decoded.value;
      var pcmBuf := codec.wave(handle);
      assert [] + pcmBuf == pcmBuf;
      FrameLength(SAMPLES - Min(currentDelay, SAMPLES), Min(currentDelay, SAMPLES), info.channels);
      var discard := 0;
      if currentDelay > 0 {
        if currentDelay >= SAMPLES {
          currentDelay := currentDelay - SAMPLES;
          assert pcmBuf[|pcmBuf|..] == [];
          NoPcm(quantise, []);
          return [], Frame;
        }
        discard := currentDelay;
        currentDelay := 0;
      }
      var start, end := Interleaved(discard, info.channels), Interleaved(SAMPLES, info.channels);
      InterleavedGrows(SAMPLES - discard, info.channels);
      if start >= end {
        return [], Error;
      }
      if end > |pcmBuf| {
        return [], Error;
      }
      assert pcmBuf[start..end] == pcmBuf[start..];
      bytes := PcmBytes(quantise, pcmBuf[start..end]);
      outcome := Frame;
    }
  }

  lemma InterleavedGrows(n: nat, channels: nat)
    requires 0 < n && 0 < channels
    ensures 0 < Interleaved(n, channels)
  {
  }

  // ---------- the WAV file ----------

  /** Two bytes a sample, least significant first. */
  function Pcm(quantise: real -> word, samples: seq<real>): (b: seq<byte>)
    ensures |b| == 2 * |samples|
  {
    if samples == [] then [] else
      Pcm(quantise, samples[..|samples| - 1]) + LittleBytes(quantise(samples[|samples| - 1]), 2)
  }

  lemma NoPcm(quantise: real -> word, out: seq<byte>)
    ensures Pcm(quantise, []) == [] && out + Pcm(quantise, []) == out
  {
  }

  lemma {:induction false} PcmAppend(quantise: real -> word, s: seq<real>, t: seq<real>)
    ensures Pcm(quantise, s + t) == Pcm(quantise, s) + Pcm(quantise, t)
  {
    if t == [] {
      assert s + t == s;
    } else {
      var rest := t[..|t| - 1];
      assert (s + t)[..|s + t| - 1] == s + rest;
      PcmAppend(quantise, s, rest);
    }
  }

  method PcmBytes(quantise: real -> word, samples: seq<real>) returns (r: seq<byte>)
    ensures r == Pcm(quantise, samples)
  {
    var bytes := new byte[2 * |samples|];
    for i := 0 to |samples|
      invariant bytes[..2 * i] == Pcm(quantise, samples[..i])
    {
      var v := quantise(samples[i]);
      ghost var before := bytes[..2 * i];
      var high := v / 256;
      assert high < 256;
      bytes[2 * i], bytes[2 * i + 1] := v % 256, high;
      assert samples[..i + 1][..i] == samples[..i];
      assert LittleBytes(v, 2) == [v % 256] + LittleBytes(v / 256, 1) == [v % 256, v / 256];
      assert bytes[..2 * (i + 1)] == before + [v % 256, v / 256];
    }
    assert samples[..|samples|] == samples;
    r := bytes[..];
  }

  /** The number of data bytes the header announces, before it is cut to 32 bits. */
  function Announced(info: Info): int
  {
    (info.blockCount * SAMPLES - info.delay) * (info.channels * 2)
  }

  function WavHeader(info: Info): (h: seq<byte>)
    ensures |h| == 44
  {
    [0x52, 0x49, 0x46, 0x46] + LittleBytes((36 + Announced(info)) % WORD32, 4)
    + [0x57, 0x41, 0x56, 0x45, 0x66, 0x6D, 0x74, 0x20] + LittleBytes(16, 4) + LittleBytes(1, 2)
    + LittleBytes(info.channels % 0x1_0000, 2) + LittleBytes(info.samplingRate % WORD32, 4)
    + LittleBytes(info.samplingRate * info.channels * 2 % WORD32, 4) + LittleBytes(info.channels * 2 % 0x1_0000, 2)
    + LittleBytes(16, 2) + [0x64, 0x61, 0x74, 0x61] + LittleBytes(Announced(info) % WORD32, 4)
  }

  lemma NothingDropped<T>(s: seq<T>, n: nat)
    requires s == []
    ensures Drop(s, n) == [] && |s| == Interleaved(SAMPLES * 0, n)
  {
  }

  lemma DelayStarts(delay: nat)
    ensures DelayLeft(delay, 0) == delay && forall channels :: Interleaved(SAMPLES * 0, channels) == 0
  {
  }

  lemma DelayContinues(delay: nat, k: nat)
    ensures DelayLeft(delay, k + 1) == DelayLeft(delay, k) - Min(DelayLeft(delay, k), SAMPLES)
  {
  }

  lemma PacketInside(info: Info, data: seq<byte>, k: nat)
    ensures k >= info.blockCount ==> PacketAt(info, data, k).Missing?
  {
  }

  lemma FrameLength(n: nat, cut: nat, channels: nat)
    requires n + cut == SAMPLES
    ensures Interleaved(SAMPLES, channels) == SAMPLES * channels == Interleaved(n, channels) + Interleaved(cut, channels)
  {
    InterleavedSplit(n, cut, channels);
  }

  lemma PlayOneShifts<H>(codec: Codec<H>, h: H, s: seq<real>, packet: Packet)
    ensures var one := PlayOne(codec, h, [], packet);
      PlayOne(codec, h, s, packet)
      == match one case Playing(h', w) => Playing(h', s + w) case Ended(_) => Ended(s) case Failed => Failed
  {
    if packet.Whole? {
      var decoded := codec.decode(h, packet.bytes);
      if decoded.Some? {
        assert [] + codec.wave(decoded.value) == codec.wave(decoded.value);
      }
    }
  }

  // ---------- the WAV file as its readers see it ----------

  function TextAt(wav: seq<byte>, at: nat, n: nat): string
    requires at + n <= |wav|
  {
    seq(n, i requires 0 <= i < n => wav[at + i] as char)
  }

  function NumberAt(wav: seq<byte>, at: nat, n: nat): nat
    requires at + n <= |wav|
  {
    LittleValue(wav[at..at + n])
  }

  /** Chunk tags and sizes, and the format chunk: plain samples of sixteen bits, with consistent rates. */
  predicate SaysWav(wav: seq<byte>, info: Info)
  {
    |wav| >= 44
    && TextAt(wav, 0, 4) == "RIFF" && NumberAt(wav, 4, 4) == (36 + Announced(info)) % WORD32
    && TextAt(wav, 8, 4) == "WAVE" && TextAt(wav, 12, 4) == "fmt " && NumberAt(wav, 16, 4) == 16
    && SaysFormat(wav, info)
    && TextAt(wav, 36, 4) == "data" && NumberAt(wav, 40, 4) == Announced(info) % WORD32
  }

  predicate SaysFormat(wav: seq<byte>, info: Info)
    requires |wav| >= 44
  {
    var rate, align, bits := NumberAt(wav, 24, 4), NumberAt(wav, 32, 2), NumberAt(wav, 34, 2);
    NumberAt(wav, 20, 2) == 1 && NumberAt(wav, 22, 2) == info.channels && rate == info.samplingRate && bits == 16
    && 8 * align == info.channels * bits && NumberAt(wav, 28, 4) == rate * align
  }

  lemma NumberHeld(wav: seq<byte>, at: nat, v: nat, k: nat)
    requires v < Scale(k) && Holds(wav, at, LittleBytes(v, k))
    ensures NumberAt(wav, at, k) == v
  {
    LittleRoundTrip(v, k);
    hide LittleBytes, LittleValue, Scale;
  }

  /** Rates of accepted headers need no cut. */
  lemma RatesFit(info: Info)
    requires info.Valid()
    ensures info.channels % 0x1_0000 == info.channels && info.samplingRate % WORD32 == info.samplingRate
    ensures info.channels * 2 % 0x1_0000 == info.channels * 2
    ensures info.samplingRate * info.channels * 2 % WORD32 == info.samplingRate * (info.channels * 2) < WORD32
  {
    var byteRate := info.samplingRate * (info.channels * 2);
    ProductBounds(info.samplingRate, info.channels * 2);
    assert info.samplingRate * info.channels * 2 == byteRate;
    SmallModulo(byteRate);
  }

  lemma SmallModulo(x: nat)
    ensures x < WORD32 ==> x % WORD32 == x
  {
  }

  lemma HeaderSays(info: Info)
    requires info.Valid()
    ensures SaysWav(WavHeader(info), info)
  {
    hide *;
    HeaderTags(info);
    HeaderNumbers(info);
    DataFieldIs(info);
    SaysWavParts(WavHeader(info), info);
  }

  lemma SaysWavParts(wav: seq<byte>, info: Info)
    requires |wav| >= 44 && SaysFormat(wav, info)
    requires TextAt(wav, 0, 4) == "RIFF" && TextAt(wav, 8, 4) == "WAVE" && TextAt(wav, 12, 4) == "fmt "
    requires TextAt(wav, 36, 4) == "data" && NumberAt(wav, 16, 4) == 16
    requires LittleValue(wav[4..8]) == (36 + Announced(info)) % WORD32 && DataField(wav) == Announced(info) % WORD32
    ensures SaysWav(wav, info)
  {
    hide TextAt, LittleValue, Announced, SaysFormat;
  }

  lemma HeaderTags(info: Info)
    ensures var wav := WavHeader(info);
      TextAt(wav, 0, 4) == "RIFF" && TextAt(wav, 8, 4) == "WAVE" && TextAt(wav, 12, 4) == "fmt " && TextAt(wav, 36, 4) == "data"
  {
    hide LittleBytes, Announced;
  }

  lemma HeaderNumbers(info: Info)
    requires info.Valid()
    ensures var wav := WavHeader(info); NumberAt(wav, 16, 4) == 16 && SaysFormat(wav, info)
  {
    hide *;
    var wav, align := WavHeader(info), info.channels * 2;
    ValidParts(info);
    RatesFit(info);
    Scales();
    HeaderHolds(info);
    HeaderHoldsRates(info, info.samplingRate * align, align);
    Words();
    NumberHeld(wav, 16, 16, 4);
    NumberHeld(wav, 20, 1, 2);
    NumberHeld(wav, 22, info.channels, 2);
    NumberHeld(wav, 24, info.samplingRate, 4);
    NumberHeld(wav, 28, info.samplingRate * align, 4);
    NumberHeld(wav, 32, align, 2);
    NumberHeld(wav, 34, 16, 2);
    FormatParts(wav, info);
  }

  lemma Words()
    ensures WORD32 == 0x1_0000_0000
  {
  }

  lemma ValidParts(info: Info)
    requires info.Valid()
    ensures info.channels <= 16 && info.samplingRate < 0x80_0000
  {
  }

  lemma FormatParts(wav: seq<byte>, info: Info)
    requires |wav| >= 44 && NumberAt(wav, 20, 2) == 1 && NumberAt(wav, 22, 2) == info.channels
    requires NumberAt(wav, 24, 4) == info.samplingRate && NumberAt(wav, 34, 2) == 16 && NumberAt(wav, 32, 2) == info.channels * 2
    requires NumberAt(wav, 28, 4) == info.samplingRate * (info.channels * 2)
    ensures SaysFormat(wav, info)
  {
    hide NumberAt;
  }

  lemma HeaderHolds(info: Info)
    requires info.channels % 0x1_0000 == info.channels
    ensures var wav := WavHeader(info);
      Holds(wav, 16, LittleBytes(16, 4)) && Holds(wav, 20, LittleBytes(1, 2)) && Holds(wav, 22, LittleBytes(info.channels, 2))
      && Holds(wav, 34, LittleBytes(16, 2))
  {
    hide LittleBytes, Announced;
  }

  lemma HeaderHoldsRates(info: Info, byteRate: nat, align: nat)
    requires byteRate == info.samplingRate * info.channels * 2 % WORD32 && align == info.channels * 2 % 0x1_0000
    requires info.samplingRate % WORD32 == info.samplingRate
    ensures var wav := WavHeader(info);
      Holds(wav, 24, LittleBytes(info.samplingRate, 4)) && Holds(wav, 32, LittleBytes(align, 2))
      && Holds(wav, 28, LittleBytes(byteRate, 4))
  {
    hide LittleBytes, Announced;
  }

  lemma SaysLocal(wav: seq<byte>, more: seq<byte>, info: Info)
    requires SaysWav(wav, info)
    ensures SaysWav(wav + more, info)
  {
    forall at: nat, n: nat | at + n <= 44
      ensures TextAt(wav + more, at, n) == TextAt(wav, at, n) && NumberAt(wav + more, at, n) == NumberAt(wav, at, n)
    {
      FieldKept(wav, more, at, n);
    }
    hide LittleValue, Announced, TextAt, NumberAt;
  }

  lemma FieldKept(wav: seq<byte>, more: seq<byte>, at: nat, n: nat)
    requires at + n <= |wav|
    ensures TextAt(wav + more, at, n) == TextAt(wav, at, n) && NumberAt(wav + more, at, n) == NumberAt(wav, at, n)
  {
    assert (wav + more)[at..at + n] == wav[at..at + n];
    assert TextAt(wav + more, at, n) == TextAt(wav, at, n);
    hide LittleValue;
  }

  /** Every sample stands at its place, least significant byte first. */
  lemma {:induction false} SampleAt(quantise: real -> word, samples: seq<real>, i: nat)
    requires i < |samples|
    ensures LittleValue(Pcm(quantise, samples)[2 * i..2 * i + 2]) == quantise(samples[i])
    decreases |samples|
  {
    var last := |samples| - 1;
    if i < last {
      SampleAt(quantise, samples[..last], i);
      assert Pcm(quantise, samples)[2 * i..2 * i + 2] == Pcm(quantise, samples[..last])[2 * i..2 * i + 2];
    } else {
      Scales();
      LittleRoundTrip(quantise(samples[i]), 2);
      assert Pcm(quantise, samples)[2 * i..2 * i + 2] == LittleBytes(quantise(samples[i]), 2);
    }
  }

  /** The file holds the samples, one after the other behind its header, and nothing else. */
  ghost predicate HoldsSamples(wav: seq<byte>, quantise: real -> word, samples: seq<real>)
  {
    |wav| == 44 + 2 * |samples|
    && forall i :: 0 <= i < |samples| ==> LittleValue(wav[44 + 2 * i..44 + 2 * i + 2]) == quantise(samples[i])
  }

  /** What readers make of the file. */
  lemma WavReads(info: Info, quantise: real -> word, samples: seq<real>)
    requires info.Valid()
    ensures var wav := WavHeader(info) + Pcm(quantise, samples); SaysWav(wav, info) && HoldsSamples(wav, quantise, samples)
  {
    HeaderSays(info);
    SaysLocal(WavHeader(info), Pcm(quantise, samples), info);
    hide WavHeader, SaysWav, LittleValue, Pcm;
    var wav := WavHeader(info) + Pcm(quantise, samples);
    forall i | 0 <= i < |samples| ensures LittleValue(wav[44 + 2 * i..44 + 2 * i + 2]) == quantise(samples[i]) {
      SampleAt(quantise, samples, i);
      assert wav[44 + 2 * i..44 + 2 * i + 2] == Pcm(quantise, samples)[2 * i..2 * i + 2];
    }
  }

  // ---------- how much is decoded, and what the header says ----------

  /** A stream that decodes to the end without a gap has given every sample of every block. */
  lemma {:induction false} PlayedLength<H(!new)>(codec: Codec<H>, info: Info, data: seq<byte>, h: H, k: nat)
    requires IsCodec(codec, info.channels) && Play(codec, info, data, h, k).Playing?
    ensures |Play(codec, info, data, h, k).samples| == Interleaved(SAMPLES * k, info.channels)
  {
    if k == 0 {
      NothingDropped(Play(codec, info, data, h, k).samples, info.channels);
    } else {
      PlayedLength(codec, info, data, h, k - 1);
      FrameLength(SAMPLES, 0, info.channels);
      InterleavedSplit(SAMPLES * (k - 1), SAMPLES, info.channels);
    }
  }

  /** A stream that ended early ended between two blocks, after some number of whole ones. */
  lemma {:induction false} EndedLength<H(!new)>(codec: Codec<H>, info: Info, data: seq<byte>, h: H, k: nat) returns (a: nat)
    requires IsCodec(codec, info.channels) && Play(codec, info, data, h, k).Ended? && k <= info.blockCount
    ensures a < k && info.headerSize + a * info.blockSize >= |data|
    ensures |Play(codec, info, data, h, k).samples| == Interleaved(SAMPLES * a, info.channels)
  {
    if Play(codec, info, data, h, k - 1).Playing? {
      PlayedLength(codec, info, data, h, k - 1);
      a := k - 1;
    } else {
      a := EndedLength(codec, info, data, h, k - 1);
    }
  }

  /** The samples left of a blocks. */
  function Left(info: Info, a: nat): nat
  {
    if info.delay <= SAMPLES * a then SAMPLES * a - info.delay else 0
  }

  lemma DroppedLength<T>(info: Info, s: seq<T>, a: nat)
    requires |s| == Interleaved(SAMPLES * a, info.channels)
    ensures |Drop(s, Interleaved(info.delay, info.channels))| == Interleaved(Left(info, a), info.channels)
  {
    if info.delay <= SAMPLES * a {
      InterleavedSplit(info.delay, SAMPLES * a - info.delay, info.channels);
    } else {
      InterleavedSplit(SAMPLES * a, info.delay - SAMPLES * a, info.channels);
      InterleavedSplit(0, 0, info.channels);
    }
  }

  /** The size field of the data chunk. */
  function DataField(header: seq<byte>): nat
    requires |header| >= 44
  {
    LittleValue(header[40..44])
  }

  lemma DataFieldIs(info: Info)
    ensures DataField(WavHeader(info)) == Announced(info) % WORD32
    ensures LittleValue(WavHeader(info)[4..8]) == (36 + Announced(info)) % WORD32
  {
    Scales();
    LittleRoundTrip(Announced(info) % WORD32, 4);
    LittleRoundTrip((36 + Announced(info)) % WORD32, 4);
    hide LittleBytes, LittleValue, Scale, Announced;
    assert WavHeader(info)[40..44] == LittleBytes(Announced(info) % WORD32, 4);
    assert WavHeader(info)[4..8] == LittleBytes((36 + Announced(info)) % WORD32, 4);
  }

  lemma AnnouncedSplit(info: Info, all: nat)
    requires all == info.blockCount * SAMPLES - info.delay
    ensures Announced(info) == 2 * Interleaved(all, info.channels)
  {
  }

  /** With every block decoded the size field is right exactly when the size is not negative and fits. */
  lemma HeaderRight(info: Info)
    requires info.Valid()
    ensures 2 * Interleaved(Left(info, info.blockCount), info.channels) == DataField(WavHeader(info))
      <==> info.delay <= SAMPLES * info.blockCount && Announced(info) < WORD32
  {
    hide Interleaved, WavHeader, DataField, Announced;
    DataFieldIs(info);
    var b := info.blockCount;
    if info.delay <= SAMPLES * b {
      AnnouncedSplit(info, SAMPLES * b - info.delay);
    } else {
      var missing: nat := info.delay - SAMPLES * b;
      MissingBytes(info, missing);
      InterleavedSplit(0, 0, info.channels);
      assert Announced(info) % WORD32 == Announced(info) + WORD32 > 0;
    }
  }

  lemma MissingBytes(info: Info, missing: nat)
    requires info.Valid() && missing == info.delay - SAMPLES * info.blockCount && missing > 0
    ensures -(WORD32 as int) < Announced(info) < 0
  {
    var c := info.channels * 2;
    assert (info.blockCount * SAMPLES - info.delay) * c == -(missing * c);
    ProductBounds(missing, c);
  }

  lemma ProductBounds(m: nat, c: nat)
    requires 0 < c <= 32
    ensures m <= m * c <= m * 32
  {
    assert m * c == m + m * (c - 1);
    assert m * 32 == m * c + m * (32 - c);
  }

  /** The whole of DecodeToWav: header and data agree for every stream that decodes to the end. */
  lemma WavConsistent<H(!new)>(codec: Codec<H>, info: Info, data: seq<byte>, h: H, quantise: real -> word)
    requires info.Valid() && IsCodec(codec, info.channels)
    requires Play(codec, info, data, h, info.blockCount).Playing?
    ensures var samples := Drop(Play(codec, info, data, h, info.blockCount).samples, Interleaved(info.delay, info.channels));
      |Pcm(quantise, samples)| == DataField(WavHeader(info))
      <==> info.delay <= SAMPLES * info.blockCount && Announced(info) < WORD32
  {
    var s := Play(codec, info, data, h, info.blockCount).samples;
    PlayedLength(codec, info, data, h, info.blockCount);
    DroppedLength(info, s, info.blockCount);
    HeaderRight(info);
  }

  /** The length of a file that holds its first k blocks. */
  function LengthFor(info: Info, k: nat): nat { info.headerSize + k * info.blockSize }

  lemma LengthForNext(info: Info, k: nat)
    ensures LengthFor(info, k + 1) == LengthFor(info, k) + info.blockSize
  {
  }

  lemma {:induction false} LengthForGrows(info: Info, j: nat, k: nat)
    requires info.Valid() && j < k
    ensures LengthFor(info, j) < LengthFor(info, k)
    decreases k
  {
    LengthForNext(info, k - 1);
    if j < k - 1 {
      LengthForGrows(info, j, k - 1);
    }
  }

  /** What decodes without an error decodes to the end exactly when the file holds all blocks. */
  lemma PlaysToTheEnd<H(!new)>(codec: Codec<H>, info: Info, data: seq<byte>, h: H)
    requires info.Valid() && IsCodec(codec, info.channels)
    requires !Play(codec, info, data, h, info.blockCount).Failed?
    ensures Play(codec, info, data, h, info.blockCount).Playing? <==> LengthFor(info, info.blockCount) <= |data|
  {
    var last := info.blockCount - 1;
    LengthForNext(info, last);
    if Play(codec, info, data, h, info.blockCount).Ended? {
      var a := EndedLength(codec, info, data, h, info.blockCount);
      LengthForGrows(info, a, info.blockCount);
    }
  }

  /** No block among the first k that the file holds is refused. */
  ghost predicate Takes<H(!new)>(codec: Codec<H>, info: Info, data: seq<byte>, h: H, k: nat)
  {
    forall j :: 0 <= j < k && Play(codec, info, data, h, j).Playing? && PacketAt(info, data, j).Whole? ==>
      codec.decode(Play(codec, info, data, h, j).h, PacketAt(info, data, j).bytes).Some?
  }

  /** Some block among the first k lies across the end of the file. */
  predicate CutInside(info: Info, length: nat, k: nat)
    requires info.Valid()
  {
    info.headerSize < length < LengthFor(info, k) && (length - info.headerSize) % info.blockSize != 0
  }

  lemma CutNext(info: Info, length: nat, k: nat)
    requires info.Valid()
    ensures CutInside(info, length, k + 1) <==>
      CutInside(info, length, k) || LengthFor(info, k) < length < LengthFor(info, k + 1)
    ensures !CutInside(info, length, 0)
  {
    LengthForNext(info, k);
    if LengthFor(info, k) <= length < LengthFor(info, k + 1) {
      Remainder(length - info.headerSize, info.blockSize, k, k * info.blockSize);
    }
  }

  lemma Remainder(x: nat, b: nat, k: nat, kb: nat)
    requires b > 0 && kb == k * b && kb <= x < kb + b
    ensures x % b == x - kb
  {
    var r, d := x % b, x / b - k;
    assert d * b == x - kb - r by {
      assert (x / b - k) * b == x / b * b - kb;
    }
    AtMostOnce(d, b);
  }

  lemma {:induction false} AtMostOnce(d: int, b: int)
    requires b > 0
    ensures d > 0 ==> d * b >= b
    ensures d < 0 ==> d * b <= -b
    decreases if d < 0 then -d else d
  {
    if d > 1 {
      AtMostOnce(d - 1, b);
    } else if d < -1 {
      AtMostOnce(d + 1, b);
    }
  }

  /** When no block is refused, the length of the file alone decides between end, gap and error. */
  lemma {:induction false} LengthDecides<H(!new)>(codec: Codec<H>, info: Info, data: seq<byte>, h: H, k: nat)
    requires info.Valid() && 0 < k <= info.blockCount && Takes(codec, info, data, h, k)
    ensures Play(codec, info, data, h, k).Playing? <==> LengthFor(info, k) <= |data|
    ensures Play(codec, info, data, h, k).Failed? <==> CutInside(info, |data|, k)
  {
    hide CutInside;
    CutNext(info, |data|, k - 1);
    LengthForNext(info, k - 1);
    if k > 1 {
      LengthDecides(codec, info, data, h, k - 1);
    } else {
      assert Play(codec, info, data, h, 0).Playing?;
    }
  }

  /** A file that decodes without error holds what its WAV header says exactly when no block is missing, and less otherwise. */
  lemma CutWavIsShort<H(!new)>(codec: Codec<H>, info: Info, data: seq<byte>, h: H, quantise: real -> word)
    requires info.Valid() && IsCodec(codec, info.channels)
    requires !Play(codec, info, data, h, info.blockCount).Failed?
    requires info.delay < SAMPLES * info.blockCount && Announced(info) < WORD32
    ensures var samples := Drop(Play(codec, info, data, h, info.blockCount).samples, Interleaved(info.delay, info.channels));
      |Pcm(quantise, samples)| <= DataField(WavHeader(info))
      && (|Pcm(quantise, samples)| == DataField(WavHeader(info)) <==> LengthFor(info, info.blockCount) <= |data|)
  {
    PlaysToTheEnd(codec, info, data, h);
    if Play(codec, info, data, h, info.blockCount).Playing? {
      WavConsistent(codec, info, data, h, quantise);
    } else {
      var s := Play(codec, info, data, h, info.blockCount).samples;
      var a := EndedLength(codec, info, data, h, info.blockCount);
      DroppedLength(info, s, a);
      DataFieldIs(info);
      FewerBlocks(info, a);
    }
  }

  lemma EndsAfter<H>(codec: Codec<H>, info: Info, data: seq<byte>, h: H, k: nat)
    requires Play(codec, info, data, h, k).Playing? && LengthFor(info, k) >= |data|
    ensures Play(codec, info, data, h, k + 1) == Ended(Play(codec, info, data, h, k).samples)
  {
  }

  /** The first blocks are those of every file that starts with them. */
  lemma {:induction false} PlaysPrefix<H>(codec: Codec<H>, info: Info, data: seq<byte>, h: H, m: nat, k: nat)
    requires info.Valid() && k <= m <= info.blockCount && LengthFor(info, m) <= |data|
    ensures Play(codec, info, data[..LengthFor(info, m)], h, k) == Play(codec, info, data, h, k)
  {
    if k > 0 {
      PlaysPrefix(codec, info, data, h, m, k - 1);
      SamePacket(info, data, m, k - 1);
      hide PacketAt, PlayOne;
    }
  }

  lemma SamePacket(info: Info, data: seq<byte>, m: nat, k: nat)
    requires info.Valid() && k < m <= info.blockCount && LengthFor(info, m) <= |data|
    ensures PacketAt(info, data[..LengthFor(info, m)], k) == PacketAt(info, data, k)
  {
    LengthForNext(info, k);
    if k + 1 < m {
      LengthForGrows(info, k + 1, m);
    }
    var cut, offset := data[..LengthFor(info, m)], LengthFor(info, k);
    assert cut[offset..offset + info.blockSize] == data[offset..offset + info.blockSize];
    hide LengthFor;
  }

  /** Every file that plays m blocks, cut behind them, ends there without an error. */
  lemma CutBetweenBlocks<H(!new)>(codec: Codec<H>, info: Info, data: seq<byte>, h: H, m: nat)
    requires info.Valid() && m < info.blockCount && LengthFor(info, m) <= |data|
    requires Play(codec, info, data, h, m).Playing?
    ensures Play(codec, info, data[..LengthFor(info, m)], h, info.blockCount) == Ended(Play(codec, info, data, h, m).samples)
  {
    var cut := data[..LengthFor(info, m)];
    PlaysPrefix(codec, info, data, h, m, m);
    EndsAfter(codec, info, cut, h, m);
    StaysEnded(codec, info, cut, h, m + 1, info.blockCount);
  }

  /** ... and its WAV file holds less than the header says. */
  lemma CutWav<H(!new)>(codec: Codec<H>, info: Info, data: seq<byte>, h: H, m: nat, quantise: real -> word)
    requires info.Valid() && m < info.blockCount && LengthFor(info, m) <= |data| && IsCodec(codec, info.channels)
    requires Play(codec, info, data, h, m).Playing?
    requires info.delay < SAMPLES * info.blockCount && Announced(info) < WORD32
    ensures var played := Play(codec, info, data[..LengthFor(info, m)], h, info.blockCount);
      played.Ended?
      && |Pcm(quantise, Drop(played.samples, Interleaved(info.delay, info.channels)))| < DataField(WavHeader(info))
  {
    CutBetweenBlocks(codec, info, data, h, m);
    CutWavIsShort(codec, info, data[..LengthFor(info, m)], h, quantise);
    LengthForGrows(info, m, info.blockCount);
    hide Play, Pcm, WavHeader, DataField, Interleaved, Drop, LengthFor;
  }

  lemma FewerBlocks(info: Info, a: nat)
    requires info.Valid() && a < info.blockCount
    requires info.delay < SAMPLES * info.blockCount && Announced(info) < WORD32
    ensures 2 * Interleaved(Left(info, a), info.channels) < Announced(info) % WORD32
  {
    var all: nat := SAMPLES * info.blockCount - info.delay;
    AnnouncedSplit(info, all);
    InterleavedSplit(Left(info, a), all - Left(info, a), info.channels);
    InterleavedGrows(all - Left(info, a), info.channels);
  }
}
