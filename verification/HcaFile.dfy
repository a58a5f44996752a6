/**
  The decoder of whole files with its real block decoder: what the bytes of a file sound like.
 */
module HcaFile {
  import opened Bytes
  import opened Common
  import opened Frame
  import opened HcaStream
  import opened SilentFrame
  import opened Streams
  import opened Synthesis
  import Cipher
  import FrameDecoder
  import Header
  import Transform

  /** What the block decoder keeps from one block to the next, and the waves of the last one. */
  datatype Handle = Handle(st: State, carries: seq<Transform.Block>, waves: seq<seq<Transform.Block>>)

  predicate Sane(u: Setup, t: Transform.Tables, x: Handle)
  {
    u.Valid() && t.WellFormed() && SidesShape(u.h, x.st.sides) && |x.carries| == |x.waves| == u.h.channels
  }

  /** A new file starts with silence behind every channel; the side information of the last one stays. */
  function Restarted(u: Setup, x: Handle): Handle
  {
    Handle(State(x.st.sides, DEFAULT_RANDOM), SilentCarries(u.h), x.waves)
  }

  /** One block; no handle when the frame is rejected or the decoder breaks off. */
  function DecodeBlock(u: Setup, t: Transform.Tables, x: Handle, block: seq<byte>): Option<Handle>
  {
    if !Sane(u, t, x) || !OutcomeIn(u, block, x.st).Accepted? then None else
      var yss := FrameOutput(u, block, x.st).spectra;
      Some(Handle(NextState(u, block, x.st), NextCarries(t, x.carries, yss), NextWaves(t, x.carries, yss)))
  }

  /** The samples of the last block. */
  function Samples(u: Setup, x: Handle): (s: seq<real>)
    ensures |s| == SAMPLES * u.h.channels
  {
    if |x.waves| == u.h.channels then Interleave(x.waves, SUBFRAMES) else seq(SAMPLES * u.h.channels, _ => 0.0)
  }

  function FrameCodec(u: Setup, t: Transform.Tables): Codec<Handle>
  {
    Codec((x: Handle) => Restarted(u, x), (x: Handle, block: seq<byte>) => DecodeBlock(u, t, x, block),
          (x: Handle) => Samples(u, x))
  }

  lemma FrameCodecIs(u: Setup, t: Transform.Tables)
    ensures IsCodec(FrameCodec(u, t), u.h.channels)
  {
  }

  // ---------- the decoder on its arrays is such a block decoder ----------

  /** The arrays are in the state of the handle. */
  ghost predicate InState(d: FrameDecoder.ClHCA, x: Handle)
    reads d.Cores(), d.Sides(), d.Output()
  {
    d.Snap(x.st.sides) && d.Playing(x.carries, [])
  }

  /** One block: the samples handed out and the state left are those of the block decoder above. */
  method DecodePacket(d: FrameDecoder.ClHCA, data: array<byte>, random: nat, samples: array<real>, ghost x: Handle)
    returns (ok: bool, r: nat)
    requires d.Valid() && data != d.cipherTable && data !in d.Owned() && Sane(d.SetupNow(), d.mdct, x) && InState(d, x)
    requires random == x.st.random && samples.Length == SAMPLES * d.h.channels
    requires samples !in d.Owned() && samples != (data as object)
    modifies data, samples, d.Owned()
    ensures d.Valid() && d.SetupNow() == old(d.SetupNow())
    ensures ok == DecodeBlock(d.SetupNow(), d.mdct, x, old(data[..])).Some?
    ensures ok ==>
      var next := DecodeBlock(d.SetupNow(), d.mdct, x, old(data[..])).value;
      InState(d, next) && r == next.st.random && samples[..] == Samples(d.SetupNow(), next)
  {
    hide *;
    d.Ready();
    InStateIs(d, x);
    SamplesApart(d, samples);
    ghost var u, bytes := d.SetupNow(), data[..];
    DecodeBlockIs(u, d.mdct, x, bytes);
    var zero := seq(d.h.channels, _ => []);
    var res, waves;
    ghost var carries;
    res, r, waves, carries := d.DecodeBlock(data, random, zero, x.st, x.carries);
    ok := res.Accepted?;
    if ok {
      d.Ready();
      ghost var yss := FrameOutput(u, bytes, x.st).spectra;
      d.PlayedWaves(x.carries, yss);
      d.ReadSamples(samples, NextWaves(d.mdct, x.carries, yss));
      InStateIs(d, DecodeBlock(u, d.mdct, x, bytes).value);
    }
  }

  lemma InStateIs(d: FrameDecoder.ClHCA, x: Handle)
    ensures InState(d, x) <==> d.Snap(x.st.sides) && d.Playing(x.carries, [])
  {
  }

  lemma SamplesApart(d: FrameDecoder.ClHCA, samples: array<real>)
    ensures samples !in d.Sides()
    ensures SAMPLES * d.h.channels == d.h.channels * 128 * SUBFRAMES
  {
  }

  lemma DecodeBlockIs(u: Setup, t: Transform.Tables, x: Handle, block: seq<byte>)
    requires Sane(u, t, x)
    ensures u.Valid() && t.WellFormed() && SidesShape(u.h, x.st.sides) && |x.carries| == u.h.channels
    ensures var r := DecodeBlock(u, t, x, block);
      r.Some? == OutcomeIn(u, block, x.st).Accepted?
      && (r.Some? ==>
            var yss := FrameOutput(u, block, x.st).spectra;
            r.value == Handle(NextState(u, block, x.st), NextCarries(t, x.carries, yss), NextWaves(t, x.carries, yss))
            && Samples(u, r.value) == Interleave(r.value.waves, SUBFRAMES))
  {
    hide OutcomeIn, FrameOutput, NextState, Interleave, Transform.Run;
  }

  // ---------- the frames of a file ----------

  function Frames(info: Info, data: seq<byte>, k: nat): (f: seq<seq<byte>>)
    requires LengthFor(info, k) <= |data|
    ensures |f| == k
  {
    if k == 0 then [] else
      LengthForNext(info, k - 1);
      Frames(info, data, k - 1) + [data[LengthFor(info, k - 1)..LengthFor(info, k)]]
  }

  /** The file is read with the parameters of its header. */
  predicate Fits(u: Setup, info: Info)
  {
    u.Valid() && info.Valid() && info.channels == u.h.channels && info.blockSize == u.h.frameSize
  }

  /** Every accepted header fits, whatever its other fields. */
  lemma AcceptedFits(u: Setup, info: Info)
    requires u.Valid() && info.channels == u.h.channels && info.blockSize == u.h.frameSize
    requires 0 < info.blockCount < WORD32 && info.delay < 0x1_0000 && info.samplingRate < 0x80_0000
    ensures Fits(u, info)
  {
    hide Header.Params.HfrGroupCount;
  }

  /** The waves of a channel over the first k frames: one run of the inverse transform. */
  function FileWaves(u: Setup, t: Transform.Tables, x: Handle, frames: seq<seq<byte>>): (w: seq<seq<Transform.Block>>)
    requires Sane(u, t, x)
    ensures |w| == u.h.channels
  {
    seq(u.h.channels, c requires 0 <= c < u.h.channels => Transform.Run(t, x.carries[c], RunBlocks(u, frames, x.st, c)).waves)
  }

  /** What k decoded blocks leave and what they sound like. */
  ghost predicate PlaysFrames(u: Setup, t: Transform.Tables, x: Handle, frames: seq<seq<byte>>, played: Played<Handle>)
    requires Sane(u, t, x)
  {
    played.Playing? && Sane(u, t, played.h) && played.h.st == RunState(u, frames, x.st)
    && (forall c :: 0 <= c < u.h.channels ==>
          played.h.carries[c] == Transform.Run(t, x.carries[c], RunBlocks(u, frames, x.st, c)).carry
          && |RunBlocks(u, frames, x.st, c)| == SUBFRAMES * |frames|)
    && played.samples == Interleave(FileWaves(u, t, x, frames), SUBFRAMES * |frames|)
  }

  lemma NothingPlayed(u: Setup, t: Transform.Tables, x: Handle)
    requires Sane(u, t, x)
    ensures PlaysFrames(u, t, x, [], Playing(x, []))
  {
    hide Transform.Run;
    forall c | 0 <= c < u.h.channels
      ensures x.carries[c] == Transform.Run(t, x.carries[c], RunBlocks(u, [], x.st, c)).carry
    {
      Transform.RunEmpty(t, x.carries[c]);
    }
  }

  lemma BlocksIn(u: Setup, block: seq<byte>, st: State, c: nat)
    requires u.Valid() && SidesShape(u.h, st.sides) && c < u.h.channels && OutcomeIn(u, block, st).Accepted?
    ensures FrameBlocks(u, block, st, c) == Column(FrameOutput(u, block, st).spectra, c)
    ensures |FrameBlocks(u, block, st, c)| == SUBFRAMES
  {
    hide OutcomeIn, FrameOutput;
  }

  /** One more accepted frame. */
  lemma PlaysOneMore(u: Setup, t: Transform.Tables, x: Handle, frames: seq<seq<byte>>, played: Played<Handle>, block: seq<byte>)
    requires Sane(u, t, x) && PlaysFrames(u, t, x, frames, played) && AllDecoded(u, frames, x.st)
    requires OutcomeIn(u, block, played.h.st).Accepted?
    ensures AllDecoded(u, frames + [block], x.st)
    ensures PlaysFrames(u, t, x, frames + [block], PlayOne(FrameCodec(u, t), played.h, played.samples, Whole(block)))
  {
    hide OutcomeIn, FrameOutput, Transform.Run, RunBlocks, RunState, NextState, AllDecoded, FrameBlocks, Interleave, Column;
    var yss := FrameOutput(u, block, played.h.st).spectra;
    var before, more := FileWaves(u, t, x, frames), NextWaves(t, played.h.carries, yss);
    var after := FileWaves(u, t, x, frames + [block]);
    FirstNotSecondary(u.h);
    RunSnoc(u, frames, block, x.st, 0);
    forall c | 0 <= c < u.h.channels
      ensures var r := Transform.Run(t, x.carries[c], RunBlocks(u, frames + [block], x.st, c));
        r.carry == NextCarries(t, played.h.carries, yss)[c] && after[c] == before[c] + more[c]
        && |RunBlocks(u, frames + [block], x.st, c)| == SUBFRAMES * |frames + [block]|
    {
      RunSnoc(u, frames, block, x.st, c);
      BlocksIn(u, block, played.h.st, c);
      Transform.RunJoin(t, x.carries[c], RunBlocks(u, frames, x.st, c), Column(yss, c));
    }
    assert after == Behind(before, more);
    InterleaveBehind(before, more, SUBFRAMES * |frames|, SUBFRAMES);
  }

  lemma PacketIs(info: Info, data: seq<byte>, k: nat)
    requires 0 < k <= info.blockCount && LengthFor(info, k) <= |data| && info.Valid()
    ensures LengthFor(info, k - 1) <= |data|
    ensures var f := Frames(info, data, k);
      f == Frames(info, data, k - 1) + [f[k - 1]] && PacketAt(info, data, k - 1) == Whole(f[k - 1])
  {
    LengthForNext(info, k - 1);
  }

  /**
    The first k blocks of a file decode without an error exactly when every frame is decoded to its
    end, and then their samples are the interleaved waves of one run of the inverse transform per channel.
   */
  lemma {:induction false} FilePlays(u: Setup, t: Transform.Tables, info: Info, data: seq<byte>, x: Handle, k: nat)
    requires Fits(u, info) && Sane(u, t, x) && k <= info.blockCount && LengthFor(info, k) <= |data|
    ensures Play(FrameCodec(u, t), info, data, x, k).Playing? <==> AllDecoded(u, Frames(info, data, k), x.st)
    ensures AllDecoded(u, Frames(info, data, k), x.st) ==>
      PlaysFrames(u, t, x, Frames(info, data, k), Play(FrameCodec(u, t), info, data, x, k))
  {
    hide OutcomeIn, NextState, PlaysFrames, PacketAt, PlayOne;
    if k == 0 {
      NothingPlayed(u, t, x);
    } else {
      PacketIs(info, data, k);
      FilePlays(u, t, info, data, x, k - 1);
      var frames, block := Frames(info, data, k - 1), Frames(info, data, k)[k - 1];
      var before := Play(FrameCodec(u, t), info, data, x, k - 1);
      hide Frames, Play;
      FirstNotSecondary(u.h);
      RunSnoc(u, frames, block, x.st, 0);
      PlayStep(FrameCodec(u, t), info, data, x, k);
      if before.Playing? {
        BlockPlays(u, t, x, frames, before, block);
        if OutcomeIn(u, block, RunState(u, frames, x.st)).Accepted? {
          StateIs(u, t, x, frames, before);
          PlaysOneMore(u, t, x, frames, before, block);
        }
      }
    }
  }

  lemma PlayStep(codec: Codec<Handle>, info: Info, data: seq<byte>, x: Handle, k: nat)
    requires k > 0
    ensures var before := Play(codec, info, data, x, k - 1);
      Play(codec, info, data, x, k)
      == if before.Playing? then PlayOne(codec, before.h, before.samples, PacketAt(info, data, k - 1)) else before
  {
    hide PlayOne, PacketAt;
  }

  lemma StateIs(u: Setup, t: Transform.Tables, x: Handle, frames: seq<seq<byte>>, played: Played<Handle>)
    requires Sane(u, t, x) && PlaysFrames(u, t, x, frames, played)
    ensures played.Playing? && Sane(u, t, played.h) && played.h.st == RunState(u, frames, x.st)
  {
  }

  /** A block plays exactly when its frame is decoded to its end. */
  lemma BlockPlays(u: Setup, t: Transform.Tables, x: Handle, frames: seq<seq<byte>>, played: Played<Handle>, block: seq<byte>)
    requires Sane(u, t, x) && PlaysFrames(u, t, x, frames, played)
    ensures played.Playing?
    ensures SidesShape(u.h, RunState(u, frames, x.st).sides)
    ensures PlayOne(FrameCodec(u, t), played.h, played.samples, Whole(block)).Playing?
      <==> OutcomeIn(u, block, RunState(u, frames, x.st)).Accepted?
  {
    hide OutcomeIn, FrameOutput, NextState, RunBlocks, Transform.Run, Interleave;
  }

  // ---------- whole files ----------

  /** The samples of a file whose frames are all decoded: the delay is cut off the interleaved waves. */
  method DecodeFile(u: Setup, t: Transform.Tables, info: Info, data: seq<byte>, x: Handle) returns (r: Option<seq<real>>)
    requires Fits(u, info) && Sane(u, t, x) && LengthFor(info, info.blockCount) <= |data|
    ensures var start := Restarted(u, x);
      Sane(u, t, start)
      && var frames := Frames(info, data, info.blockCount);
         r == if AllDecoded(u, frames, start.st)
           then Some(Drop(Interleave(FileWaves(u, t, start, frames), SUBFRAMES * info.blockCount),
                          Interleaved(info.delay, info.channels)))
           else None
  {
    FrameCodecIs(u, t);
    FilePlays(u, t, info, data, Restarted(u, x), info.blockCount);
    if !Play(FrameCodec(u, t), info, data, Restarted(u, x), info.blockCount).Failed? {
      PlaysToTheEnd(FrameCodec(u, t), info, data, Restarted(u, x));
    }
    hide Interleave, RunBlocks, Transform.Run, AllDecoded, Interleaved, Drop, LengthFor, Frames, Play;
    var d := new Decoder(FrameCodec(u, t), info, data, x);
    r := d.DecodeAll();
  }

  // ---------- files of silent frames, and what is left of them ----------

  lemma {:induction false} SilenceDecoded(u: Setup, frames: seq<seq<byte>>, st: State)
    requires u.Valid() && SidesShape(u.h, st.sides) && Cipher.IsSubstitution(u.cipher)
    requires !Unusable(u.h) && !BadLayout(u.h) && Roomy(u.h)
    requires forall j :: 0 <= j < |frames| ==> frames[j] == SilentBytes(u.h.frameSize)
    ensures AllDecoded(u, frames, st)
  {
    hide OutcomeOf, NextState, Unusable, BadLayout, Roomy, SilentBytes, Cipher.IsSubstitution;
    if frames != [] {
      SilenceAccepted(u.h, u.ath, u.cipher, st.sides);
      SilenceDecoded(u, frames[1..], NextState(u, frames[0], st));
    }
  }

  /** A header and n silent frames. */
  function SilentFile(header: seq<byte>, size: nat, n: nat): (f: seq<byte>)
    requires size >= 4
    ensures |header| <= |f| && f[..|header|] == header
  {
    if n == 0 then header else SilentFile(header, size, n - 1) + SilentBytes(size)
  }

  lemma {:induction false} SilentFileIs(info: Info, header: seq<byte>, n: nat)
    requires info.blockSize >= 4 && info.headerSize == |header|
    ensures var f := SilentFile(header, info.blockSize, n);
      |f| == LengthFor(info, n)
      && forall k :: 0 <= k <= n ==> LengthFor(info, k) <= |f| && f[..LengthFor(info, k)] == SilentFile(header, info.blockSize, k)
  {
    hide SilentBytes;
    if n > 0 {
      SilentFileIs(info, header, n - 1);
      LengthForNext(info, n - 1);
      hide LengthFor;
      var before, f := SilentFile(header, info.blockSize, n - 1), SilentFile(header, info.blockSize, n);
      forall k | 0 <= k <= n
        ensures LengthFor(info, k) <= |f| && f[..LengthFor(info, k)] == SilentFile(header, info.blockSize, k)
      {
        if k < n {
          assert f[..LengthFor(info, k)] == before[..LengthFor(info, k)];
        } else {
          assert f[..|f|] == f;
        }
      }
    }
  }

  lemma {:induction false} SilentFileFrames(info: Info, header: seq<byte>, n: nat, k: nat)
    requires info.blockSize >= 4 && info.headerSize == |header| && k <= n
    ensures var f := SilentFile(header, info.blockSize, n);
      LengthFor(info, k) <= |f| && forall j :: 0 <= j < k ==> Frames(info, f, k)[j] == SilentBytes(info.blockSize)
  {
    SilentFileIs(info, header, n);
    hide SilentBytes, LengthFor;
    var f := SilentFile(header, info.blockSize, n);
    if k > 0 {
      SilentFileFrames(info, header, n, k - 1);
      LengthForNext(info, k - 1);
      var a, b := LengthFor(info, k - 1), LengthFor(info, k);
      assert f[..b] == f[..a] + SilentBytes(info.blockSize);
      assert f[a..b] == f[..b][a..];
    }
  }

  /**
    Files the decoder takes, cut between two blocks: no error, the waves of the blocks before the cut,
    and fewer bytes of samples than the WAV header announces.
   */
  lemma SilentFileCut(u: Setup, t: Transform.Tables, info: Info, header: seq<byte>, x: Handle, m: nat, quantise: real -> word)
    requires Fits(u, info) && Sane(u, t, x) && |header| == info.headerSize && Cipher.IsSubstitution(u.cipher)
    requires !Unusable(u.h) && !BadLayout(u.h) && Roomy(u.h) && m < info.blockCount
    requires info.delay < HcaStream.SAMPLES * info.blockCount && Announced(info) < WORD32
    ensures var whole := Play(FrameCodec(u, t), info, SilentFile(header, info.blockSize, info.blockCount), x, info.blockCount);
      whole.Playing?
    ensures var cut := Play(FrameCodec(u, t), info, SilentFile(header, info.blockSize, m), x, info.blockCount);
      cut.Ended? && |cut.samples| == Interleaved(HcaStream.SAMPLES * m, info.channels)
      && |Pcm(quantise, Drop(cut.samples, Interleaved(info.delay, info.channels)))| < DataField(WavHeader(info))
  {
    var codec, n := FrameCodec(u, t), info.blockCount;
    var f := SilentFile(header, info.blockSize, n);
    FrameCodecIs(u, t);
    SilentFileIs(info, header, n);
    SilentFileFrames(info, header, n, m);
    SilentFileFrames(info, header, n, n);
    SilenceDecoded(u, Frames(info, f, m), x.st);
    SilenceDecoded(u, Frames(info, f, n), x.st);
    FilePlays(u, t, info, f, x, m);
    FilePlays(u, t, info, f, x, n);
    hide *;
    CutBetweenBlocks(codec, info, f, x, m);
    PlayedLength(codec, info, f, x, m);
    CutWav(codec, info, f, x, m, quantise);
  }

  /** A mono header as an encoder writes it: all 128 bands coded, frames of 256 bytes. */
  function MonoHeader(): Header.Params { Header.Params(0x0200, 1, 256, 1, 15, 1, 0, 128, 128, 0, 0, 0) }

  /** Two blocks announced, one there: 2048 bytes of samples and no error where the header says 4096. */
  lemma CutFile(u: Setup, t: Transform.Tables, header: seq<byte>, x: Handle, quantise: real -> word)
    requires u.h == MonoHeader() && Cipher.IsSubstitution(u.cipher) && Sane(u, t, x) && |header| == 96
    ensures var info := Info(96, 256, 2, 1, 0, 44100);
      var cut := Play(FrameCodec(u, t), info, SilentFile(header, 256, 1), x, 2);
      Fits(u, info) && cut.Ended? && |Pcm(quantise, Drop(cut.samples, 0))| == 2048 && DataField(WavHeader(info)) == 4096
  {
    var info := Info(96, 256, 2, 1, 0, 44100);
    MonoFacts(u.h);
    CutNumbers(info);
    hide *;
    SilentFileCut(u, t, info, header, x, 1, quantise);
    DataFieldIs(info);
  }

  lemma MonoFacts(h: Header.Params)
    requires h == MonoHeader()
    ensures h.Accepted() && h.channels == 1 && h.frameSize == 256 && !Unusable(h) && !BadLayout(h) && Roomy(h)
  {
    assert h.HfrGroupCount() == 0;
    OneChannel(h);
    hide Header.Params.HfrGroupCount, SilentBits;
  }

  lemma CutNumbers(info: Info)
    requires info == Info(96, 256, 2, 1, 0, 44100)
    ensures info.Valid() && Announced(info) == 4096 && Interleaved(HcaStream.SAMPLES * 1, 1) == 1024 && Interleaved(0, 1) == 0
    ensures HcaStream.SAMPLES == 1024 && WORD32 > 4096
  {
  }
}
