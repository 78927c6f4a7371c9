/**
 MPEG-TS packets (sections 2.4.3.2 to 2.4.3.7 of ISO/IEC 13818-1): splitting a PES packet into
 188-byte packets, the program tables, and a reference reader of packets. The theorems are about
 whole runs of the packetiser.
 */
module Ts {
  import opened Bytes
  import Crc32

  const PACKET := 188

  type Packet = p: bytes | |p| == PACKET witness seq(PACKET, _ => 0)

  const PMT_NUMBER := 1
  const PAT_PID := 0
  const PMT_PID := 0x1001
  const VIDEO_PID := 0x100
  const AUDIO_PID := 0x101
  const STREAM_H264: byte := 0x1b
  const STREAM_AAC: byte := 0x0f
  const AVC := 7
  const AAC := 10

  datatype Message = Message(sid: byte, dts: int, pts: int, writePcr: bool, payload: bytes) {
    predicate IsAudio() { sid / 32 == 6 }

    predicate IsVideo() { sid / 16 == 14 }

    function Pid(): nat { if IsAudio() then AUDIO_PID else VIDEO_PID }
  }

  // ----- 33-bit clocks

  /** Four mark bits, then 3, 15 and 15 bits of the clock, each group closed by a one. */
  function Stamp(mark: nat, clock: int): (b: bytes)
    requires mark < 16
    ensures |b| == 5
  {
    var v := clock % TWO33;
    var v7 := v / 0x80;
    var v15 := v7 / 0x100;
    var v22 := v15 / 0x80;
    var v30 := v22 / 0x100;
    [mark * 16 + v30 * 2 + 1, v22 % 0x100, v15 % 0x80 * 2 + 1, v7 % 0x100, v % 0x80 * 2 + 1]
  }

  function ReadStamp(b: bytes): nat
    requires |b| >= 5
  {
    (b[0] as int / 2 % 8) * 0x4000_0000 + b[1] as int * 0x40_0000 + (b[2] as int / 2) * 0x8000 + b[3] as int * 0x80
        + b[4] as int / 2
  }

  /** The clock modulo 2^33 survives, with the mark and the marker bits in place. */
  lemma StampRoundTrip(mark: nat, clock: int)
    requires mark < 16
    ensures ReadStamp(Stamp(mark, clock)) == clock % TWO33
    ensures var b := Stamp(mark, clock); b[0] / 16 == mark && b[0] % 2 == 1 && b[2] % 2 == 1 && b[4] % 2 == 1
  {
    var v := clock % TWO33;
    var v7 := v / 0x80;
    var v15 := v7 / 0x100;
    var v22 := v15 / 0x80;
    var v30 := v22 / 0x100;
    var b := Stamp(mark, clock);
    assert b[0] / 2 == mark * 8 + v30 && b[0] / 2 % 8 == v30;
    assert b[2] / 2 == v15 % 0x80 && b[4] / 2 == v % 0x80;
    assert v == 0x80 * v7 + v % 0x80 && v7 == 0x100 * v15 + v7 % 0x100 && v15 == 0x80 * v22 + v15 % 0x80
           && v22 == 0x100 * v30 + v22 % 0x100;
  }

  /** The program clock: 33 bits of base, six reserved ones, no extension. */
  function Pcr(clock: int): (b: bytes)
    ensures |b| == 6
  {
    var v := clock % TWO33;
    var v1 := v / 2;
    var v9 := v1 / 0x100;
    var v17 := v9 / 0x100;
    var v25 := v17 / 0x100;
    [v25, v17 % 0x100, v9 % 0x100, v1 % 0x100, v % 2 * 128 + 0x7e, 0]
  }

  function ReadPcr(b: bytes): nat
    requires |b| >= 6
  {
    b[0] as int * 0x200_0000 + b[1] as int * 0x2_0000 + b[2] as int * 0x200 + b[3] as int * 2 + b[4] as int / 128
  }

  lemma PcrRoundTrip(clock: int)
    ensures ReadPcr(Pcr(clock)) == clock % TWO33
  {
    var v := clock % TWO33;
    var v1 := v / 2;
    var v9 := v1 / 0x100;
    var v17 := v9 / 0x100;
    assert v == 2 * v1 + v % 2 && v1 == 0x100 * v9 + v1 % 0x100 && v9 == 0x100 * v17 + v9 % 0x100;
    assert (v % 2 * 128 + 0x7e) / 128 == v % 2;
  }

  // ----- PES

  function PesHeader(m: Message): (b: bytes)
    ensures |b| == if m.dts != m.pts then 19 else 14
  {
    var both := m.dts != m.pts;
    var length := 3 + (if both then 10 else 5) + |m.payload|;
    [0, 0, 1, m.sid] + BE2(if length > 0xffff then 0 else length)
        + [0x80, if both then 0xc0 else 0x80, if both then 10 else 5]
    + Stamp(if both then 3 else 2, m.pts) + (if both then Stamp(1, m.dts) else [])
  }

  function Pes(m: Message): bytes { PesHeader(m) + m.payload }

  // ----- packets

  function AdaptationSize(pcr: bool, left: nat): (n: nat)
    requires left > 0
    ensures n <= 183 && 184 - n <= left && (pcr ==> n >= 8) && (n > (if pcr then 8 else 0) ==> 184 - n == left)
  {
    var n := if pcr then 8 else 0;
    if 184 - n > left then 184 - left else n
  }

  function Stuffing(n: nat): (b: bytes)
    ensures |b| == n
  {
    seq(n, _ => 0xff)
  }

  function Adaptation(n: nat, pcr: bool, video: bool, dts: int): (b: bytes)
    requires n <= 183 && (pcr ==> n >= 8)
    ensures |b| == n
  {
    if n == 0 then []
    else if n == 1 then [0]
    else if pcr then [n - 1, if video then 0x50 else 0x10] + Pcr(dts) + Stuffing(n - 8)
    else [n - 1, 0] + Stuffing(n - 2)
  }

  function PacketHeader(pid: nat, start: bool, adaptation: bool, cc: nat): (b: bytes)
    requires pid < 0x2000
    ensures |b| == 4
  {
    [0x47, (if start then 0x40 else 0) + pid / 0x100, pid % 0x100, (if adaptation then 0x30 else 0x10) + cc % 16]
  }

  /** The packet for the next bytes of a PES packet. */
  function NextPacket(m: Message, pes: bytes, first: bool, cc: nat): Packet
    requires pes != []
  {
    var pcr := first && m.writePcr;
    var n := AdaptationSize(pcr, |pes|);
    PacketHeader(m.Pid(), first, n > 0, cc) + Adaptation(n, pcr, m.IsVideo(), m.dts) + pes[..184 - n]
  }

  function BodySize(m: Message, pes: bytes, first: bool): (n: nat)
    requires pes != []
    ensures 0 < n <= |pes|
  {
    184 - AdaptationSize(first && m.writePcr, |pes|)
  }

  /** `cc` is the 8-bit continuity counter of the channel. */
  function Packets(m: Message, pes: bytes, first: bool, cc: nat): (ps: seq<Packet>) {
    if pes == [] then []
    else [NextPacket(m, pes, first, cc)] + Packets(m, pes[BodySize(m, pes, first)..], false, (cc + 1) % 256)
  }

  // ----- program tables

  function Psi(pid: nat, section: bytes, cc: nat): Packet
    requires pid < 0x2000 && |section| <= 179
  {
    PacketHeader(pid, true, false, cc) + [0] + section + Crc32.Trailer(Crc32.Crc(section)) + Stuffing(179 - |section|)
  }

  const PAT_SECTION: bytes := [0, 0xb0, 13, 0, 1, 0xc1, 0, 0, 0, PMT_NUMBER, 0xe0 + PMT_PID / 0x100, PMT_PID % 0x100]

  function StreamInfo(kind: byte, pid: nat): (b: bytes)
    requires pid < 0x2000
    ensures |b| == 5
  {
    [kind, 0xe0 + pid / 0x100, pid % 0x100, 0xf0, 0]
  }

  function PmtSection(video: bool, audio: bool): (b: bytes)
    ensures |b| <= 22
  {
    var n := (if video then 1 else 0) + (if audio then 1 else 0);
    var pcrPid := if video then VIDEO_PID else AUDIO_PID;
    [2, 0xb0, 9 + 5 * n + 4, 0, PMT_NUMBER, 0xc1, 0, 0, 0xe0 + pcrPid / 0x100, pcrPid % 0x100, 0xf0, 0]
    + (if video then StreamInfo(STREAM_H264, VIDEO_PID) else [])
    + (if audio then StreamInfo(STREAM_AAC, AUDIO_PID) else [])
  }

  // ----- the packetiser as a state machine

  /** Remembered codecs and the continuity counter of each channel. */
  datatype Context = Context(vcodec: nat, acodec: nat, cc: map<nat, nat>)

  datatype Step = Reset | Encode(msg: Message, vcodec: nat, acodec: nat)

  datatype Outcome = Outcome(ctx: Context, packets: seq<Packet>, ok: bool)

  function Counter(cc: map<nat, nat>, pid: nat): nat { if pid in cc then cc[pid] else 0 }

  function Bump(cc: map<nat, nat>, pid: nat, n: nat): map<nat, nat> { cc[pid := (Counter(cc, pid) + n) % 256] }

  /** Codecs that differ from the remembered ones bring the tables first. */
  function Tables(ctx: Context, vc: nat, ac: nat): (o: Outcome) {
    var ctx1 := ctx.(vcodec := vc, acodec := ac);
    if vc != AVC && ac != AAC then Outcome(ctx1, [], false)
    else Outcome(ctx1.(cc := Bump(Bump(ctx.cc, PAT_PID, 1), PMT_PID, 1)),
                 [Psi(PAT_PID, PAT_SECTION, Counter(ctx.cc, PAT_PID)),
                  Psi(PMT_PID, PmtSection(vc == AVC, ac == AAC), Counter(ctx.cc, PMT_PID))], true)
  }

  /** A stream without video carries the clock in its audio. */
  function Clocked(m: Message, vc: nat): Message {
    if vc != AVC && m.IsAudio() then m.(writePcr := true) else m
  }

  function EncodePes(ctx: Context, m: Message): (o: Outcome) {
    if m.payload == [] then Outcome(ctx, [], true)
    else
      var ps := Packets(m, Pes(m), true, Counter(ctx.cc, m.Pid()));
      Outcome(ctx.(cc := Bump(ctx.cc, m.Pid(), |ps|)), ps, true)
  }

  function Apply(ctx: Context, s: Step): (o: Outcome) {
    match s
    case Reset => Outcome(ctx.(vcodec := 0, acodec := 0), [], true)
    case Encode(m, vc, ac) =>
      var t := if ctx.vcodec != vc || ctx.acodec != ac then Tables(ctx, vc, ac) else Outcome(ctx, [], true);
      if !t.ok then t
      else
        var p := EncodePes(t.ctx, Clocked(m, vc));
        Outcome(p.ctx, t.packets + p.packets, true)
  }

  /** Everything written by a run of steps. */
  function Run(ctx: Context, steps: seq<Step>): (r: (Context, seq<Packet>))
    decreases |steps|
  {
    if steps == [] then (ctx, [])
    else
      var o := Apply(ctx, steps[0]);
      var r := Run(o.ctx, steps[1..]);
      (r.0, o.packets + r.1)
  }

  // ----- the reference reader

  function PidOf(p: Packet): nat { p[1] % 32 * 0x100 + p[2] as int }

  function CcOf(p: Packet): nat { p[3] % 16 }

  predicate StartOf(p: Packet) { p[1] / 0x40 % 2 == 1 }

  predicate HasAdaptation(p: Packet) { p[3] / 0x20 % 2 == 1 }

  /** What is left of a packet without header and adaptation field. */
  function BodyOf(p: Packet): bytes {
    if !HasAdaptation(p) then p[4..] else if 5 + p[4] as int <= PACKET then p[5 + p[4] as int..] else []
  }

  /** The clock in the adaptation field, if its flag is set. */
  function ClockOf(p: Packet): Option<nat> {
    if HasAdaptation(p) && p[4] >= 7 && p[5] / 0x10 % 2 == 1 then Some(ReadPcr(p[6..12])) else None
  }

  /** The packets of one channel, in order. */
  function Channel(ps: seq<Packet>, pid: nat): seq<Packet> {
    if ps == [] then [] else (if PidOf(ps[0]) == pid then [ps[0]] else []) + Channel(ps[1..], pid)
  }

  function Bodies(ps: seq<Packet>): bytes {
    if ps == [] then [] else BodyOf(ps[0]) + Bodies(ps[1..])
  }
}
