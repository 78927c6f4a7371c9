/**
 The packetiser is lossless: what a reader recovers from its packets, channel by channel.
 */
module TsProofs {
  import opened Bytes
  import opened Ts
  import Crc32

  // ----- one packet

  lemma HeaderReadsBack(pid: nat, start: bool, adaptation: bool, cc: nat, rest: bytes)
    requires pid < 0x2000 && |rest| == 184
    ensures var p := PacketHeader(pid, start, adaptation, cc) + rest;
            && PidOf(p) == pid && CcOf(p) == cc % 16 && StartOf(p) == start && HasAdaptation(p) == adaptation
            && p[4..] == rest
  {
    var p := PacketHeader(pid, start, adaptation, cc) + rest;
    assert p[0] == 0x47 && p[1] == (if start then 0x40 else 0) + pid / 0x100 && p[2] == pid % 0x100;
    assert p[3] == (if adaptation then 0x30 else 0x10) + cc % 16;
  }

  /** Reading a packet back: channel, counter, start flag, clock and payload. */
  lemma PacketReadsBack(m: Message, pes: bytes, first: bool, cc: nat)
    requires pes != []
    ensures var p := NextPacket(m, pes, first, cc);
            && PidOf(p) == m.Pid() && CcOf(p) == cc % 16 && StartOf(p) == first
            && BodyOf(p) == pes[..BodySize(m, pes, first)]
            && ClockOf(p) == if first && m.writePcr then Some(m.dts % TWO33) else None
  {
    hide PacketHeader, PidOf, CcOf, StartOf, HasAdaptation, Adaptation, BodyOf, ClockOf, Message.IsAudio,
         Message.IsVideo;
    var pcr := first && m.writePcr;
    var n := AdaptationSize(pcr, |pes|);
    var rest := Adaptation(n, pcr, m.IsVideo(), m.dts) + pes[..184 - n];
    var p := NextPacket(m, pes, first, cc);
    assert p == PacketHeader(m.Pid(), first, n > 0, cc) + rest;
    HeaderReadsBack(m.Pid(), first, n > 0, cc, rest);
    BehindHeader(p, n, pcr, m.IsVideo(), m.dts, pes[..184 - n]);
  }

  /** Adaptation field and payload, once the header is read. */
  lemma BehindHeader(p: Packet, n: nat, pcr: bool, video: bool, dts: int, body: bytes)
    requires n <= 183 && (pcr ==> n >= 8) && |body| == 184 - n && HasAdaptation(p) == (n > 0)
    requires p[4..] == Adaptation(n, pcr, video, dts) + body
    ensures BodyOf(p) == body && ClockOf(p) == if pcr then Some(dts % TWO33) else None
  {
    hide HasAdaptation, Adaptation, ReadPcr;
    var a := Adaptation(n, pcr, video, dts);
    AdaptationFields(n, pcr, video, dts);
    if n > 0 {
      assert p[4] == p[4..][0] == a[0];
      assert p[4 + n..] == p[4..][n..] == body;
      if n > 1 {
        assert p[5] == p[4..][1] == a[1];
        if pcr { assert p[6..12] == p[4..][2..8] == a[2..8]; }
      }
    } else {
      assert [] + body == body;
    }
  }

  lemma AdaptationFields(n: nat, pcr: bool, video: bool, dts: int)
    requires n <= 183 && (pcr ==> n >= 8)
    ensures var a := Adaptation(n, pcr, video, dts);
            && (n > 0 ==> a[0] == n - 1)
            && (n > 1 ==> (a[1] / 0x10 % 2 == 1 <==> pcr))
            && (pcr ==> ReadPcr(a[2..8]) == dts % TWO33)
  {
    hide Pcr, ReadPcr, Stuffing;
    if pcr {
      var a := Adaptation(n, pcr, video, dts);
      assert a[2..8] == Pcr(dts);
      PcrRoundTrip(dts);
    }
  }

  // ----- one PES packet

  /** Position by position: the counters run on modulo 16 and only the first packet starts a PES. */
  predicate Numbered(ps: seq<Packet>, cc: nat)
  {
    forall i :: 0 <= i < |ps| ==> CcOf(ps[i]) == (cc + i) % 16
  }

  predicate OnPid(ps: seq<Packet>, pid: nat)
  {
    forall i :: 0 <= i < |ps| ==> PidOf(ps[i]) == pid
  }

  /** Only the first packet of a PES packet has the start flag. */
  predicate Flagged(ps: seq<Packet>, first: bool) {
    forall i :: 0 <= i < |ps| ==> StartOf(ps[i]) == (first && i == 0)
  }

  lemma PutBefore(p: Packet, rest: seq<Packet>, pid: nat, first: bool, cc: nat)
    requires PidOf(p) == pid && CcOf(p) == cc % 16 && StartOf(p) == first
    requires OnPid(rest, pid) && Numbered(rest, (cc + 1) % 256) && Flagged(rest, false)
    ensures var ps := [p] + rest; OnPid(ps, pid) && Numbered(ps, cc) && Flagged(ps, first)
  {
    hide PidOf, CcOf, StartOf;
    var ps := [p] + rest;
    forall i | 0 < i < |ps| ensures CcOf(ps[i]) == (cc + i) % 16 {
      assert ps[i] == rest[i - 1];
      CounterWraps(cc + 1, i - 1);
    }
  }

  lemma {:induction false} PacketsReadBack(m: Message, pes: bytes, first: bool, cc: nat)
    ensures var ps := Packets(m, pes, first, cc);
            && OnPid(ps, m.Pid()) && Bodies(ps) == pes && Numbered(ps, cc) && Flagged(ps, first)
            && (first && pes != [] ==> ps != [] && ClockOf(ps[0]) == if m.writePcr then Some(m.dts % TWO33) else None)
    decreases |pes|
  {
    hide NextPacket, BodyOf, ClockOf, BodySize, Message.Pid, OnPid, Numbered, Flagged, PidOf, CcOf, StartOf;
    if pes == [] {
      NoPackets(m.Pid(), first, cc);
    } else {
      var p, n := NextPacket(m, pes, first, cc), BodySize(m, pes, first);
      var rest := Packets(m, pes[n..], false, (cc + 1) % 256);
      PacketReadsBack(m, pes, first, cc);
      PacketsReadBack(m, pes[n..], false, (cc + 1) % 256);
      PutBefore(p, rest, m.Pid(), first, cc);
      assert ([p] + rest)[1..] == rest;
      assert pes == pes[..n] + pes[n..];
    }
  }

  lemma NoPackets(pid: nat, first: bool, cc: nat)
    ensures OnPid([], pid) && Numbered([], cc) && Flagged([], first)
  {
  }

  lemma CounterWraps(c: nat, i: int)
    ensures (c % 256 + i) % 16 == (c + i) % 16
  {
    assert c + i == c % 256 + i + 16 * (16 * (c / 256));
  }

  // ----- tables

  /** A program table packet: its channel and counter, and a section whose CRC, trailer included,
      is zero. */
  lemma PsiReadsBack(pid: nat, section: bytes, cc: nat)
    requires pid < 0x2000 && |section| <= 179
    ensures var p := Psi(pid, section, cc);
            && PidOf(p) == pid && CcOf(p) == cc % 16 && StartOf(p) && !HasAdaptation(p)
            && p[5..5 + |section|] == section
            && Crc32.Crc(p[5..5 + |section| + 4]) == Crc32.Zeros(32)
  {
    hide PacketHeader, PidOf, CcOf, StartOf, HasAdaptation, Crc32.Crc, Crc32.Trailer;
    var crc := Crc32.Trailer(Crc32.Crc(section));
    var rest := [0] + section + crc + Stuffing(179 - |section|);
    HeaderReadsBack(pid, true, false, cc, rest);
    var p := Psi(pid, section, cc);
    assert p == PacketHeader(pid, true, false, cc) + rest;
    assert p[5..5 + |section|] == section;
    assert p[5..5 + |section| + 4] == section + crc;
    Crc32.CrcCloses(section);
  }

  /** The length field of each table counts from behind itself to the end of the CRC. */
  lemma SectionLengths(video: bool, audio: bool)
    ensures PAT_SECTION[2] as int == |PAT_SECTION| - 3 + 4
    ensures PmtSection(video, audio)[2] as int == |PmtSection(video, audio)| - 3 + 4
  {
  }

  // ----- a reader of the tables

  function TablePid(b: bytes): nat
    requires |b| >= 2
  {
    b[0] % 32 * 0x100 + b[1] as int
  }

  function InfoLength(b: bytes): nat
    requires |b| >= 2
  {
    b[0] % 16 * 0x100 + b[1] as int
  }

  datatype Stream = Stream(kind: byte, pid: nat)

  function ReadStreams(b: bytes): seq<Stream>
    decreases |b|
  {
    if |b| < 5 || 5 + InfoLength(b[3..]) > |b| then []
    else [Stream(b[0], TablePid(b[1..]))] + ReadStreams(b[5 + InfoLength(b[3..])..])
  }

  /** The streams a program map lists, and the channel of its clock. */
  function ReadPmt(section: bytes): Option<(nat, seq<Stream>)> {
    if |section| < 12 || section[0] != 2 || 12 + InfoLength(section[10..]) > |section| then None
    else Some((TablePid(section[8..]), ReadStreams(section[12 + InfoLength(section[10..])..])))
  }

  /** The channel of the first program map that the association table names. */
  function ReadPat(section: bytes): Option<nat> {
    if |section| < 12 || section[0] != 0 then None else Some(TablePid(section[10..]))
  }

  lemma OneStream(kind: byte, pid: nat, rest: bytes)
    requires pid < 0x2000
    ensures ReadStreams(StreamInfo(kind, pid) + rest) == [Stream(kind, pid)] + ReadStreams(rest)
  {
    var b := StreamInfo(kind, pid) + rest;
    hide ReadStreams;
    assert b[5..] == rest && b[0] == kind;
    assert InfoLength(b[3..]) == 0;
    assert TablePid(b[1..]) == pid;
    FirstStream(b);
  }

  lemma FirstStream(b: bytes)
    requires |b| >= 5 && InfoLength(b[3..]) == 0
    ensures ReadStreams(b) == [Stream(b[0], TablePid(b[1..]))] + ReadStreams(b[5..])
  {
    hide InfoLength, TablePid;
    var k := 5 + InfoLength(b[3..]);
    assert k == 5;
    assert ReadStreams(b) == [Stream(b[0], TablePid(b[1..]))] + ReadStreams(b[k..]);
  }

  /** The tables lead a reader to the streams: the association table names the channel of the
      program map, and the map lists exactly the streams present, each on the channel where its
      messages go out, with the clock on the video channel if there is video. */
  lemma TablesNameStreams(video: bool, audio: bool)
    ensures ReadPat(PAT_SECTION) == Some(PMT_PID)
    ensures ReadPmt(PmtSection(video, audio))
            == Some((if video then VIDEO_PID else AUDIO_PID,
                     (if video then [Stream(STREAM_H264, VIDEO_PID)] else [])
                         + (if audio then [Stream(STREAM_AAC, AUDIO_PID)] else [])))
  {
    hide StreamInfo, ReadStreams, InfoLength, TablePid, PmtSection;
    PatLayout();
    PmtLayout(video, audio);
    ListedStreams(video, audio);
    var s := PmtSection(video, audio);
    assert s[12 + InfoLength(s[10..])..] == s[12..];
  }

  lemma PatLayout()
    ensures |PAT_SECTION| >= 12 && PAT_SECTION[0] == 0 && TablePid(PAT_SECTION[10..]) == PMT_PID
  {
    assert PAT_SECTION[10..][0] == 0xe0 + PMT_PID / 0x100 && PAT_SECTION[10..][1] == PMT_PID % 0x100;
  }

  lemma PmtLayout(video: bool, audio: bool)
    ensures var s := PmtSection(video, audio);
            && |s| >= 12 && s[0] == 2 && InfoLength(s[10..]) == 0
            && TablePid(s[8..]) == (if video then VIDEO_PID else AUDIO_PID)
            && s[12..] == (if video then StreamInfo(STREAM_H264, VIDEO_PID) else [])
                          + (if audio then StreamInfo(STREAM_AAC, AUDIO_PID) else [])
  {
    hide StreamInfo;
  }

  lemma ListedStreams(video: bool, audio: bool)
    ensures var v := if video then StreamInfo(STREAM_H264, VIDEO_PID) else [];
            var a := if audio then StreamInfo(STREAM_AAC, AUDIO_PID) else [];
            ReadStreams(v + a) == (if video then [Stream(STREAM_H264, VIDEO_PID)] else [])
                + (if audio then [Stream(STREAM_AAC, AUDIO_PID)] else [])
  {
    hide StreamInfo, ReadStreams;
    var v := if video then StreamInfo(STREAM_H264, VIDEO_PID) else [];
    var a := if audio then StreamInfo(STREAM_AAC, AUDIO_PID) else [];
    NoStreams();
    if audio {
      OneStream(STREAM_AAC, AUDIO_PID, []);
      assert a + [] == a;
    }
    if video { OneStream(STREAM_H264, VIDEO_PID, a); } else { assert v + a == a; }
  }

  lemma NoStreams()
    ensures ReadStreams([]) == []
  {
  }

  // ----- whole runs

  lemma {:induction false} ChannelConcat(a: seq<Packet>, b: seq<Packet>, pid: nat)
    ensures Channel(a + b, pid) == Channel(a, pid) + Channel(b, pid)
  {
    hide PidOf;
    if a == [] {
      assert a + b == b;
    } else {
      ChannelConcat(a[1..], b, pid);
      var first := if PidOf(a[0]) == pid then [a[0]] else [];
      assert Channel(a + b, pid) == first + Channel(a[1..] + b, pid) by { assert (a + b)[1..] == a[1..] + b; }
      Assoc(first, Channel(a[1..], pid), Channel(b, pid));
    }
  }

  lemma {:induction false} BodiesConcat(a: seq<Packet>, b: seq<Packet>)
    ensures Bodies(a + b) == Bodies(a) + Bodies(b)
  {
    hide BodyOf;
    if a == [] {
      assert a + b == b;
    } else {
      BodiesConcat(a[1..], b);
      assert Bodies(a + b) == BodyOf(a[0]) + Bodies(a[1..] + b) by { assert (a + b)[1..] == a[1..] + b; }
      Assoc(BodyOf(a[0]), Bodies(a[1..]), Bodies(b));
    }
  }

  lemma {:induction false} ChannelOfOne(ps: seq<Packet>, pid: nat, other: nat)
    requires OnPid(ps, pid)
    ensures Channel(ps, other) == if other == pid then ps else []
  {
    hide PidOf;
    if ps != [] {
      assert OnPid(ps[1..], pid);
      ChannelOfOne(ps[1..], pid, other);
      assert ps == [ps[0]] + ps[1..];
    }
  }

  /** A message is refused when its codecs are new and there are no tables for them. */
  predicate Refused(vcodec: nat, acodec: nat, s: Step) {
    s.Encode? && s.vcodec != AVC && s.acodec != AAC && (vcodec != s.vcodec || acodec != s.acodec)
  }

  /** The PES packet that a served step puts on one channel. */
  function PesOfStep(s: Step, pid: nat): bytes {
    if s.Encode? && s.msg.payload != [] && s.msg.Pid() == pid then Pes(Clocked(s.msg, s.vcodec)) else []
  }

  /** The PES packets of all messages served, from the codecs of the last message on. */
  function PesOf(vcodec: nat, acodec: nat, steps: seq<Step>, pid: nat): bytes
    decreases |steps|
  {
    if steps == [] then []
    else
      var s := steps[0];
      (if Refused(vcodec, acodec, s) then [] else PesOfStep(s, pid))
      + if s.Reset? then PesOf(0, 0, steps[1..], pid) else PesOf(s.vcodec, s.acodec, steps[1..], pid)
  }

  /** On one channel: the bytes of these packets, numbered from the counter, which ends behind them. */
  predicate Carries(ps: seq<Packet>, pid: nat, before: map<nat, nat>, after: map<nat, nat>)
  {
    Numbered(Channel(ps, pid), Counter(before, pid))
    && Counter(after, pid) % 16 == (Counter(before, pid) + |Channel(ps, pid)|) % 16
  }

  lemma CarriesConcat(a: seq<Packet>, b: seq<Packet>, pid: nat, c0: map<nat, nat>, c1: map<nat, nat>, c2: map<nat, nat>)
    requires Carries(a, pid, c0, c1) && Carries(b, pid, c1, c2)
    ensures Carries(a + b, pid, c0, c2)
  {
    hide CcOf, Counter, Channel, Numbered;
    ChannelConcat(a, b, pid);
    var x, y := Channel(a, pid), Channel(b, pid);
    NumberedConcat(x, y, Counter(c0, pid), Counter(c1, pid));
    SameRemainder(Counter(c1, pid), Counter(c0, pid) + |x|, |y|);
  }

  lemma NumberedConcat(x: seq<Packet>, y: seq<Packet>, n: nat, k: nat)
    requires Numbered(x, n) && Numbered(y, k) && k % 16 == (n + |x|) % 16
    ensures Numbered(x + y, n)
  {
    hide CcOf;
    forall i | 0 <= i < |x + y| ensures CcOf((x + y)[i]) == (n + i) % 16 {
      if i >= |x| {
        assert (x + y)[i] == y[i - |x|];
        SameRemainder(k, n + |x|, i - |x|);
      }
    }
  }

  lemma SameRemainder(a: nat, b: nat, k: int)
    requires a % 16 == b % 16
    ensures (a + k) % 16 == (b + k) % 16
  {
    assert a + k == b + k + 16 * (a / 16 - b / 16);
  }

  lemma PesStep(ctx: Context, m: Message, pid: nat)
    ensures var o := EncodePes(ctx, m);
            && Carries(o.packets, pid, ctx.cc, o.ctx.cc)
            && Bodies(Channel(o.packets, pid)) == (if m.payload != [] && m.Pid() == pid then Pes(m) else [])
  {
    hide PidOf, CcOf, Packets, Pes, Message.Pid, Numbered;
    var o := EncodePes(ctx, m);
    NothingCarried(pid, ctx.cc);
    if m.payload != [] {
      var c := Counter(ctx.cc, m.Pid());
      PacketsReadBack(m, Pes(m), true, c);
      ChannelOfOne(o.packets, m.Pid(), pid);
      if pid == m.Pid() {
        assert Counter(o.ctx.cc, pid) % 16 == (c + |o.packets|) % 16 by { CounterWraps(c + |o.packets|, 0); }
      }
    }
  }

  lemma NothingCarried(pid: nat, cc: map<nat, nat>)
    ensures Carries([], pid, cc, cc) && Channel([], pid) == [] && Bodies([]) == [] && Numbered([], Counter(cc, pid))
  {
  }

  lemma TablesStep(ctx: Context, vc: nat, ac: nat, pid: nat)
    requires vc == AVC || ac == AAC
    ensures var o := Tables(ctx, vc, ac);
            && o.ok && Carries(o.packets, pid, ctx.cc, o.ctx.cc)
            && (pid == VIDEO_PID || pid == AUDIO_PID ==> Channel(o.packets, pid) == [])
            && |o.packets| == 2 && PidOf(o.packets[0]) == PAT_PID && PidOf(o.packets[1]) == PMT_PID
  {
    hide PidOf, CcOf, Psi, PmtSection, HasAdaptation, StartOf, Channel, Counter, Bump;
    var o := Tables(ctx, vc, ac);
    var c0, c1 := Counter(ctx.cc, PAT_PID), Counter(ctx.cc, PMT_PID);
    PsiReadsBack(PAT_PID, PAT_SECTION, c0);
    PsiReadsBack(PMT_PID, PmtSection(vc == AVC, ac == AAC), c1);
    TwoChannels(o.packets, pid);
    BumpedTwice(ctx.cc, pid);
  }

  lemma TwoChannels(ps: seq<Packet>, pid: nat)
    requires |ps| == 2 && PidOf(ps[0]) == PAT_PID && PidOf(ps[1]) == PMT_PID
    ensures Channel(ps, pid) == if pid == PAT_PID then [ps[0]] else if pid == PMT_PID then [ps[1]] else []
  {
    hide PidOf;
    var second: seq<Packet> := [ps[1]];
    assert ps[1..] == second && second[1..] == [];
    assert Channel(second, pid) == if pid == PMT_PID then [ps[1]] else [];
  }

  lemma BumpedTwice(cc: map<nat, nat>, pid: nat)
    ensures var n := if pid == PAT_PID || pid == PMT_PID then 1 else 0;
            Counter(Bump(Bump(cc, PAT_PID, 1), PMT_PID, 1), pid) % 16 == (Counter(cc, pid) + n) % 16
  {
    CounterWraps(Counter(cc, pid) + 1, 0);
  }

  lemma ClockedKeeps(m: Message, vc: nat)
    ensures Clocked(m, vc).payload == m.payload && Clocked(m, vc).Pid() == m.Pid()
  {
  }

  /** Exactly these are refused. The codecs are remembered either way, and nothing is written. */
  lemma RefusedExactly(ctx: Context, s: Step)
    ensures var o := Apply(ctx, s);
            && (!o.ok <==> Refused(ctx.vcodec, ctx.acodec, s))
            && (!o.ok ==> o.packets == [] && o.ctx.cc == ctx.cc)
            && o.ctx.vcodec == (if s.Reset? then 0 else s.vcodec) && o.ctx.acodec == (if s.Reset? then 0 else s.acodec)
  {
    hide Psi, PmtSection, Packets, Pes, Bump;
  }

  lemma TablesCarry(ctx: Context, s: Step, pid: nat) returns (t: Outcome)
    requires s.Encode? && !Refused(ctx.vcodec, ctx.acodec, s)
    ensures t == if ctx.vcodec != s.vcodec || ctx.acodec != s.acodec then Tables(ctx, s.vcodec, s.acodec)
            else Outcome(ctx, [], true)
    ensures t.ok && Carries(t.packets, pid, ctx.cc, t.ctx.cc)
    ensures pid == VIDEO_PID || pid == AUDIO_PID ==> Channel(t.packets, pid) == []
  {
    hide Carries, Tables, Channel;
    NothingCarried(pid, ctx.cc);
    t := Outcome(ctx, [], true);
    if ctx.vcodec != s.vcodec || ctx.acodec != s.acodec {
      TablesStep(ctx, s.vcodec, s.acodec, pid);
      t := Tables(ctx, s.vcodec, s.acodec);
    }
  }

  lemma ApplyStep(ctx: Context, s: Step, pid: nat)
    ensures var o := Apply(ctx, s);
            && Carries(o.packets, pid, ctx.cc, o.ctx.cc)
            && (pid == VIDEO_PID || pid == AUDIO_PID ==>
                  Bodies(Channel(o.packets, pid)) == if o.ok then PesOfStep(s, pid) else [])
  {
    hide Carries, Tables, EncodePes, Clocked, Pes, Message.Pid, Channel, Bodies;
    NothingCarried(pid, ctx.cc);
    RefusedExactly(ctx, s);
    if s.Encode? && Apply(ctx, s).ok {
      var t := TablesCarry(ctx, s, pid);
      var m := Clocked(s.msg, s.vcodec);
      ClockedKeeps(s.msg, s.vcodec);
      PesStep(t.ctx, m, pid);
      var p := EncodePes(t.ctx, m);
      CarriesConcat(t.packets, p.packets, pid, ctx.cc, t.ctx.cc, p.ctx.cc);
      ChannelConcat(t.packets, p.packets, pid);
      assert [] + Channel(p.packets, pid) == Channel(p.packets, pid);
    } else if s.Encode? {
      NotServed(ctx, s, pid);
    }
  }

  lemma NotServed(ctx: Context, s: Step, pid: nat)
    requires Refused(ctx.vcodec, ctx.acodec, s)
    ensures var o := Apply(ctx, s); Carries(o.packets, pid, ctx.cc, o.ctx.cc) && Bodies(Channel(o.packets, pid)) == []
  {
    hide Apply;
    RefusedExactly(ctx, s);
  }

  /** Lossless over any run at all, across resets, codec changes and refusals: every packet has 188
      bytes; on each channel the continuity counters advance by one modulo 16; and stripping headers
      and adaptation fields of a media channel leaves exactly the PES packets of the messages
      served, in order. */
  lemma {:induction false} RunIsLossless(ctx: Context, steps: seq<Step>, pid: nat)
    ensures var r := Run(ctx, steps);
            && Carries(r.1, pid, ctx.cc, r.0.cc)
            && (pid == VIDEO_PID || pid == AUDIO_PID ==>
                  Bodies(Channel(r.1, pid)) == PesOf(ctx.vcodec, ctx.acodec, steps, pid))
    decreases |steps|
  {
    hide Carries, Apply, PesOfStep, Refused;
    NothingCarried(pid, ctx.cc);
    if steps != [] {
      var s, rest := steps[0], steps[1..];
      var o := Apply(ctx, s);
      ApplyStep(ctx, s, pid);
      RefusedExactly(ctx, s);
      RunIsLossless(o.ctx, rest, pid);
      var r := Run(o.ctx, rest);
      CarriesConcat(o.packets, r.1, pid, ctx.cc, o.ctx.cc, r.0.cc);
      ChannelConcat(o.packets, r.1, pid);
      BodiesConcat(Channel(o.packets, pid), Channel(r.1, pid));
    }
  }

  /** Tables go out exactly when the codecs are new and there are tables for them. */
  lemma TablesExactly(ctx: Context, m: Message, vc: nat, ac: nat)
    ensures Channel(Apply(ctx, Encode(m, vc, ac)).packets, PAT_PID) != []
            <==> (ctx.vcodec != vc || ctx.acodec != ac) && (vc == AVC || ac == AAC)
  {
    hide Tables, EncodePes, Clocked, PidOf, Message.Pid;
    var s := Encode(m, vc, ac);
    RefusedExactly(ctx, s);
    NoPackets(PAT_PID, true, 0);
    if Apply(ctx, s).ok {
      var t := TablesCarry(ctx, s, PAT_PID);
      var p := EncodePes(t.ctx, Clocked(m, vc));
      MediaIsNoTable(t.ctx, Clocked(m, vc));
      ChannelConcat(t.packets, p.packets, PAT_PID);
      if ctx.vcodec != vc || ctx.acodec != ac { TablesStep(ctx, vc, ac, PAT_PID); }
    }
  }

  lemma MediaIsNoTable(ctx: Context, m: Message)
    ensures Channel(EncodePes(ctx, m).packets, PAT_PID) == []
  {
    hide PidOf, Packets, Pes;
    if m.payload != [] {
      PacketsReadBack(m, Pes(m), true, Counter(ctx.cc, m.Pid()));
      ChannelOfOne(EncodePes(ctx, m).packets, m.Pid(), PAT_PID);
    }
  }

  /** The first message after a reset is preceded by the two program tables. */
  lemma ResetBringsTables(ctx: Context, m: Message, vc: nat, ac: nat)
    requires vc == AVC || ac == AAC
    ensures var o := Apply(Apply(ctx, Reset).ctx, Encode(m, vc, ac));
            && o.ok && |o.packets| >= 2
            && PidOf(o.packets[0]) == PAT_PID && PidOf(o.packets[1]) == PMT_PID
            && o.packets[0] == Psi(PAT_PID, PAT_SECTION, Counter(ctx.cc, PAT_PID))
            && o.packets[1] == Psi(PMT_PID, PmtSection(vc == AVC, ac == AAC), Counter(ctx.cc, PMT_PID))
  {
    hide PidOf, EncodePes, Tables, Counter, Psi, PmtSection;
    var c := Apply(ctx, Reset).ctx;
    TablesStep(c, vc, ac, PAT_PID);
    TablesAre(c, vc, ac);
    PesStep(Tables(c, vc, ac).ctx, Clocked(m, vc), PAT_PID);
  }

  lemma TablesAre(ctx: Context, vc: nat, ac: nat)
    requires vc == AVC || ac == AAC
    ensures Tables(ctx, vc, ac).packets
            == [Psi(PAT_PID, PAT_SECTION, Counter(ctx.cc, PAT_PID)),
                Psi(PMT_PID, PmtSection(vc == AVC, ac == AAC), Counter(ctx.cc, PMT_PID))]
  {
    hide Psi, PmtSection;
  }

  /** A codec pair without AVC or AAC is refused once and then goes out without any tables. */
  lemma UnsupportedTwice(ctx: Context, m: Message, vc: nat, ac: nat)
    requires vc != AVC && ac != AAC && (ctx.vcodec != vc || ctx.acodec != ac)
    ensures var first := Apply(ctx, Encode(m, vc, ac));
            var second := Apply(first.ctx, Encode(m, vc, ac));
            !first.ok && first.packets == [] && second.ok && OnPid(second.packets, m.Pid())
  {
    var c := ctx.(vcodec := vc, acodec := ac);
    var k := Clocked(m, vc);
    ClockedKeeps(m, vc);
    var o := EncodePes(c, k);
    if k.payload != [] { PacketsReadBack(k, Pes(k), true, Counter(c.cc, k.Pid())); }
    assert [] + o.packets == o.packets;
  }

  lemma StampPrefix(b: bytes, rest: bytes)
    requires |b| == 5
    ensures ReadStamp(b + rest) == ReadStamp(b)
  {
  }
}
