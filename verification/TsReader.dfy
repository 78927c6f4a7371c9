/**
 A demultiplexer written from sections 2.4.3.2 to 2.4.4.9 of ISO/IEC 13818-1 alone, and what it finds
 in the packets of any run: the messages served, with their clocks, and the tables that lead to them.
 */
module TsReader {
  import opened Bytes
  import opened Ts
  import opened TsProofs
  import Crc32

  // ----- PES packets

  /** One PES packet: stream id, both clocks, payload. */
  datatype Unit = Unit(sid: byte, pts: nat, dts: nat, payload: bytes)

  /** A clock with the four bits before it and its marker bits. */
  predicate IsStamp(b: bytes, mark: nat) {
    |b| >= 5 && b[0] / 16 == mark && b[0] % 2 == 1 && b[2] % 2 == 1 && b[4] % 2 == 1
  }

  /** The payload starts where the header says that it ends; a length of zero is open-ended. */
  function ReadPes(b: bytes): Option<Unit> {
    if |b| < 9 || b[..3] != [0, 0, 1] || b[6] / 0x40 != 2 || |b| < 9 + b[8] as int then None
    else if U16(b[4..]) != 0 && U16(b[4..]) != |b| - 6 then None
    else if b[7] / 0x40 == 2 && b[8] >= 5 && IsStamp(b[9..], 2) then
      Some(Unit(b[3], ReadStamp(b[9..]), ReadStamp(b[9..]), b[9 + b[8] as int..]))
    else if b[7] / 0x40 == 3 && b[8] >= 10 && IsStamp(b[9..], 3) && IsStamp(b[14..], 1) then
      Some(Unit(b[3], ReadStamp(b[9..]), ReadStamp(b[14..]), b[9 + b[8] as int..]))
    else None
  }

  function UnitOf(m: Message): Unit { Unit(m.sid, m.pts % 0x2_0000_0000, m.dts % 0x2_0000_0000, m.payload) }

  lemma StampIsStamp(mark: nat, clock: int, rest: bytes)
    requires mark < 16
    ensures IsStamp(Stamp(mark, clock) + rest, mark) && ReadStamp(Stamp(mark, clock) + rest) == clock % 0x2_0000_0000
  {
    hide Stamp, ReadStamp;
    StampRoundTrip(mark, clock);
    StampPrefix(Stamp(mark, clock), rest);
  }

  function PtsOf(m: Message): (b: bytes) ensures |b| == 5 { Stamp(if m.dts != m.pts then 3 else 2, m.pts) }

  function DtsOf(m: Message): bytes { if m.dts != m.pts then Stamp(1, m.dts) else [] }

  lemma PesLayout(m: Message)
    ensures var b, both := Pes(m), m.dts != m.pts;
            && |b| == 9 + (if both then 10 else 5) + |m.payload|
            && b[..3] == [0, 0, 1] && b[3] == m.sid
            && U16(b[4..]) == (if |b| - 6 > 0xffff then 0 else |b| - 6)
            && b[6] == 0x80 && b[7] == (if both then 0xc0 else 0x80) && b[8] == (if both then 10 else 5)
            && b[9..] == PtsOf(m) + (DtsOf(m) + m.payload)
  {
    hide Stamp, BE2, U16;
    var b, both := Pes(m), m.dts != m.pts;
    var length := |b| - 6;
    var field := if length > 0xffff then 0 else length;
    var tail := [0x80, if both then 0xc0 else 0x80, if both then 10 else 5] + (PtsOf(m) + (DtsOf(m) + m.payload));
    assert b == [0, 0, 1, m.sid] + (BE2(field) + tail);
    assert b[4..] == BE2(field) + tail;
    U16OfBE2(field, tail);
  }

  /** Every PES packet reads back: stream id, both clocks modulo 2^33, and the payload, whole. */
  lemma PesReadsBack(m: Message)
    ensures ReadPes(Pes(m)) == Some(UnitOf(m))
  {
    hide Pes, Stamp, ReadStamp, IsStamp, U16;
    var b, both := Pes(m), m.dts != m.pts;
    PesLayout(m);
    StampIsStamp(if both then 3 else 2, m.pts, DtsOf(m) + m.payload);
    if both {
      assert b[14..] == b[9..][5..] == DtsOf(m) + m.payload;
      StampIsStamp(1, m.dts, m.payload);
    }
    assert b[9 + b[8] as int..] == b[9..][b[8] as int..] == m.payload;
  }

  // ----- a channel

  function Leading(ps: seq<Packet>): (n: nat)
    ensures n <= |ps|
  {
    if ps == [] || StartOf(ps[0]) then 0 else 1 + Leading(ps[1..])
  }

  /** A PES packet goes from one packet with the start flag up to the next one. */
  function Split(ps: seq<Packet>): seq<seq<Packet>> {
    if ps == [] then []
    else
      var n := 1 + Leading(ps[1..]);
      [ps[..n]] + Split(ps[n..])
  }

  /** The random access flag of the adaptation field. */
  predicate Random(p: Packet) { HasAdaptation(p) && p[4] >= 1 && p[5] / 0x40 % 2 == 1 }

  /** What arrives with one PES packet: it, the program clock of its first packet, and whether a player
      can start there. */
  datatype Arrival = Arrival(unit: Option<Unit>, clock: Option<nat>, random: bool)

  function ArrivalOf(ps: seq<Packet>): Arrival {
    Arrival(ReadPes(Bodies(ps)), if ps == [] then None else ClockOf(ps[0]), ps != [] && Random(ps[0]))
  }

  function Arrivals(parts: seq<seq<Packet>>): seq<Arrival> {
    if parts == [] then [] else [ArrivalOf(parts[0])] + Arrivals(parts[1..])
  }

  function Demux(ps: seq<Packet>, pid: nat): seq<Arrival> { Arrivals(Split(Channel(ps, pid))) }

  // ----- what should arrive

  /** Audio stream ids are 0xc0 to 0xdf; audio goes out on channel 0x101, video on 0x100. */
  function ChannelOf(m: Message): nat { if 0xc0 <= m.sid <= 0xdf then 0x101 else 0x100 }

  /** A player can start at video, stream ids 0xe0 to 0xef, that comes with a clock. */
  function Arriving(m: Message, timed: bool): Arrival {
    Arrival(Some(UnitOf(m)), if timed then Some(m.dts % 0x2_0000_0000) else None, timed && 0xe0 <= m.sid <= 0xef)
  }

  /** A step's message, unless it is empty. Without H.264, codec 7, every audio message has a clock. */
  function Served(s: Step, pid: nat): seq<Arrival> {
    if s.Reset? || s.msg.payload == [] || ChannelOf(s.msg) != pid then []
    else
      [Arriving(s.msg, s.msg.writePcr || (s.vcodec != 7 && ChannelOf(s.msg) == 0x101))]
  }

  /** A message with new codecs is refused if neither is supported: H.264 is 7, AAC is 10. */
  predicate IsRefused(vcodec: nat, acodec: nat, s: Step) {
    s.Encode? && s.vcodec != 7 && s.acodec != 10 && (vcodec != s.vcodec || acodec != s.acodec)
  }

  function AllServed(vcodec: nat, acodec: nat, steps: seq<Step>, pid: nat): seq<Arrival>
    decreases |steps|
  {
    if steps == [] then []
    else
      var s := steps[0];
      (if IsRefused(vcodec, acodec, s) then [] else Served(s, pid))
      + if s.Reset? then AllServed(0, 0, steps[1..], pid) else AllServed(s.vcodec, s.acodec, steps[1..], pid)
  }

  // ----- proofs

  lemma {:induction false} LeadingOf(a: seq<Packet>, b: seq<Packet>)
    requires b == [] || StartOf(b[0])
    ensures Leading(a + b) == Leading(a)
  {
    hide StartOf;
    if a == [] {
      assert a + b == b;
    } else {
      assert (a + b)[1..] == a[1..] + b;
      LeadingOf(a[1..], b);
    }
  }

  lemma FirstUnit(ps: seq<Packet>, n: nat)
    requires ps != [] && n == 1 + Leading(ps[1..])
    ensures n <= |ps| && Split(ps) == [ps[..n]] + Split(ps[n..])
  {
    hide StartOf, Leading;
    var k := 1 + Leading(ps[1..]);
    assert Split(ps) == [ps[..k]] + Split(ps[k..]);
  }

  lemma {:induction false} SplitConcat(a: seq<Packet>, b: seq<Packet>)
    requires b == [] || StartOf(b[0])
    ensures Split(a + b) == Split(a) + Split(b)
    decreases |a|
  {
    hide StartOf, Split, Leading;
    if a == [] {
      assert a + b == b;
      NothingArrives(0);
      assert [] + Split(b) == Split(b);
    } else {
      var n := 1 + Leading(a[1..]);
      FirstUnit(a, n);
      assert (a + b)[1..] == a[1..] + b;
      LeadingOf(a[1..], b);
      FirstUnit(a + b, n);
      assert (a + b)[..n] == a[..n] && (a + b)[n..] == a[n..] + b;
      SplitConcat(a[n..], b);
      Assoc([a[..n]], Split(a[n..]), Split(b));
    }
  }

  lemma {:induction false} NoLeading(ps: seq<Packet>)
    requires forall i :: 0 <= i < |ps| ==> !StartOf(ps[i])
    ensures Leading(ps) == |ps|
  {
    if ps != [] { NoLeading(ps[1..]); }
  }

  lemma SplitOne(ps: seq<Packet>)
    requires ps != [] && Flagged(ps, true)
    ensures Split(ps) == [ps]
  {
    hide StartOf;
    assert forall i :: 0 <= i < |ps[1..]| ==> ps[1..][i] == ps[i + 1];
    NoLeading(ps[1..]);
    assert ps[..|ps|] == ps && ps[|ps|..] == [];
  }

  lemma {:induction false} ArrivalsConcat(a: seq<seq<Packet>>, b: seq<seq<Packet>>)
    ensures Arrivals(a + b) == Arrivals(a) + Arrivals(b)
  {
    hide ArrivalOf;
    if a == [] {
      assert a + b == b;
    } else {
      assert (a + b)[1..] == a[1..] + b;
      ArrivalsConcat(a[1..], b);
    }
  }

  /** The packets of one step on a media channel: one PES packet or none. */
  lemma StepArrives(ctx: Context, s: Step, pid: nat)
    requires pid == 0x100 || pid == 0x101
    ensures var ps := Channel(Apply(ctx, s).packets, pid);
            && (ps == [] || StartOf(ps[0]))
            && Arrivals(Split(ps)) == if IsRefused(ctx.vcodec, ctx.acodec, s) then [] else Served(s, pid)
  {
    hide Tables, EncodePes, Pes, Channel, StartOf, Message.IsAudio, Message.IsVideo, Clocked, Split, Arrivals;
    RefusedExactly(ctx, s);
    NothingArrives(pid);
    if s.Encode? && Apply(ctx, s).ok {
      var t := TablesCarry(ctx, s, pid);
      var m := Clocked(s.msg, s.vcodec);
      MessageArrives(t.ctx, m, pid);
      ClockedIs(s.msg, s.vcodec);
      var p := EncodePes(t.ctx, m);
      ChannelConcat(t.packets, p.packets, pid);
      assert [] + Channel(p.packets, pid) == Channel(p.packets, pid);
    }
  }

  lemma ClockedIs(m: Message, vcodec: nat)
    ensures Clocked(m, vcodec) == m.(writePcr := m.writePcr || (vcodec != 7 && ChannelOf(m) == 0x101))
  {
  }

  lemma NothingArrives(pid: nat)
    ensures Channel([], pid) == [] && Split([]) == [] && Arrivals([]) == []
  {
  }

  lemma PidIs(m: Message)
    ensures m.Pid() == ChannelOf(m)
  {
  }

  lemma MessageArrives(ctx: Context, m: Message, pid: nat)
    ensures var ps := Channel(EncodePes(ctx, m).packets, pid);
            && (ps == [] || StartOf(ps[0]))
            && Arrivals(Split(ps))
               == if m.payload == [] || ChannelOf(m) != pid then [] else [Arriving(m, m.writePcr)]
  {
    hide Pes, Channel, StartOf, Message.Pid, Split, Arrivals, Packets, ClockOf, Bodies, ReadPes, ChannelOf, UnitOf,
         Counter, Bump, Random;
    NothingArrives(pid);
    PidIs(m);
    if m.payload != [] {
      var c := Counter(ctx.cc, m.Pid());
      var ps := Packets(m, Pes(m), true, c);
      assert EncodePes(ctx, m).packets == ps;
      PesNotEmpty(m);
      PacketsReadBack(m, Pes(m), true, c);
      ChannelOfOne(ps, m.Pid(), pid);
      if m.Pid() == pid {
        SplitOne(ps);
        PesReadsBack(m);
        OneArrival(ps);
        FirstIsRandom(m, Pes(m), c);
      }
    }
  }

  lemma PesNotEmpty(m: Message)
    ensures Pes(m) != []
  {
  }

  lemma OneArrival(ps: seq<Packet>)
    requires ps != []
    ensures Arrivals([ps]) == [Arrival(ReadPes(Bodies(ps)), ClockOf(ps[0]), Random(ps[0]))]
  {
    hide ReadPes, Bodies, ClockOf, Random;
    assert [ps][1..] == [];
  }

  /** Over any run, across resets, codec changes and refusals, a demultiplexer finds on each media
      channel exactly the messages served, in order: stream id, both clocks modulo 2^33, the program
      clock and the random access flag where they are due, and the payload, byte for byte. */
  lemma {:induction false} RunArrives(ctx: Context, steps: seq<Step>, pid: nat)
    requires pid == 0x100 || pid == 0x101
    ensures Demux(Run(ctx, steps).1, pid) == AllServed(ctx.vcodec, ctx.acodec, steps, pid)
    ensures var ps := Channel(Run(ctx, steps).1, pid); ps == [] || StartOf(ps[0])
    decreases |steps|
  {
    hide Apply, Served, IsRefused, Channel, Split, Arrivals, StartOf;
    NothingArrives(pid);
    if steps != [] {
      var o := Apply(ctx, steps[0]);
      var rest := Run(o.ctx, steps[1..]).1;
      StepArrives(ctx, steps[0], pid);
      RefusedExactly(ctx, steps[0]);
      RunArrives(o.ctx, steps[1..], pid);
      ChannelConcat(o.packets, rest, pid);
      SplitConcat(Channel(o.packets, pid), Channel(rest, pid));
      ArrivalsConcat(Split(Channel(o.packets, pid)), Split(Channel(rest, pid)));
    }
  }

  // ----- every packet

  /** What the standard asks of each packet: the sync byte, no error, no scrambling, a payload; in an
      adaptation field no flags but those of clock and random access, the clock's reserved bits set and
      its extension zero, and stuffing of ones. */
  predicate Strict(p: Packet) {
    && p[0] == 0x47 && p[1] / 0x80 == 0 && p[3] / 0x40 == 0 && p[3] / 0x10 % 2 == 1
    && (HasAdaptation(p) ==> p[4] <= 182)
    && (HasAdaptation(p) && p[4] >= 1 ==>
          && (p[5] == 0 || ((p[5] == 0x10 || p[5] == 0x50) && p[4] >= 7 && p[10] % 0x80 == 0x7e && p[11] == 0))
          && forall i :: (if p[5] == 0 then 6 else 12) <= i < 5 + p[4] as int ==> p[i] == 0xff)
  }

  lemma HeaderIsStrict(pid: nat, start: bool, adaptation: bool, cc: nat)
    requires pid < 0x2000
    ensures var h := PacketHeader(pid, start, adaptation, cc);
            h[0] == 0x47 && h[1] / 0x80 == 0 && h[3] / 0x40 == 0 && h[3] / 0x10 % 2 == 1
                && h[3] / 0x20 % 2 == (if adaptation then 1 else 0)
  {
  }

  lemma FieldIsStrict(n: nat, pcr: bool, video: bool, dts: int)
    requires n <= 183 && (pcr ==> n >= 8)
    ensures var a := Adaptation(n, pcr, video, dts);
            && (n > 0 ==> a[0] == n - 1)
            && (n > 1 ==> a[1] == if pcr then if video then 0x50 else 0x10 else 0)
            && (pcr ==> a[6] % 0x80 == 0x7e && a[7] == 0)
            && forall i :: (if pcr then 8 else 2) <= i < n ==> a[i] == 0xff
  {
  }

  lemma NextIsStrict(m: Message, pes: bytes, first: bool, cc: nat)
    requires pes != []
    ensures var p := NextPacket(m, pes, first, cc);
            Strict(p) && Random(p) == (first && m.writePcr && 0xe0 <= m.sid <= 0xef)
  {
    hide PacketHeader, Adaptation;
    var pcr := first && m.writePcr;
    var n := AdaptationSize(pcr, |pes|);
    var h, a := PacketHeader(m.Pid(), first, n > 0, cc), Adaptation(n, pcr, m.IsVideo(), m.dts);
    var p := NextPacket(m, pes, first, cc);
    HeaderIsStrict(m.Pid(), first, n > 0, cc);
    FieldIsStrict(n, pcr, m.IsVideo(), m.dts);
    assert forall i :: 0 <= i < 4 ==> p[i] == h[i];
    assert forall i :: 0 <= i < n ==> p[4 + i] == a[i];
    assert p[3] == h[3];
    if n > 1 {
      assert p[5] == a[1];
      if pcr { assert p[10] == a[6] && p[11] == a[7]; }
      forall i | (if p[5] == 0 then 6 else 12) <= i < 5 + p[4] as int ensures p[i] == 0xff {
        assert p[i] == a[i - 4];
      }
    }
  }

  lemma FirstIsRandom(m: Message, pes: bytes, cc: nat)
    requires pes != []
    ensures Random(Packets(m, pes, true, cc)[0]) == (m.writePcr && 0xe0 <= m.sid <= 0xef)
  {
    hide Random, NextPacket;
    NextIsStrict(m, pes, true, cc);
  }

  predicate AllStrict(ps: seq<Packet>) { forall i :: 0 <= i < |ps| ==> Strict(ps[i]) }

  lemma {:induction false} PacketsAreStrict(m: Message, pes: bytes, first: bool, cc: nat)
    ensures AllStrict(Packets(m, pes, first, cc))
    decreases |pes|
  {
    hide Strict, NextPacket, BodySize, Random;
    if pes != [] {
      NextIsStrict(m, pes, first, cc);
      PacketsAreStrict(m, pes[BodySize(m, pes, first)..], false, (cc + 1) % 256);
    }
  }

  lemma TableIsStrict(pid: nat, section: bytes, cc: nat)
    requires pid < 0x2000 && |section| <= 179
    ensures Strict(Psi(pid, section, cc))
  {
    hide PacketHeader, Crc32.Crc, Crc32.Trailer;
    HeaderIsStrict(pid, true, false, cc);
    var p, h := Psi(pid, section, cc), PacketHeader(pid, true, false, cc);
    assert p[0] == h[0] && p[1] == h[1] && p[3] == h[3];
  }

  lemma StepIsStrict(ctx: Context, s: Step)
    ensures AllStrict(Apply(ctx, s).packets)
  {
    hide Strict, Psi, Packets, PmtSection, Pes, Counter, Bump;
    if s.Encode? {
      TableIsStrict(PAT_PID, PAT_SECTION, Counter(ctx.cc, PAT_PID));
      TableIsStrict(PMT_PID, PmtSection(s.vcodec == AVC, s.acodec == AAC), Counter(ctx.cc, PMT_PID));
      var m := Clocked(s.msg, s.vcodec);
      var c := if ctx.vcodec != s.vcodec || ctx.acodec != s.acodec then Tables(ctx, s.vcodec, s.acodec).ctx else ctx;
      PacketsAreStrict(m, Pes(m), true, Counter(c.cc, m.Pid()));
    }
  }

  /** Over any run every packet is as the standard asks. */
  lemma {:induction false} RunIsStrict(ctx: Context, steps: seq<Step>)
    ensures AllStrict(Run(ctx, steps).1)
    decreases |steps|
  {
    hide Apply, Strict;
    if steps != [] {
      StepIsStrict(ctx, steps[0]);
      RunIsStrict(Apply(ctx, steps[0]).ctx, steps[1..]);
    }
  }

  /** In a run from the start the packets of each channel are counted from zero, modulo 16. */
  lemma RunCounts(steps: seq<Step>, pid: nat, i: nat)
    requires var ps := Channel(Run(Context(0, 0, map[]), steps).1, pid); i < |ps|
    ensures CcOf(Channel(Run(Context(0, 0, map[]), steps).1, pid)[i]) == i % 16
  {
    hide Run, Channel, CcOf, Bodies, PesOf;
    RunIsLossless(Context(0, 0, map[]), steps, pid);
  }

  // ----- tables

  /** The section of a table packet, without its CRC, if start flag, pointer, syntax bits and CRC are
      right, and it is the only section of version 0, now valid. Its length counts from behind itself. */
  function ReadSection(p: Packet): Option<bytes> {
    var length := p[6] % 16 * 0x100 + p[7] as int;
    if p[0] != 0x47 || !StartOf(p) || HasAdaptation(p) || p[4] != 0 || length < 4 || 8 + length > 188 then None
    else if p[6] / 0x10 != 0x0b || p[10..13] != [0xc1, 0, 0] then None
    else if Crc32.Crc(p[5..8 + length]) != Crc32.Zeros(32) then None
    else Some(p[5..8 + length - 4])
  }

  lemma SectionReadsBack(pid: nat, section: bytes, cc: nat)
    requires pid < 0x2000 && 8 <= |section| <= 179 && section[1] == 0xb0 && section[2] as int == |section| + 1
    requires section[5] == 0xc1 && section[6] == 0 && section[7] == 0
    ensures ReadSection(Psi(pid, section, cc)) == Some(section)
  {
    hide PacketHeader, StartOf, HasAdaptation, Crc32.Crc, Crc32.Trailer, PidOf, CcOf;
    var p := Psi(pid, section, cc);
    PsiReadsBack(pid, section, cc);
    assert p[0] == 0x47 && p[4] == 0 by { SyncByte(pid, cc); }
    var q := p[5..5 + |section|];
    assert p[6] == q[1] && p[7] == q[2] && p[10] == q[5] && p[11] == q[6] && p[12] == q[7];
  }

  lemma SyncByte(pid: nat, cc: nat)
    requires pid < 0x2000
    ensures PacketHeader(pid, true, false, cc)[0] == 0x47
  {
  }

  predicate Framed(s: bytes) {
    |s| >= 12 && s[1] == 0xb0 && s[2] as int == |s| + 1 && s[5] == 0xc1 && s[6] == 0 && s[7] == 0
  }

  lemma Sections(video: bool, audio: bool)
    ensures Framed(PAT_SECTION) && Framed(PmtSection(video, audio))
    ensures U16(PAT_SECTION[8..]) == 1 && U16(PmtSection(video, audio)[3..]) == 1 && U16(PAT_SECTION[3..]) == 1
  {
  }

  /** The first two packets of a message with new codecs are the tables: on channel 0 the association
      table of transport stream 1, which names channel 0x1001 for program 1; there the map of program 1,
      which lists video as type 0x1b on channel 0x100 and audio as type 0x0f on channel 0x101, as far as
      they are present, and the clock on the video channel if there is video. */
  lemma TablesLead(ctx: Context, m: Message, vc: nat, ac: nat)
    requires (vc == 7 || ac == 10) && (ctx.vcodec != vc || ctx.acodec != ac)
    ensures var ps := Apply(ctx, Encode(m, vc, ac)).packets;
            && |ps| >= 2 && PidOf(ps[0]) == 0 && PidOf(ps[1]) == 0x1001
            && ReadSection(ps[0]).Some? && ReadPat(ReadSection(ps[0]).value) == Some(0x1001)
            && ReadSection(ps[1]).Some? && |ReadSection(ps[0]).value| >= 12 && |ReadSection(ps[1]).value| >= 12
            && U16(ReadSection(ps[0]).value[3..]) == 1
            && U16(ReadSection(ps[0]).value[8..]) == U16(ReadSection(ps[1]).value[3..]) == 1
            && ReadPmt(ReadSection(ps[1]).value)
               == Some((if vc == 7 then 0x100 else 0x101,
                        (if vc == 7 then [Stream(0x1b, 0x100)] else [])
                        + if ac == 10 then [Stream(0x0f, 0x101)] else []))
  {
    hide PidOf, EncodePes, Tables, Counter, Psi, PmtSection, ReadSection, ReadPat, ReadPmt, Channel, StreamInfo, U16;
    TablesStep(ctx, vc, ac, 0);
    TablesAre(ctx, vc, ac);
    Sections(vc == 7, ac == 10);
    SectionReadsBack(0, PAT_SECTION, Counter(ctx.cc, 0));
    SectionReadsBack(0x1001, PmtSection(vc == 7, ac == 10), Counter(ctx.cc, 0x1001));
    TablesNameStreams(vc == 7, ac == 10);
  }
}
