/**
 The packetiser as the code runs it: 188-byte buffers filled by index, one continuity counter per
 channel, and the codecs remembered since the last tables.
 */
module TsContext {
  import opened Bytes
  import opened Ts
  import Crc32

  /** Fills `pkt` with the packet for the PES bytes from `pos` on. */
  method FillPacket(pkt: array<byte>, m: Message, pes: bytes, pos: nat, first: bool, cc: nat) returns (body: nat)
    requires pkt.Length == PACKET && pos < |pes|
    modifies pkt
    ensures pkt[..] == NextPacket(m, pes[pos..], first, cc) && body == BodySize(m, pes[pos..], first)
  {
    hide Pcr, Message.Pid, Message.IsVideo, Adaptation;
    var pid := m.Pid();
    assert pid < 0x2000 by { PidSmall(m); }
    var left := |pes| - pos;
    var pcr := first && m.writePcr;
    var size := if pcr then 8 else 0;
    if 184 - size > left { size := 184 - left; }
    pkt[0], pkt[1], pkt[2] := 0x47, (if first then 0x40 else 0) + pid / 0x100, pid % 0x100;
    pkt[3] := (if size > 0 then 0x30 else 0x10) + cc % 16;
    assert pkt[..4] == PacketHeader(pid, first, size > 0, cc);
    FillAdaptation(pkt, size, pcr, m.IsVideo(), m.dts);
    body := PACKET - (4 + size);
    PutBytes(pkt, 4 + size, pes[pos..pos + body]);
    assert pes[pos..][..body] == pes[pos..pos + body];
    assert pkt[..] == pkt[..PACKET];
  }

  /** The adaptation field behind the four header bytes. */
  method FillAdaptation(pkt: array<byte>, size: nat, pcr: bool, video: bool, dts: int)
    requires pkt.Length == PACKET && size <= 183 && (pcr ==> size >= 8)
    modifies pkt
    ensures pkt[..4 + size] == old(pkt[..4]) + Adaptation(size, pcr, video, dts)
  {
    hide Pcr;
    ghost var head := pkt[..4];
    if size == 1 {
      pkt[4] := 0;
      assert pkt[..5] == head + [0];
    } else if size > 1 {
      var flags := if pcr then (if video then 0x50 else 0x10) else 0;
      PutBytes(pkt, 4, [size - 1, flags]);
      if pcr {
        PutBytes(pkt, 6, Pcr(dts));
        Stuff(pkt, 12, 4 + size);
        assert head + [size - 1, flags] + Pcr(dts) + Stuffing(size - 8)
               == head + ([size - 1, flags] + Pcr(dts) + Stuffing(size - 8));
      } else {
        Stuff(pkt, 6, 4 + size);
        assert head + [size - 1, flags] + Stuffing(size - 2) == head + ([size - 1, flags] + Stuffing(size - 2));
      }
    }
  }

  lemma PidSmall(m: Message)
    ensures m.Pid() < 0x2000
  {
  }

  method PutBytes(pkt: array<byte>, at: nat, b: bytes)
    requires at + |b| <= pkt.Length
    modifies pkt
    ensures pkt[..at + |b|] == old(pkt[..at]) + b
  {
    forall i | 0 <= i < |b| { pkt[at + i] := b[i]; }
  }

  method Stuff(pkt: array<byte>, from: nat, to: nat)
    requires from <= to <= pkt.Length
    modifies pkt
    ensures pkt[..to] == old(pkt[..from]) + Stuffing(to - from)
  {
    var p := from;
    while p < to
      invariant from <= p <= to
      invariant pkt[..p] == old(pkt[..from]) + Stuffing(p - from)
    {
      pkt[p] := 0xff;
      assert pkt[..p + 1] == pkt[..p] + [0xff];
      p := p + 1;
    }
  }

  /** A program table in one packet, filled up with ones. */
  method WritePsi(pid: nat, section: bytes, cc: nat) returns (p: Packet)
    requires pid < 0x2000 && |section| <= 179
    ensures p == Psi(pid, section, cc)
  {
    hide Crc32.Crc, Crc32.Trailer, Stuffing;
    var pkt := new byte[PACKET];
    var crc := Crc32.Crc32(section);
    var head := PacketHeader(pid, true, false, cc) + [0] + section + Crc32.Trailer(crc);
    PutBytes(pkt, 0, head);
    Stuff(pkt, |head|, PACKET);
    assert pkt[..0] == [] && [] + head == head;
    p := pkt[..PACKET];
  }

  /** The whole PES packet, and the channel's counter afterwards. */
  method SplitPes(m: Message, pes: bytes, cc: nat) returns (sent: seq<Packet>, counter: nat)
    requires pes != []
    ensures sent == Packets(m, pes, true, cc) && counter == (cc + |sent|) % 256
  {
    hide NextPacket, BodySize;
    var pos, first := 0, true;
    sent, counter := [], cc;
    assert pes[0..] == pes;
    while pos < |pes|
      invariant pos <= |pes|
      invariant sent + Packets(m, pes[pos..], first, counter) == Packets(m, pes, true, cc)
      invariant counter == if pos == 0 then cc else (cc + |sent|) % 256
      invariant pos == 0 <==> |sent| == 0
    {
      var pkt := new byte[PACKET];
      var body := FillPacket(pkt, m, pes, pos, first, counter);
      var packet: Packet := pkt[..];
      ghost var rest := Packets(m, pes[pos + body..], false, (counter + 1) % 256);
      assert Packets(m, pes[pos..], first, counter)
             == [packet] + rest by { assert pes[pos..][body..] == pes[pos + body..]; }
      assert sent + ([packet] + rest) == (sent + [packet]) + rest;
      CounterStep(cc + |sent|);
      sent, counter := sent + [packet], (counter + 1) % 256;
      pos, first := pos + body, false;
    }
    assert sent + [] == sent;
  }

  lemma PesNotEmpty(m: Message)
    ensures Pes(m) != []
  {
  }

  class Packetiser {
    var vcodec: nat
    var acodec: nat
    var cc: map<nat, nat>
    var written: seq<Packet>

    function View(): Context
      reads this
    {
      Context(vcodec, acodec, cc)
    }

    constructor ()
      ensures View() == Context(0, 0, map[]) && written == []
    {
      vcodec, acodec, cc, written := 0, 0, map[], [];
    }

    /** Forgets the codecs; the counters go on. */
    method ResetCodecs()
      modifies this
      ensures View() == Apply(old(View()), Reset).ctx && written == old(written)
    {
      vcodec, acodec := 0, 0;
    }

    method EncodePatPmt() returns (ok: bool)
      modifies this
      ensures var o := Tables(old(View()), old(vcodec), old(acodec));
              ok == o.ok && View() == o.ctx && written == old(written) + o.packets
    {
      hide Psi, PmtSection;
      var video, audio := vcodec == AVC, acodec == AAC;
      if !video && !audio {
        assert written + [] == written;
        return false;
      }
      var pat := WritePsi(PAT_PID, PAT_SECTION, Counter(cc, PAT_PID));
      cc := Bump(cc, PAT_PID, 1);
      var pmt := WritePsi(PMT_PID, PmtSection(video, audio), Counter(cc, PMT_PID));
      cc := Bump(cc, PMT_PID, 1);
      written := written + [pat, pmt];
      return true;
    }

    method EncodePes(m: Message)
      modifies this`cc, this`written
      ensures var o := Ts.EncodePes(old(View()), m);
              View() == o.ctx && written == old(written) + o.packets
    {
      hide Packets, Pes;
      if m.payload == [] {
        assert written + [] == written;
        return;
      }
      var pid, pes := m.Pid(), Pes(m);
      PesNotEmpty(m);
      var sent, counter := SplitPes(m, pes, Counter(cc, pid));
      cc := cc[pid := counter];
      written := written + sent;
    }

    /** Tables first if the codecs changed, then the message. */
    method EncodeMessage(m: Message, vc: nat, ac: nat) returns (ok: bool)
      modifies this
      ensures var o := Apply(old(View()), Encode(m, vc, ac));
              ok == o.ok && View() == o.ctx && written == old(written) + o.packets
    {
      hide Tables, Ts.EncodePes, Clocked;
      ghost var before := written;
      if vcodec != vc || acodec != ac {
        TablesForget(View(), vc, ac);
        vcodec, acodec := vc, ac;
        ok := EncodePatPmt();
        if !ok { return; }
      }
      ghost var middle := written;
      EncodePes(Clocked(m, vc));
      ghost var tables := middle[|before|..];
      assert before + [] == before;
      assert forall a: seq<Packet>, b: seq<Packet> :: before + a + b == before + (a + b);
      ok := true;
    }
  }

  lemma TablesForget(ctx: Context, vc: nat, ac: nat)
    ensures Tables(ctx, vc, ac) == Tables(ctx.(vcodec := vc, acodec := ac), vc, ac)
  {
  }

  lemma CounterStep(n: nat)
    ensures (n % 256 + 1) % 256 == (n + 1) % 256
  {
  }
}
