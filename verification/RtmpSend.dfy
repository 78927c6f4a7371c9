/**
 The sending half: every message goes out as one format-0 chunk followed by format-3 chunks, each
 repeating an extended timestamp. The round trip says the receiving half gives back what was sent.
 */
module RtmpSend {
  import opened Bytes
  import opened RtmpChunk
  import opened RtmpPeer
  import opened RtmpControl

  const PROTOCOL_CID := 2

  /** A message to send; only the low 32 bits of `timestamp` reach the wire. */
  datatype Outgoing = Outgoing(cid: nat, mtype: byte, sid: nat, timestamp: int, payload: bytes)

  /** A raw message, or the packet that changes the outgoing chunk size once it is sent. */
  datatype Item = Raw(msg: Outgoing) | SetChunkSize(size: nat, sid: nat)

  function C0(m: Outgoing): (b: bytes)
    ensures 12 <= |b| <= 16
  {
    var t := m.timestamp % TWO32;
    [m.cid % 64] + BE3(if t < EXTENDED then t else EXTENDED) + BE3(|m.payload|) + [m.mtype] + LE4(m.sid)
    + (if t >= EXTENDED then BE4(t) else [])
  }

  function C3(m: Outgoing): (b: bytes)
    ensures 1 <= |b| <= 5
  {
    var t := m.timestamp % TWO32;
    [192 + m.cid % 64] + (if t >= EXTENDED then BE4(t) else [])
  }

  /** The chunks of `m` from payload offset `off` on. */
  function Chunks(m: Outgoing, size: nat, off: nat): bytes
    requires size > 0
    decreases |m.payload| - off
  {
    if off >= |m.payload| then []
    else
      var n := Min(|m.payload| - off, size);
      (if off == 0 then C0(m) else C3(m)) + m.payload[off..off + n] + Chunks(m, size, off + n)
  }

  function MessageOfItem(it: Item): Outgoing {
    match it
    case Raw(m) => m
    case SetChunkSize(n, sid) => Outgoing(PROTOCOL_CID, SET_CHUNK_SIZE, sid, 0, BE4(n))
  }

  function SizeAfter(it: Item, size: nat): nat {
    if it.SetChunkSize? then it.size else size
  }

  function OutSize(items: seq<Item>, size: nat): nat {
    if items == [] then size else OutSize(items[1..], SizeAfter(items[0], size))
  }

  function Wire(items: seq<Item>, size: nat): bytes
    requires size > 0 && forall it :: it in items ==> ItemOk(it)
  {
    if items == [] then []
    else
      assert ItemOk(items[0]);
      Chunks(MessageOfItem(items[0]), size, 0) + Wire(items[1..], SizeAfter(items[0], size))
  }

  predicate ItemOk(it: Item) {
    match it
    case SetChunkSize(n, sid) => 128 <= n <= 131072 && sid < TWO32
    case Raw(m) => 2 <= m.cid <= 63 && m.sid < TWO32 && |m.payload| < TWO24
                   && m.mtype != 1 && (m.payload != [] ==> ControlOk(m.mtype, m.payload))
  }

  /** What arrives for `m`: everything but the high bits of the timestamp. */
  function Delivered(m: Outgoing): seq<Message> {
    if m.payload == [] then [] else [Message(m.cid, m.mtype, m.sid, m.timestamp % TWO31, m.payload)]
  }

  /** What should arrive for each item: a chunk size change is a message of type 1 on chunk stream 2
      at time zero. */
  function Arriving(it: Item): seq<Message> {
    match it
    case Raw(m) =>
      if m.payload == [] then [] else [Message(m.cid, m.mtype, m.sid, m.timestamp % 0x8000_0000, m.payload)]
    case SetChunkSize(n, sid) => [Message(2, 1, sid, 0, BE4(n))]
  }

  function AllDelivered(items: seq<Item>): seq<Message> {
    if items == [] then [] else Arriving(items[0]) + AllDelivered(items[1..])
  }

  lemma ArrivingIsDelivered(it: Item)
    ensures Delivered(MessageOfItem(it)) == Arriving(it)
  {
  }

  // ----- the sender is an instance of the reference peer

  function PlanOf(m: Outgoing): Plan { Plan(0, m.timestamp % TWO32, m.mtype, m.sid, m.payload) }

  lemma HeadersMatch(m: Outgoing)
    requires 2 <= m.cid <= 63
    ensures C0(m) == BasicHeader(0, m.cid) + (Fields(PlanOf(m)) + ExtendedWord(PlanOf(m).stamp))
    ensures C3(m) == BasicHeader(3, m.cid) + ExtendedWord(PlanOf(m).stamp)
  {
    var t := m.timestamp % TWO32;
    assert [192 + m.cid] == BasicHeader(3, m.cid);
    assert Fields(PlanOf(m)) == BE3(Min(t, EXTENDED)) + BE3(|m.payload|) + [m.mtype] + LE4(m.sid);
  }

  function Repeat(cid: nat, n: nat): (s: seq<Step>)
    ensures |s| == n
  {
    if n == 0 then [] else [Step(cid, true)] + Repeat(cid, n - 1)
  }

  predicate Sending(sys: System, m: Outgoing, off: nat) {
    && SystemOk(sys) && m.cid in sys.peers && 2 <= m.cid <= 63 && off < |m.payload|
    && var peer := sys.peers[m.cid];
    && peer.queue == [PlanOf(m)] && peer.sent == off && (off > 0 ==> peer.line.stamp == PlanOf(m).stamp)
  }

  function OwnLine(sys: System, m: Outgoing, off: nat): Line
    requires m.cid in sys.peers
  {
    if off == 0 then Begin(sys.peers[m.cid].line, PlanOf(m)) else sys.peers[m.cid].line
  }

  lemma OwnChunk(sys: System, m: Outgoing, off: nat)
    requires Sending(sys, m, off)
    ensures var n := Min(|m.payload| - off, sys.size);
            var line := OwnLine(sys, m, off);
            var last := off + n == |m.payload|;
            Emit(sys, Step(m.cid, true)) ==
            Sent(if last then Finished(sys, m, line)
                else System(sys.size, sys.peers[m.cid := Peer(line, [PlanOf(m)], off + n)]),
                 if off == 0 then C0(m) else C3(m), m.payload[off..off + n],
                 if last then Some(Deliverable(m.cid, line, m.payload)) else None)
            && (!last ==> Sending(Emit(sys, Step(m.cid, true)).sys, m, off + n))
  {
    hide C0, C3, Fields, ExtendedWord, BasicHeader, SystemOk;
    SizePositive(sys);
    EmitKeepsSystem(sys, Step(m.cid, true));
    HeadersMatch(m);
  }

  lemma SizePositive(sys: System)
    requires SystemOk(sys)
    ensures MIN_CHUNK <= sys.size
  {
  }

  lemma SendingIs(sys: System, m: Outgoing, off: nat)
    requires Sending(sys, m, off)
    ensures Enabled(sys, Step(m.cid, true)) && SystemOk(sys) && off < |m.payload| && MIN_CHUNK <= sys.size
  {
  }

  function Finished(sys: System, m: Outgoing, line: Line): System
    requires m.mtype == SET_CHUNK_SIZE ==> |m.payload| >= 4
  {
    System(if m.mtype == SET_CHUNK_SIZE then U32(m.payload) else sys.size, sys.peers[m.cid := Peer(line, [], 0)])
  }

  /** From offset `off`, the message is the run of its own stream, one chunk after the other. */
  lemma {:induction false} ChunksAreARun(sys: System, m: Outgoing, off: nat, tail: bytes) returns (n: nat)
    requires Sending(sys, m, off) && (m.mtype == SET_CHUNK_SIZE ==> |m.payload| >= 4)
    ensures StepsOk(sys, Repeat(m.cid, n), tail)
    ensures var line := OwnLine(sys, m, off);
            Play(sys, Repeat(m.cid, n)) ==
            History(Finished(sys, m, line), Chunks(m, sys.size, off), [Deliverable(m.cid, line, m.payload)])
    decreases |m.payload| - off
  {
    hide Sending, SystemOk, Emit, C0, C3, U32, Begin, PlanOf, Deliverable, Play, StepsOk, Chunks, Finished;
    var s := Step(m.cid, true);
    assert Enabled(sys, s) && SystemOk(sys) && off < |m.payload| && MIN_CHUNK <= sys.size by { SendingIs(sys, m, off); }
    var r := Emit(sys, s);
    EmitKeepsSystem(sys, s);
    OwnChunk(sys, m, off);
    var k := |r.body|;
    var line := OwnLine(sys, m, off);
    NextChunk(m, sys.size, off);
    var n' := 0;
    if off + k < |m.payload| {
      n' := ChunksAreARun(r.sys, m, off + k, tail);
      assert OwnLine(r.sys, m, off + k) == line;
      assert Finished(r.sys, m, line) == Finished(sys, m, line) by { FinishedIs(sys, r.sys, m, line); }
      assert [] + [Deliverable(m.cid, line, m.payload)] == [Deliverable(m.cid, line, m.payload)];
    } else {
      PlayNone(r.sys, tail);
      assert r.sys == Finished(sys, m, line);
      assert r.head + r.body + [] == r.head + r.body;
    }
    n := n' + 1;
    PlayOne(sys, s, Repeat(m.cid, n'), tail);
    assert (r.head + r.body) + Chunks(m, sys.size, off + k) == Chunks(m, sys.size, off);
  }

  lemma NextChunk(m: Outgoing, size: nat, off: nat)
    requires size > 0 && off < |m.payload|
    ensures var n := Min(|m.payload| - off, size);
            && Chunks(m, size, off) == (if off == 0 then C0(m) else C3(m)) + m.payload[off..off + n]
               + Chunks(m, size, off + n)
            && (off + n == |m.payload| ==> Chunks(m, size, off + n) == [])
  {
  }

  lemma FinishedIs(a: System, b: System, m: Outgoing, line: Line)
    requires m.mtype == SET_CHUNK_SIZE ==> |m.payload| >= 4
    requires a.size == b.size && m.cid in a.peers && m.cid in b.peers && b.peers == a.peers[m.cid := b.peers[m.cid]]
    ensures Finished(a, m, line) == Finished(b, m, line)
  {
    assert a.peers[m.cid := Peer(line, [], 0)] == b.peers[m.cid := Peer(line, [], 0)];
  }

  // ----- the receiver between messages

  /** No message is in progress and every stream record could have come from some peer. */
  predicate Quiet(st: Receiver) {
    && MIN_CHUNK <= st.size <= RECV_BUFFER
    && forall cid :: cid in st.streams ==> CidOk(cid) && QuietStream(st.streams[cid])
  }

  predicate QuietStream(cs: ChunkStream) {
    && cs.partial.None?
    && cs.header.time < TWO31 && cs.header.stamp <= EXTENDED
    && cs.hasExt == (cs.header.stamp == EXTENDED)
    && (cs.hasExt ==> cs.ext < TWO31)
  }

  function LineOf(cs: ChunkStream): Line {
    var stamp := if !cs.hasExt then cs.header.stamp else if cs.ext >= EXTENDED then cs.ext else cs.ext + TWO31;
    Line(cs.count > 0, stamp, cs.header.length, cs.header.mtype, cs.header.sid, cs.header.time)
  }

  /** The reference system whose only queued message is `m`. */
  function Idle(st: Receiver, m: Outgoing): (sys: System) {
    System(st.size, map cid | cid in st.streams.Keys + {m.cid} ::
      Peer(LineOf(StreamOf(st.streams, cid)), if cid == m.cid then [PlanOf(m)] else [], 0))
  }

  lemma IdleOk(st: Receiver, m: Outgoing)
    requires Quiet(st) && ReceiverOk(st)
    requires 2 <= m.cid <= 63 && m.sid < TWO32 && 0 < |m.payload| < TWO24 && ControlOk(m.mtype, m.payload)
    ensures SystemOk(Idle(st, m)) && Mirrors(Idle(st, m), st)
  {
    hide ControlOk;
    forall cid | cid in Idle(st, m).peers
      ensures CidOk(cid) && PeerOk(Idle(st, m).peers[cid]) && InStep(Idle(st, m).peers[cid], StreamOf(st.streams, cid))
    {
      var line := LineOf(StreamOf(st.streams, cid));
      assert QuietStream(StreamOf(st.streams, cid));
      assert PlanOk(line, PlanOf(m));
      assert [PlanOf(m)][1..] == [];
      assert QueueOk(line, [PlanOf(m)]);
    }
  }

  lemma IdleAfter(st: Receiver, m: Outgoing, line: Line)
    requires m.mtype == SET_CHUNK_SIZE ==> |m.payload| >= 4
    ensures var peers := Finished(Idle(st, m), m, line).peers;
            forall cid :: cid in peers ==> peers[cid].sent == 0
    ensures Idle(st, m).peers.Keys == st.streams.Keys + {m.cid} == Finished(Idle(st, m), m, line).peers.Keys
  {
  }

  lemma StaysQuiet(sys: System, st: Receiver)
    requires SystemOk(sys) && Mirrors(sys, st) && ReceiverOk(st) && st.streams.Keys <= sys.peers.Keys
    requires forall cid :: cid in sys.peers ==> sys.peers[cid].sent == 0
    ensures Quiet(st) && st.size == sys.size
  {
    forall cid | cid in st.streams
      ensures CidOk(cid) && QuietStream(st.streams[cid])
    {
      assert InStep(sys.peers[cid], StreamOf(st.streams, cid));
    }
  }

  /** One message through the wire: it arrives whole, and both chunk sizes move together. */
  lemma MessageArrives(st: Receiver, it: Item, tail: bytes) returns (st': Receiver)
    requires Quiet(st) && ReceiverOk(st) && ItemOk(it)
    ensures Quiet(st') && ReceiverOk(st') && st'.size == SizeAfter(it, st.size)
    ensures ReadAll(st, Chunks(MessageOfItem(it), st.size, 0) + tail)
            == Prepend(Delivered(MessageOfItem(it)), ReadAll(st', tail))
  {
    hide ReadAll, Chunks, Mirrors, SystemOk, ReceiverOk, Quiet, Idle, StepsOk, Play;
    var m := MessageOfItem(it);
    assert MIN_CHUNK <= st.size by { ReceiverSize(st); }
    if m.payload == [] {
      st' := st;
      NothingToSend(m, st.size);
      assert [] + tail == tail;
      assert [] + ReadAll(st, tail).messages == ReadAll(st, tail).messages;
    } else {
      ControlsAreSound(it);
      IdleOk(st, m);
      var sys := Idle(st, m);
      assert sys.size == st.size && m.cid in sys.peers && sys.peers[m.cid].queue == [PlanOf(m)]
             && sys.peers[m.cid].sent == 0 by {
        IdleIs(st, m);
      }
      var n := ChunksAreARun(sys, m, 0, tail);
      st' := RunDelivers(sys, st, Repeat(m.cid, n), tail);
      IdleAfter(st, m, OwnLine(sys, m, 0));
      StaysQuiet(Play(sys, Repeat(m.cid, n)).sys, st');
      LowBits(m.timestamp);
    }
  }

  lemma IdleIs(st: Receiver, m: Outgoing)
    ensures Idle(st, m).size == st.size && m.cid in Idle(st, m).peers
    ensures Idle(st, m).peers[m.cid].queue == [PlanOf(m)] && Idle(st, m).peers[m.cid].sent == 0
  {
  }

  lemma NothingToSend(m: Outgoing, size: nat)
    requires m.payload == [] && size > 0
    ensures Chunks(m, size, 0) == []
  {
  }

  lemma LowBits(t: int)
    ensures t % TWO32 % TWO31 == t % TWO31
  {
    assert t == t % TWO32 + t / TWO32 * 2 * TWO31;
  }

  lemma ControlsAreSound(it: Item)
    requires ItemOk(it) && MessageOfItem(it).payload != []
    ensures var m := MessageOfItem(it);
            && ControlOk(m.mtype, m.payload) && 2 <= m.cid <= 63 && m.sid < TWO32 && |m.payload| < TWO24
            && (m.mtype == SET_CHUNK_SIZE <==> it.SetChunkSize?)
            && (it.SetChunkSize? ==> U32(m.payload) == it.size)
  {
    if it.SetChunkSize? {
      U32OfBE4(it.size, []);
      assert BE4(it.size) + [] == BE4(it.size);
    }
  }

  /** Round trip: any mix of messages and chunk size changes arrives complete, unchanged and in
      order, whatever follows it on the wire, with the two chunk sizes equal afterwards. */
  lemma {:induction false} RoundTrip(st: Receiver, items: seq<Item>, tail: bytes) returns (st': Receiver)
    requires Quiet(st) && ReceiverOk(st) && forall it :: it in items ==> ItemOk(it)
    ensures Quiet(st') && ReceiverOk(st') && st'.size == OutSize(items, st.size)
    ensures ReadAll(st, Wire(items, st.size) + tail) == Prepend(AllDelivered(items), ReadAll(st', tail))
    decreases |items|
  {
    hide ReadAll, Chunks, ReceiverOk, Quiet, ItemOk;
    assert st.size > 0 by { ReceiverSize(st); }
    if items == [] {
      st' := st;
      assert [] + tail == tail;
      assert [] + ReadAll(st, tail).messages == ReadAll(st, tail).messages;
    } else {
      var it, rest := items[0], items[1..];
      assert SizeAfter(it, st.size) > 0 by { ItemPositive(it, st); }
      var st1 := MessageArrives(st, it, Wire(rest, SizeAfter(it, st.size)) + tail);
      st' := RoundTrip(st1, rest, tail);
      ArrivingIsDelivered(it);
      var d := Arriving(it);
      assert Wire(items, st.size) + tail
          == Chunks(MessageOfItem(it), st.size, 0) + (Wire(rest, SizeAfter(it, st.size)) + tail);
      assert d + (AllDelivered(rest) + ReadAll(st', tail).messages)
             == (d + AllDelivered(rest)) + ReadAll(st', tail).messages;
    }
  }

  lemma ReceiverSize(st: Receiver)
    requires ReceiverOk(st)
    ensures st.size >= MIN_CHUNK
  {
  }

  lemma ItemPositive(it: Item, st: Receiver)
    requires ItemOk(it) && st.size > 0
    ensures SizeAfter(it, st.size) > 0
  {
  }

  // ----- preparing a batch

  predicate Clean(m: Outgoing, sid: nat) { 2 <= m.cid <= 63 && m.sid == sid }

  function Fixed(m: Outgoing, sid: nat): (r: Outgoing)
    ensures Clean(r, sid)
  {
    m.(cid := if m.cid < 2 || m.cid > 63 then PROTOCOL_CID else m.cid, sid := sid)
  }

  /** The batch sender fixes chunk stream and stream id up to the first message whose stream id
      is already right, and leaves the rest alone. */
  function Prepared(msgs: seq<Outgoing>, sid: nat): (r: seq<Outgoing>)
    ensures |r| == |msgs|
  {
    if msgs == [] then []
    else [Fixed(msgs[0], sid)] + if msgs[0].sid == sid then msgs[1..] else Prepared(msgs[1..], sid)
  }

  /** Exactly what the batch sender does with each message: behind one whose stream id was right,
      nothing; otherwise the stream id is set, and a chunk stream id that does not fit one byte
      becomes 2. */
  lemma {:induction false} PreparedAt(msgs: seq<Outgoing>, sid: nat, i: nat)
    requires i < |msgs|
    ensures var m := msgs[i];
            Prepared(msgs, sid)[i]
            == if exists j :: 0 <= j < i && msgs[j].sid == sid then m
               else Outgoing(if 2 <= m.cid <= 63 then m.cid else 2, m.mtype, sid, m.timestamp, m.payload)
  {
    if i > 0 {
      var rest := msgs[1..];
      assert forall j :: 0 <= j < |rest| ==> rest[j] == msgs[j + 1];
      if msgs[0].sid != sid {
        PreparedAt(rest, sid, i - 1);
        if exists j :: 0 <= j < i && msgs[j].sid == sid {
          var j :| 0 <= j < i && msgs[j].sid == sid;
          assert rest[j - 1].sid == sid;
        }
      }
    }
  }

  predicate AllClean(msgs: seq<Outgoing>, sid: nat) { forall m :: m in msgs ==> Clean(m, sid) }

  /** Everything behind a message with the right stream id is already clean. */
  predicate CleanBehindMatch(msgs: seq<Outgoing>, sid: nat) {
    forall i, j :: 0 <= i < j < |msgs| && msgs[i].sid == sid ==> Clean(msgs[j], sid)
  }

  lemma CleanBehindMatchStep(msgs: seq<Outgoing>, sid: nat)
    requires msgs != []
    ensures CleanBehindMatch(msgs, sid)
            <==> (msgs[0].sid == sid ==> AllClean(msgs[1..], sid)) && CleanBehindMatch(msgs[1..], sid)
  {
    var rest := msgs[1..];
    if (msgs[0].sid == sid ==> AllClean(rest, sid)) && CleanBehindMatch(rest, sid) {
      forall i, j | 0 <= i < j < |msgs| && msgs[i].sid == sid ensures Clean(msgs[j], sid) {
        assert msgs[j] == rest[j - 1];
        if i > 0 { assert msgs[i] == rest[i - 1]; }
      }
    }
    if CleanBehindMatch(msgs, sid) {
      assert forall i :: 0 <= i < |rest| ==> rest[i] == msgs[i + 1];
    }
  }

  /** The early stop is sound exactly when everything behind a match is already clean. */
  lemma {:induction false} PreparedExactly(msgs: seq<Outgoing>, sid: nat)
    ensures AllClean(Prepared(msgs, sid), sid) <==> CleanBehindMatch(msgs, sid)
  {
    if msgs != [] {
      hide CleanBehindMatch, Clean;
      var rest := msgs[1..];
      CleanBehindMatchStep(msgs, sid);
      PreparedExactly(rest, sid);
      var q := if msgs[0].sid == sid then rest else Prepared(rest, sid);
      assert Prepared(msgs, sid) == [Fixed(msgs[0], sid)] + q;
      assert AllClean(Prepared(msgs, sid), sid) <==> AllClean(q, sid);
      assert AllClean(rest, sid) ==> CleanBehindMatch(rest, sid) by { AllCleanIsEnough(rest, sid); }
    }
  }

  lemma AllCleanIsEnough(msgs: seq<Outgoing>, sid: nat)
    ensures AllClean(msgs, sid) ==> CleanBehindMatch(msgs, sid)
  {
  }

  /** A batch where it is not: the second message keeps a chunk stream id that does not fit the
      one-byte header, and the receiver sees another one. */
  lemma PreparedCanMiss(sid: nat, payload: bytes, tail: bytes)
    requires payload != []
    ensures var msgs := [Outgoing(6, 9, sid, 0, payload), Outgoing(66, 8, sid, 0, payload)];
            && Prepared(msgs, sid)[1].cid == 66
            && var r := ReadBasicHeader(C0(Prepared(msgs, sid)[1]) + tail);
            && r.Ok? && r.value == (0, 2)
  {
  }
}
