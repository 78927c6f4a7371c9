/**
 A reference RTMP peer: any number of chunk streams, each with its own queue of messages and its
 own choice of header format, whose chunks may be interleaved in any order. The theorems say that
 the receiver of RtmpChunk delivers exactly what such a peer sends.
 */
module RtmpPeer {
  import opened Bytes
  import opened RtmpChunk
  import opened RtmpControl

  /** One message to send: the header format of its first chunk, and the timestamp (format 0)
      or timestamp delta (formats 1 to 3) that the format announces. */
  datatype Plan = Plan(fmt: nat, stamp: nat, mtype: byte, sid: nat, payload: bytes)

  /** What the chunk stream carries over from one message to the next. A stamp of 0xffffff or more
      goes into an extended field. */
  datatype Line = Line(started: bool, stamp: nat, length: nat, mtype: byte, sid: nat, time: nat)

  /** `sent` payload bytes of `queue[0]` are out; if there are any, `line` is already its line. */
  datatype Peer = Peer(line: Line, queue: seq<Plan>, sent: nat)

  datatype System = System(size: nat, peers: map<nat, Peer>)

  /** Let stream `cid` send its next chunk; `repeat` says whether a continuation chunk repeats the
      extended timestamp (both dialects exist among RTMP implementations). */
  datatype Step = Step(cid: nat, repeat: bool)

  /** The time rule: format 0 sets the clock, every other format advances it; 31 bits are kept. */
  function Begin(line: Line, p: Plan): Line {
    Line(true, p.stamp, |p.payload|, p.mtype, p.sid,
         (if p.fmt == 0 then p.stamp else line.time + p.stamp) % 0x8000_0000)
  }

  /** A header format may only omit what the stream already carries. */
  predicate PlanOk(line: Line, p: Plan) {
    && p.fmt < 4
    && p.stamp < TWO32 && p.sid < TWO32 && 0 < |p.payload| < TWO24
    && (!line.started ==> p.fmt <= 1)
    && (p.fmt >= 1 ==> p.sid == line.sid)
    && (p.fmt >= 2 ==> |p.payload| == line.length && p.mtype == line.mtype)
    && (p.fmt == 3 ==> p.stamp == line.stamp)
    && ControlOk(p.mtype, p.payload)
  }

  predicate QueueOk(line: Line, queue: seq<Plan>)
    decreases |queue|
  {
    queue == [] || (PlanOk(line, queue[0]) && QueueOk(Begin(line, queue[0]), queue[1..]))
  }

  predicate PeerOk(peer: Peer) {
    && peer.line.time < 0x8000_0000 && peer.line.stamp < TWO32
    && if peer.sent == 0 then QueueOk(peer.line, peer.queue)
       else
         && peer.queue != []
         && var p := peer.queue[0];
         && peer.sent < |p.payload| == peer.line.length
         && peer.line.started && peer.line.mtype == p.mtype && peer.line.sid == p.sid
         && p.sid < TWO32 && |p.payload| < TWO24
         && ControlOk(p.mtype, p.payload)
         && QueueOk(peer.line, peer.queue[1..])
  }

  predicate CidOk(cid: nat) { 2 <= cid <= 65599 }

  predicate SystemOk(sys: System) {
    && 128 <= sys.size <= 131072
    && forall cid :: cid in sys.peers ==> CidOk(cid) && PeerOk(sys.peers[cid])
  }

  function Deliverable(cid: nat, line: Line, payload: bytes): Message {
    Message(cid, line.mtype, line.sid, line.time, payload)
  }

  /** The messages a queue stands for. */
  function Queued(cid: nat, line: Line, queue: seq<Plan>): seq<Message>
    decreases |queue|
  {
    if queue == [] then []
    else [Deliverable(cid, Begin(line, queue[0]), queue[0].payload)]
         + Queued(cid, Begin(line, queue[0]), queue[1..])
  }

  /** The messages one stream still has to deliver, regardless of any other stream. */
  function Pending(cid: nat, peer: Peer): seq<Message> {
    if peer.sent > 0 && peer.queue != []
    then [Deliverable(cid, peer.line, peer.queue[0].payload)] + Queued(cid, peer.line, peer.queue[1..])
    else Queued(cid, peer.line, peer.queue)
  }

  // ----- the wire format

  function BasicHeader(fmt: nat, cid: nat): (b: bytes)
    requires fmt < 4 && CidOk(cid)
  {
    if cid < 64 then [fmt * 64 + cid]
    else if cid < 320 then [fmt * 64, cid - 64]
    else [fmt * 64 + 1, (cid - 64) % 256, (cid - 64) / 256]
  }

  function Fields(p: Plan): (b: bytes)
    requires p.fmt < 4
    ensures |b| == HeaderSize(p.fmt)
  {
    (if p.fmt <= 2 then BE3(Min(p.stamp, 0xff_ffff)) else [])
    + (if p.fmt <= 1 then BE3(|p.payload|) + [p.mtype] else [])
    + (if p.fmt == 0 then LE4(p.sid) else [])
  }

  function ExtendedWord(stamp: nat): bytes {
    if stamp >= 0xff_ffff then BE4(stamp) else []
  }

  /** One chunk leaves the peer: the system afterwards, the header bytes, the payload slice, and
      the message it completes, if any. */
  datatype Sent = Sent(sys: System, head: bytes, body: bytes, done: Option<Message>)

  function Finishes(r: Sent): seq<Message> {
    if r.done.Some? then [r.done.value] else []
  }

  predicate Enabled(sys: System, s: Step) {
    s.cid in sys.peers && sys.peers[s.cid].queue != []
  }

  function Emit(sys: System, s: Step): (r: Sent)
    requires SystemOk(sys) && Enabled(sys, s)
  {
    var peer := sys.peers[s.cid];
    var p := peer.queue[0];
    var line := if peer.sent == 0 then Begin(peer.line, p) else peer.line;
    var n := Min(|p.payload| - peer.sent, sys.size);
    var head := if peer.sent == 0 then BasicHeader(p.fmt, s.cid) + (Fields(p) + ExtendedWord(p.stamp))
                else BasicHeader(3, s.cid) + (if s.repeat then ExtendedWord(line.stamp) else []);
    var done := peer.sent + n == |p.payload|;
    var peer' := if done then Peer(line, peer.queue[1..], 0) else Peer(line, peer.queue, peer.sent + n);
    var size' := if done && p.mtype == 1 then U32(p.payload) else sys.size;
    Sent(System(size', sys.peers[s.cid := peer']), head, p.payload[peer.sent..peer.sent + n],
         if done then Some(Deliverable(s.cid, line, p.payload)) else None)
  }

  lemma EmitKeepsSystem(sys: System, s: Step)
    requires SystemOk(sys) && Enabled(sys, s)
    ensures SystemOk(Emit(sys, s).sys) && Emit(sys, s).sys.peers.Keys == sys.peers.Keys
  {
  }

  /** A peer that does not repeat the extended timestamp must not have payload that looks like it. */
  predicate Distinguishable(stamp: nat, rest: bytes) {
    stamp % 0x8000_0000 != 0 && |rest| >= 4 && U32(rest) % 0x8000_0000 != stamp % 0x8000_0000
  }

  predicate DialectOk(sys: System, s: Step, tail: bytes)
    requires SystemOk(sys) && Enabled(sys, s)
  {
    var peer := sys.peers[s.cid];
    s.repeat || peer.sent == 0 || peer.line.stamp < 0xff_ffff
    || Distinguishable(peer.line.stamp, Emit(sys, s).body + tail)
  }

  // ----- agreement between a peer and the receiver's record of it

  predicate Agree(line: Line, cs: ChunkStream) {
    && line.started == (cs.count > 0)
    && cs.header == Header(Min(line.stamp, 0xff_ffff), line.length, line.mtype, line.sid, line.time)
    && cs.hasExt == (line.stamp >= 0xff_ffff)
    && (cs.hasExt ==> cs.ext == line.stamp % 0x8000_0000)
  }

  predicate InStep(peer: Peer, cs: ChunkStream) {
    && Agree(peer.line, cs)
    && cs.partial == if peer.sent == 0 || peer.queue == [] || peer.sent > |peer.queue[0].payload| then None
                     else Some(peer.queue[0].payload[..peer.sent])
  }

  predicate Mirrors(sys: System, st: Receiver) {
    && sys.size == st.size
    && forall cid :: cid in sys.peers ==> InStep(sys.peers[cid], StreamOf(st.streams, cid))
  }

  /** A connection begins with blank lines at both ends, and chunks of 128 bytes. A stream may begin with
      format 1, and then its stream id is zero and its time counts from zero. */
  lemma ConnectionBegins(sys: System)
    requires sys.size == 128
    requires forall cid :: cid in sys.peers ==>
               sys.peers[cid].line == Line(false, 0, 0, 0, 0, 0) && sys.peers[cid].sent == 0
    ensures Mirrors(sys, Receiver(128, map[])) && ReceiverOk(Receiver(128, map[]))
  {
  }

  /** Which message headers are refused: a stream that begins with format 2 or 3, a format 0 in the middle
      of a message, and a format 1 there that changes the message's length. */
  lemma HeaderRefusedExactly(cs: ChunkStream, fmt: nat, b: bytes)
    requires fmt < 4 && Resting(cs)
    ensures var start := (cs.count == 0 && fmt >= 2) || (cs.partial.Some? && fmt == 0);
            var length := !start && cs.partial.Some? && fmt == 1 && |b| >= 7 && U24(b[3..]) != cs.header.length;
            && (ReadMessageHeader(cs, fmt, b) == Bad(ChunkStart) <==> start)
            && (ReadMessageHeader(cs, fmt, b) == Bad(PacketSize) <==> length)
            && (ReadMessageHeader(cs, fmt, b).Bad? ==> start || length)
            && (!start && !length && |b| >= [11, 7, 3, 0][fmt] + 4 ==> ReadMessageHeader(cs, fmt, b).Ok?)
  {
    hide ApplyFields, U24;
  }

  /** A chunk is refused exactly when it carries more than the receive buffer holds. */
  lemma PayloadRefusedExactly(cid: nat, cs: ChunkStream, size: nat, b: bytes)
    requires Filling(cs) && size >= 128
    ensures ReadPayload(cid, cs, size, b).Bad? <==> Min(cs.header.length - |cs.partial.value|, size) > 131072
    ensures ReadPayload(cid, cs, size, b).Bad? ==> ReadPayload(cid, cs, size, b).error == Overflow
  {
  }

  /** No message without payload is ever delivered, whatever the bytes. */
  lemma {:induction false} MessagesAreNotEmpty(st: Receiver, b: bytes)
    requires ReceiverOk(st)
    ensures ReadMessage(st, b).Ok? ==> ReadMessage(st, b).value.1.payload != []
    decreases |b|
  {
    hide ReadBasicHeader, ReadMessageHeader, ReadPayload, OnMessage;
    match ReadChunk(st, b)
    case Ok((st', m), rest) => if m.None? || m.value.payload == [] { MessagesAreNotEmpty(st', rest); }
    case _ =>
  }

  /** Such a message is skipped: the receiver goes on behind it. `h` is a header of format 0 whose length
      is zero. */
  lemma EmptyIsSkipped(st: Receiver, cid: byte, h: bytes, tail: bytes) returns (st': Receiver)
    requires ReceiverOk(st) && 2 <= cid <= 63 && StreamOf(st.streams, cid).partial.None?
    requires |h| == 11 && h[3..6] == [0, 0, 0] && U24(h) < 0xff_ffff
    ensures ReceiverOk(st') && st'.size == st.size && ReadMessage(st, [cid] + (h + tail)) == ReadMessage(st', tail)
  {
    var b := [cid] + (h + tail);
    assert b[1..] == h + tail && (h + tail)[11..] == tail;
    assert U24((h + tail)[3..]) == 0 by {
      assert h[3] == h[3..6][0] && h[4] == h[3..6][1] && h[5] == h[3..6][2];
    }
    hide U24, ULE32;
    assert U24(h + tail) == U24(h) by { SamePrefix(h, tail); }
    var c := ReadMessageHeader(StreamOf(st.streams, cid), 0, h + tail);
    assert c.Ok? && c.value.header.length == 0 && c.rest == tail;
    st' := ReadChunk(st, b).value.0;
  }

  lemma SamePrefix(h: bytes, tail: bytes)
    requires |h| >= 3
    ensures U24(h + tail) == U24(h)
  {
  }

  // ----- one chunk

  lemma BasicHeaderRoundTrip(fmt: nat, cid: nat, tail: bytes)
    requires fmt < 4 && CidOk(cid)
    ensures ReadBasicHeader(BasicHeader(fmt, cid) + tail) == Ok((fmt, cid), tail)
  {
    var b := BasicHeader(fmt, cid) + tail;
    assert b[|BasicHeader(fmt, cid)|..] == tail;
    assert b[0] == BasicHeader(fmt, cid)[0];
  }

  function PlanHeader(p: Plan, time: nat): Header {
    Header(Min(p.stamp, 0xff_ffff), |p.payload|, p.mtype, p.sid, time)
  }

  lemma StampBytes(p: Plan, tail: bytes)
    requires p.fmt <= 2
    ensures U24(Fields(p) + tail) == Min(p.stamp, 0xff_ffff)
  {
    var b := Fields(p) + tail;
    assert b == BE3(Min(p.stamp, 0xff_ffff)) + b[3..];
    U24OfBE3(Min(p.stamp, 0xff_ffff), b[3..]);
  }

  lemma LengthBytes(p: Plan, tail: bytes)
    requires p.fmt <= 1 && |p.payload| < TWO24
    ensures U24((Fields(p) + tail)[3..]) == |p.payload| && (Fields(p) + tail)[6] == p.mtype
  {
    hide U24, BE3, LE4;
    var b := Fields(p) + tail;
    var rest := (if p.fmt == 0 then LE4(p.sid) else []) + tail;
    assert b == BE3(Min(p.stamp, 0xff_ffff)) + (BE3(|p.payload|) + ([p.mtype] + rest));
    assert b[3..] == BE3(|p.payload|) + ([p.mtype] + rest);
    U24OfBE3(|p.payload|, [p.mtype] + rest);
    assert b[3..][3] == p.mtype;
  }

  lemma StreamIdBytes(p: Plan, tail: bytes)
    requires p.fmt == 0 && p.sid < TWO32
    ensures ULE32((Fields(p) + tail)[7..]) == p.sid
  {
    assert (Fields(p) + tail)[7..] == LE4(p.sid) + tail;
    ULE32OfLE4(p.sid, tail);
  }

  lemma FieldsReadBack(line: Line, cs: ChunkStream, p: Plan, tail: bytes)
    requires PlanOk(line, p) && line.time < 0x8000_0000 && Agree(line, cs) && cs.partial.None?
    ensures var time := if p.stamp >= 0xff_ffff then line.time else if p.fmt == 0 then p.stamp else line.time + p.stamp;
            ApplyFields(cs, p.fmt, Fields(p) + tail)
                == cs.(header := PlanHeader(p, time), hasExt := p.stamp >= 0xff_ffff)
  {
    hide Fields, U24, ULE32, ControlOk;
    if p.fmt <= 2 { StampBytes(p, tail); }
    if p.fmt <= 1 { LengthBytes(p, tail); }
    if p.fmt == 0 { StreamIdBytes(p, tail); }
  }

  lemma ExtendedReadBack(cs: ChunkStream, fmt: nat, stamp: nat, tail: bytes)
    requires cs.hasExt == (stamp >= 0xff_ffff) && stamp < TWO32
    requires cs.partial.None? || !cs.hasExt || cs.ext == stamp % 0x8000_0000
    ensures var word := stamp % 0x8000_0000;
            var time := if fmt == 0 then word else if cs.partial.None? then cs.header.time + word else cs.header.time;
            ApplyExtended(cs, fmt, ExtendedWord(stamp) + tail)
            == if !cs.hasExt then Ok(cs, tail) else Ok(cs.(ext := word, header := cs.header.(time := time)), tail)
  {
    if cs.hasExt {
      U32OfBE4(stamp, tail);
      assert (BE4(stamp) + tail)[4..] == tail;
    } else {
      assert [] + tail == tail;
    }
  }

  lemma ClockAdds(time: nat, stamp: nat)
    ensures (time + stamp % 0x8000_0000) % 0x8000_0000 == (time + stamp) % 0x8000_0000
    ensures stamp % 0x8000_0000 % 0x8000_0000 == stamp % 0x8000_0000
  {
    var k := stamp / 0x8000_0000;
    assert time + stamp == (time + stamp % 0x8000_0000) + k * 0x8000_0000;
  }

  /** The first chunk of a message, in any of the four formats, sets the stream to the new line. */
  lemma FirstHeader(line: Line, cs: ChunkStream, p: Plan, tail: bytes)
    requires PlanOk(line, p) && line.time < 0x8000_0000 && Agree(line, cs) && cs.partial.None?
    ensures ReadMessageHeader(cs, p.fmt, (Fields(p) + ExtendedWord(p.stamp)) + tail) == Ok(Opened(line, cs, p), tail)
  {
    hide Fields, ApplyFields, ApplyExtended, ExtendedWord, U24, U32;
    var rest := ExtendedWord(p.stamp) + tail;
    var b := Fields(p) + rest;
    assert (Fields(p) + ExtendedWord(p.stamp)) + tail == b;
    FieldsReadBack(line, cs, p, rest);
    assert b[HeaderSize(p.fmt)..] == rest;
    var c1 := ApplyFields(cs, p.fmt, b);
    ExtendedReadBack(c1, p.fmt, p.stamp, tail);
    var c2 := ApplyExtended(c1, p.fmt, rest).value;
    ClockAdds(line.time, p.stamp);
    assert Started(c2) == Opened(line, cs, p);
  }

  function Opened(line: Line, cs: ChunkStream, p: Plan): ChunkStream {
    ChunkStream(PlanHeader(p, Begin(line, p).time), p.stamp >= 0xff_ffff,
                if p.stamp >= 0xff_ffff then p.stamp % 0x8000_0000 else cs.ext, Some([]), cs.count + 1)
  }

  /** A continuation chunk that repeats the extended timestamp changes nothing but the count. */
  lemma RepeatedHeader(line: Line, cs: ChunkStream, tail: bytes)
    requires line.started && line.time < 0x8000_0000 && line.stamp < TWO32 && Agree(line, cs)
    requires cs.partial.Some? && Resting(cs)
    ensures ReadMessageHeader(cs, 3, ExtendedWord(line.stamp) + tail) == Ok(cs.(count := cs.count + 1), tail)
  {
    var b := ExtendedWord(line.stamp) + tail;
    assert b[0..] == b;
    assert ApplyFields(cs, 3, b) == cs;
    ExtendedReadBack(cs, 3, line.stamp, tail);
  }

  /** For a peer that leaves the word out, the look-ahead is undone without losing a byte exactly
      when the following four bytes exist and differ from a non-zero extended timestamp. */
  lemma OmittedHeader(line: Line, cs: ChunkStream, rest: bytes)
    requires line.started && line.time < 0x8000_0000 && Agree(line, cs)
    requires cs.partial.Some? && Resting(cs) && cs.hasExt
    ensures ReadMessageHeader(cs, 3, rest) == Ok(cs.(count := cs.count + 1), rest)
            <==> Distinguishable(line.stamp, rest)
  {
    assert rest[0..] == rest;
    assert ApplyFields(cs, 3, rest) == cs;
  }

  lemma ContinuationHeader(sys: System, s: Step, cs: ChunkStream, tail: bytes)
    requires SystemOk(sys) && Enabled(sys, s) && DialectOk(sys, s, tail)
    requires sys.peers[s.cid].sent > 0 && InStep(sys.peers[s.cid], cs)
    ensures var r := Emit(sys, s);
            ReadMessageHeader(cs, 3, (if s.repeat then ExtendedWord(sys.peers[s.cid].line.stamp) else [])
                + (r.body + tail))
            == Ok(cs.(count := cs.count + 1), r.body + tail)
  {
    var peer, rest := sys.peers[s.cid], Emit(sys, s).body + tail;
    assert [] + rest == rest;
    if s.repeat || peer.line.stamp < 0xff_ffff {
      RepeatedHeader(peer.line, cs, rest);
    } else {
      OmittedHeader(peer.line, cs, rest);
    }
  }

  lemma BodyReadBack(cid: nat, cs: ChunkStream, size: nat, payload: bytes, sent: nat, tail: bytes)
    requires MIN_CHUNK <= size <= RECV_BUFFER && sent < |payload| == cs.header.length
    requires cs.partial == Some(payload[..sent])
    ensures var n := Min(|payload| - sent, size);
            ReadPayload(cid, cs, size, payload[sent..sent + n] + tail)
            == if sent + n == |payload|
               then Ok((cs.(partial := None), Some(MessageOf(cid, cs.header, payload))), tail)
               else Ok((cs.(partial := Some(payload[..sent + n])), None), tail)
  {
    var n := Min(|payload| - sent, size);
    var b := payload[sent..sent + n] + tail;
    assert b[..n] == payload[sent..sent + n] && b[n..] == tail;
    assert payload[..sent] + payload[sent..sent + n] == payload[..sent + n];
    assert payload[..|payload|] == payload;
  }

  /** The stream state after the header of the chunk that `s` sends. */
  lemma HeaderArrives(sys: System, cs: ChunkStream, s: Step, tail: bytes) returns (fmt: nat, x: bytes, c1: ChunkStream)
    requires SystemOk(sys) && Enabled(sys, s) && DialectOk(sys, s, tail)
    requires InStep(sys.peers[s.cid], cs) && Resting(cs)
    ensures var r, peer := Emit(sys, s), sys.peers[s.cid];
            && ReadBasicHeader((r.head + r.body) + tail) == Ok((fmt, s.cid), x) && fmt < 4
            && ReadMessageHeader(cs, fmt, x) == Ok(c1, r.body + tail)
            && c1.partial == Some(peer.queue[0].payload[..peer.sent])
            && Agree(if peer.sent == 0 then Begin(peer.line, peer.queue[0]) else peer.line, c1)
  {
    hide ReadBasicHeader, ReadMessageHeader, Fields, ExtendedWord, BasicHeader;
    var r, peer := Emit(sys, s), sys.peers[s.cid];
    var p := peer.queue[0];
    var rest := r.body + tail;
    if peer.sent == 0 {
      var head := Fields(p) + ExtendedWord(p.stamp);
      fmt, x := p.fmt, head + rest;
      FirstHeader(peer.line, cs, p, rest);
      c1 := Opened(peer.line, cs, p);
      assert p.payload[..0] == [];
    } else {
      var head := if s.repeat then ExtendedWord(peer.line.stamp) else [];
      fmt, x := 3, head + rest;
      ContinuationHeader(sys, s, cs, tail);
      c1 := cs.(count := cs.count + 1);
    }
    assert (r.head + r.body) + tail == BasicHeader(fmt, s.cid) + x;
    BasicHeaderRoundTrip(fmt, s.cid, x);
  }

  /** One chunk: the receiver consumes exactly its bytes, completes a message exactly when the
      peer does, and stays in step on every stream; the other streams are untouched. */
  lemma ChunkArrives(sys: System, st: Receiver, s: Step, tail: bytes) returns (st': Receiver)
    requires SystemOk(sys) && Enabled(sys, s) && ReceiverOk(st) && Mirrors(sys, st)
    requires DialectOk(sys, s, tail)
    ensures var r := Emit(sys, s);
            && ReadChunk(st, (r.head + r.body) + tail) == Ok((st', r.done), tail)
            && (forall cid :: cid in sys.peers ==> InStep(r.sys.peers[cid], StreamOf(st'.streams, cid)))
            && st'.size == st.size && ReceiverOk(st')
            && st'.streams.Keys == st.streams.Keys + {s.cid}
            && (forall cid :: cid in st.streams && cid != s.cid ==> st'.streams[cid] == st.streams[cid])
  {
    hide ReadBasicHeader, ReadMessageHeader, ReadPayload, Emit, DialectOk, InStep, SystemOk, Resting;
    var cs := StreamOf(st.streams, s.cid);
    FreshRests();
    var fmt, x, c1, cs' := StreamArrives(sys, cs, s, tail);
    st' := st.(streams := st.streams[s.cid := cs']);
    OtherPeersStay(sys, s);
  }

  lemma FreshRests()
    ensures Resting(StreamOf(map[], 0))
  {
  }

  lemma OtherPeersStay(sys: System, s: Step)
    requires SystemOk(sys) && Enabled(sys, s)
    ensures var r := Emit(sys, s);
            r.sys.peers.Keys == sys.peers.Keys && forall cid :: cid in sys.peers && cid != s.cid ==>
                  r.sys.peers[cid] == sys.peers[cid]
  {
    hide SystemOk, Fields, ExtendedWord, BasicHeader;
    SendingBounds(sys, s);
  }

  lemma SendingBounds(sys: System, s: Step)
    requires SystemOk(sys) && Enabled(sys, s)
    ensures sys.peers[s.cid].sent < |sys.peers[s.cid].queue[0].payload|
  {
  }

  /** The same on the one stream the chunk belongs to. */
  lemma StreamArrives(sys: System, cs: ChunkStream, s: Step, tail: bytes)
    returns (fmt: nat, x: bytes, c1: ChunkStream, cs': ChunkStream)
    requires SystemOk(sys) && Enabled(sys, s) && DialectOk(sys, s, tail) && InStep(sys.peers[s.cid], cs) && Resting(cs)
    ensures var r := Emit(sys, s);
            && ReadBasicHeader((r.head + r.body) + tail) == Ok((fmt, s.cid), x) && fmt < 4
            && ReadMessageHeader(cs, fmt, x) == Ok(c1, r.body + tail)
            && ReadPayload(s.cid, c1, sys.size, r.body + tail) == Ok((cs', r.done), tail)
            && s.cid in r.sys.peers && InStep(r.sys.peers[s.cid], cs') && Resting(cs')
  {
    hide ReadBasicHeader, ReadMessageHeader, ReadPayload, Fields, ExtendedWord, BasicHeader, DialectOk, ControlOk;
    var peer := sys.peers[s.cid];
    fmt, x, c1 := HeaderArrives(sys, cs, s, tail);
    BodyReadBack(s.cid, c1, sys.size, peer.queue[0].payload, peer.sent, tail);
    cs' := ReadPayload(s.cid, c1, sys.size, Emit(sys, s).body + tail).value.0;
  }

  // ----- whole runs

  /** A run of the peer: the bytes it puts on the wire and the messages it completes, in order. */
  datatype History = History(sys: System, wire: bytes, messages: seq<Message>)

  predicate StepsOk(sys: System, steps: seq<Step>, tail: bytes)
    requires SystemOk(sys)
    decreases |steps|
  {
    steps == [] ||
    (&& Enabled(sys, steps[0])
     && (EmitKeepsSystem(sys, steps[0]); StepsOk(Emit(sys, steps[0]).sys, steps[1..], tail))
     && DialectOk(sys, steps[0], Play(Emit(sys, steps[0]).sys, steps[1..]).wire + tail))
  }

  function Play(sys: System, steps: seq<Step>): (h: History)
    requires SystemOk(sys)
    ensures SystemOk(h.sys)
    decreases |steps|
  {
    if steps == [] || !Enabled(sys, steps[0]) then History(sys, [], [])
    else
      EmitKeepsSystem(sys, steps[0]);
      var r := Emit(sys, steps[0]);
      var h := Play(r.sys, steps[1..]);
      History(h.sys, (r.head + r.body) + h.wire, Finishes(r) + h.messages)
  }

  lemma PlayNone(sys: System, tail: bytes)
    requires SystemOk(sys)
    ensures Play(sys, []) == History(sys, [], []) && StepsOk(sys, [], tail)
  {
  }

  lemma PlayOne(sys: System, s: Step, rest: seq<Step>, tail: bytes)
    requires SystemOk(sys) && Enabled(sys, s) && SystemOk(Emit(sys, s).sys)
    ensures var r, h := Emit(sys, s), Play(Emit(sys, s).sys, rest);
            && Play(sys, [s] + rest) == History(h.sys, (r.head + r.body) + h.wire, Finishes(r) + h.messages)
            && StepsOk(sys, [s] + rest, tail) == (StepsOk(r.sys, rest, tail) && DialectOk(sys, s, h.wire + tail))
  {
    hide SystemOk, Emit, DialectOk;
    assert ([s] + rest)[1..] == rest;
  }

  function Prepend(ms: seq<Message>, r: Run): Run { r.(messages := ms + r.messages) }

  /** The receiver after one chunk of the peer, at message level. */
  lemma ChunkDelivers(sys: System, st: Receiver, s: Step, tail: bytes) returns (st': Receiver)
    requires SystemOk(sys) && Enabled(sys, s) && ReceiverOk(st) && Mirrors(sys, st)
    requires DialectOk(sys, s, tail)
    ensures ReceiverOk(st') && Mirrors(Emit(sys, s).sys, st')
    ensures st'.streams.Keys <= st.streams.Keys + sys.peers.Keys
    ensures var r := Emit(sys, s);
            ReadAll(st, (r.head + r.body) + tail)
            == Prepend(Finishes(r), ReadAll(st', tail))
  {
    hide ReadChunk, InStep, Fields, BasicHeader, ExtendedWord, DialectOk;
    var r := Emit(sys, s);
    var st1 := ChunkArrives(sys, st, s, tail);
    var b := (r.head + r.body) + tail;
    if r.done.None? {
      st' := st1;
      assert ReadMessage(st, b) == ReadMessage(st1, tail);
      assert [] + ReadAll(st', tail).messages == ReadAll(st', tail).messages;
    } else {
      var m := r.done.value;
      assert m.payload == sys.peers[s.cid].queue[0].payload;
      st' := OnMessage(st1, m).value;
      assert ReadMessage(st, b) == Ok((st', m), tail);
    }
  }

  /** Interleaving and chunk size changes: whatever the schedule, whatever follows on the wire, the
      receiver delivers exactly the messages completed, in order of completion, and both ends
      agree on the chunk size and on every stream afterwards. */
  lemma {:induction false} RunDelivers(sys: System, st: Receiver, steps: seq<Step>, tail: bytes) returns (st': Receiver)
    requires SystemOk(sys) && ReceiverOk(st) && Mirrors(sys, st) && StepsOk(sys, steps, tail)
    ensures ReceiverOk(st') && Mirrors(Play(sys, steps).sys, st')
    ensures st'.streams.Keys <= st.streams.Keys + sys.peers.Keys
    ensures ReadAll(st, Play(sys, steps).wire + tail) == Prepend(Play(sys, steps).messages, ReadAll(st', tail))
    decreases |steps|
  {
    hide ReadAll, Emit, Mirrors, DialectOk, SystemOk, ReceiverOk;
    if steps == [] {
      st' := st;
      assert [] + tail == tail;
      assert [] + ReadAll(st, tail).messages == ReadAll(st, tail).messages;
    } else {
      var r := Emit(sys, steps[0]);
      EmitKeepsSystem(sys, steps[0]);
      var h := Play(r.sys, steps[1..]);
      var st1 := ChunkDelivers(sys, st, steps[0], h.wire + tail);
      st' := RunDelivers(r.sys, st1, steps[1..], tail);
      assert Play(sys, steps).wire + tail == (r.head + r.body) + (h.wire + tail);
      var first := Finishes(r);
      assert first + (h.messages + ReadAll(st', tail).messages) == (first + h.messages) + ReadAll(st', tail).messages;
    }
  }

  /** The messages of one chunk stream, in order. */
  function Of(cid: nat, ms: seq<Message>): seq<Message> {
    if ms == [] then [] else (if ms[0].cid == cid then [ms[0]] else []) + Of(cid, ms[1..])
  }

  lemma {:induction false} OfConcat(cid: nat, a: seq<Message>, b: seq<Message>)
    ensures Of(cid, a + b) == Of(cid, a) + Of(cid, b)
  {
    if a == [] {
      assert a + b == b;
    } else {
      OfConcat(cid, a[1..], b);
      var first := if a[0].cid == cid then [a[0]] else [];
      assert Of(cid, a + b) == first + Of(cid, a[1..] + b) by { assert (a + b)[1..] == a[1..] + b; }
      Assoc(first, Of(cid, a[1..]), Of(cid, b));
    }
  }

  lemma StepIsIndependent(sys: System, s: Step, cid: nat)
    requires SystemOk(sys) && Enabled(sys, s) && cid in sys.peers
    ensures var r := Emit(sys, s);
            Of(cid, Finishes(r)) + Pending(cid, r.sys.peers[cid]) == Pending(cid, sys.peers[cid])
  {
    hide Fields, ExtendedWord, BasicHeader, QueueOk;
    var r := Emit(sys, s);
    var pending := Pending(cid, sys.peers[cid]);
    if cid == s.cid {
      if r.done.Some? {
        assert Of(cid, [r.done.value]) == [r.done.value] by { assert [r.done.value][1..] == []; }
      } else {
        assert [] + pending == pending;
      }
    } else {
      assert r.done.Some? ==> Of(cid, [r.done.value]) == [] by { assert r.done.Some? ==> [r.done.value][1..] == []; }
      assert [] + pending == pending;
    }
  }

  /** Isolation: what stream `cid` has delivered plus what it still owes never depends on the
      schedule or on the other streams; it is fixed by its own queue. */
  lemma {:induction false} StreamsAreIndependent(sys: System, steps: seq<Step>, cid: nat)
    requires SystemOk(sys) && cid in sys.peers
    ensures cid in Play(sys, steps).sys.peers
    ensures Of(cid, Play(sys, steps).messages) + Pending(cid, Play(sys, steps).sys.peers[cid])
            == Pending(cid, sys.peers[cid])
    decreases |steps|
  {
    hide Emit, SystemOk, Pending, Play, Of;
    PlayNone(sys, []);
    if steps == [] || !Enabled(sys, steps[0]) {
      PlayStops(sys, steps, cid);
    } else {
      EmitKeepsSystem(sys, steps[0]);
      var r := Emit(sys, steps[0]);
      var h := Play(r.sys, steps[1..]);
      assert steps == [steps[0]] + steps[1..];
      PlayOne(sys, steps[0], steps[1..], []);
      StepIsIndependent(sys, steps[0], cid);
      StreamsAreIndependent(r.sys, steps[1..], cid);
      OfConcat(cid, Finishes(r), h.messages);
      var left := Pending(cid, h.sys.peers[cid]);
      assert (Of(cid, Finishes(r)) + Of(cid, h.messages)) + left == Of(cid, Finishes(r)) + (Of(cid, h.messages) + left);
    }
  }

  lemma PlayStops(sys: System, steps: seq<Step>, cid: nat)
    requires SystemOk(sys) && cid in sys.peers && (steps == [] || !Enabled(sys, steps[0]))
    ensures Play(sys, steps).sys == sys
    ensures Of(cid, Play(sys, steps).messages) + Pending(cid, sys.peers[cid]) == Pending(cid, sys.peers[cid])
  {
    assert [] + Pending(cid, sys.peers[cid]) == Pending(cid, sys.peers[cid]);
  }

  /** The two extended timestamp dialects mean the same: dropping or adding the repeated word
      changes the bytes on the wire, and neither the messages nor the state of the streams. */
  lemma {:induction false} DialectsAgree(sys: System, a: seq<Step>, b: seq<Step>)
    requires SystemOk(sys) && |a| == |b| && forall i :: 0 <= i < |a| ==> a[i].cid == b[i].cid
    ensures Play(sys, a).messages == Play(sys, b).messages && Play(sys, a).sys == Play(sys, b).sys
    decreases |a|
  {
    hide Emit, SystemOk;
    if a != [] && Enabled(sys, a[0]) {
      EmitKeepsSystem(sys, a[0]);
      SameChunk(sys, a[0], b[0]);
      assert forall i :: 0 <= i < |a[1..]| ==> a[1..][i].cid == b[1..][i].cid;
      DialectsAgree(Emit(sys, a[0]).sys, a[1..], b[1..]);
    }
  }

  lemma SameChunk(sys: System, s: Step, t: Step)
    requires SystemOk(sys) && Enabled(sys, s) && s.cid == t.cid
    ensures Emit(sys, s).sys == Emit(sys, t).sys && Emit(sys, s).body == Emit(sys, t).body
            && Emit(sys, s).done == Emit(sys, t).done
  {
    hide Fields, BasicHeader, ExtendedWord, PeerOk;
  }

  // ----- what the receiver makes of it

  lemma EndOfStream(st: Receiver)
    requires ReceiverOk(st)
    ensures ReadAll(st, []) == Run([], ReadFailed)
  {
  }

  lemma WholeRun(sys: System, st: Receiver, steps: seq<Step>)
    requires SystemOk(sys) && ReceiverOk(st) && Mirrors(sys, st) && StepsOk(sys, steps, [])
    ensures ReadAll(st, Play(sys, steps).wire) == Run(Play(sys, steps).messages, ReadFailed)
  {
    hide ReadAll, Play, Mirrors, StepsOk, SystemOk, ReceiverOk;
    var h := Play(sys, steps);
    var st' := RunDelivers(sys, st, steps, []);
    EndOfStream(st');
    assert h.wire + [] == h.wire && h.messages + [] == h.messages;
  }

  /** The receiver decodes the same messages from both dialects of any run, as long as the peer that
      leaves words out has distinguishable payload. */
  lemma ReceivedDialectsAgree(sys: System, st: Receiver, a: seq<Step>, b: seq<Step>)
    requires SystemOk(sys) && ReceiverOk(st) && Mirrors(sys, st) && StepsOk(sys, a, []) && StepsOk(sys, b, [])
    requires |a| == |b| && forall i :: 0 <= i < |a| ==> a[i].cid == b[i].cid
    ensures ReadAll(st, Play(sys, a).wire) == ReadAll(st, Play(sys, b).wire)
  {
    hide ReadAll, Play, Mirrors, StepsOk, SystemOk, ReceiverOk;
    WholeRun(sys, st, a);
    WholeRun(sys, st, b);
    DialectsAgree(sys, a, b);
  }

  /** What the receiver delivers for a stream, with what the stream still owes, is what its own queue
      held, whatever the other streams and the schedule do; all of it once the queue is drained. */
  lemma ReceivedStreamsAreIndependent(sys: System, st: Receiver, steps: seq<Step>, cid: nat)
    requires SystemOk(sys) && ReceiverOk(st) && Mirrors(sys, st) && StepsOk(sys, steps, []) && cid in sys.peers
    ensures cid in Play(sys, steps).sys.peers
    ensures var got := Of(cid, ReadAll(st, Play(sys, steps).wire).messages);
            var owed := Pending(cid, Play(sys, steps).sys.peers[cid]);
            got + owed == Pending(cid, sys.peers[cid]) && (owed == [] ==> got == Pending(cid, sys.peers[cid]))
  {
    hide ReadAll, Play, Mirrors, StepsOk, SystemOk, ReceiverOk, Of, Pending;
    WholeRun(sys, st, steps);
    StreamsAreIndependent(sys, steps, cid);
    var got := Of(cid, Play(sys, steps).messages);
    assert got + [] == got;
  }

  /** As if the stream were fed alone: two connections that agree on one stream, whatever else they
      carry and however they are scheduled, deliver the same messages of it once both are drained. */
  lemma ReceivedAsIfAlone(sys: System, st: Receiver, steps: seq<Step>, alone: System, rt: Receiver, run: seq<Step>,
      cid: nat)
    requires SystemOk(sys) && ReceiverOk(st) && Mirrors(sys, st) && StepsOk(sys, steps, [])
    requires SystemOk(alone) && ReceiverOk(rt) && Mirrors(alone, rt) && StepsOk(alone, run, [])
    requires cid in sys.peers && cid in alone.peers && sys.peers[cid] == alone.peers[cid]
    requires cid in Play(sys, steps).sys.peers && Pending(cid, Play(sys, steps).sys.peers[cid]) == []
    requires cid in Play(alone, run).sys.peers && Pending(cid, Play(alone, run).sys.peers[cid]) == []
    ensures Of(cid, ReadAll(st, Play(sys, steps).wire).messages) == Of(cid, ReadAll(rt, Play(alone, run).wire).messages)
  {
    hide ReadAll, Play, Mirrors, StepsOk, SystemOk, ReceiverOk, Of, Pending;
    ReceivedStreamsAreIndependent(sys, st, steps, cid);
    ReceivedStreamsAreIndependent(alone, rt, run, cid);
  }
}
