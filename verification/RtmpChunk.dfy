/**
 The receiving half of the RTMP chunk stream (section 5.3.1 of the RTMP specification 1.0) as
 functions over the unread bytes: what one chunk, one message and a whole byte stream mean to
 the receiver. The class in RtmpProtocol.dfy is proved against these functions.
 */
module RtmpChunk {
  import opened Bytes

  const EXTENDED := 0xFF_FFFF
  const MIN_CHUNK := 128
  const RECV_BUFFER := 131072

  const SET_CHUNK_SIZE: byte := 1
  const USER_CONTROL: byte := 4
  const WINDOW_ACK_SIZE: byte := 5

  const FMS_EVENT0 := 0x1a
  const SET_BUFFER_LENGTH := 3

  datatype Error = ReadFailed | Overflow | ChunkStart | PacketSize | BadPacket | ChunkTooSmall

  /** The cached message header of one chunk stream; `stamp` is the 24-bit field as sent. */
  datatype Header = Header(stamp: nat, length: nat, mtype: byte, sid: nat, time: nat)

  /** `partial` holds the payload received so far while a message is incomplete. */
  datatype ChunkStream = ChunkStream(header: Header, hasExt: bool, ext: nat, partial: Option<bytes>, count: nat)

  datatype Message = Message(cid: nat, mtype: byte, sid: nat, time: nat, payload: bytes)

  datatype Receiver = Receiver(size: nat, streams: map<nat, ChunkStream>)

  /** `More`: the bytes end before the item does. */
  datatype Parse<+T> = More | Bad(error: Error) | Ok(value: T, rest: bytes)

  const FRESH := ChunkStream(Header(0, 0, 0, 0, 0), false, 0, None, 0)

  function StreamOf(streams: map<nat, ChunkStream>, cid: nat): ChunkStream {
    if cid in streams then streams[cid] else FRESH
  }

  /** Between two chunks a message in progress lacks at least one byte. */
  predicate Resting(cs: ChunkStream) {
    cs.partial.Some? ==> |cs.partial.value| < cs.header.length
  }

  /** After a message header: the message in progress has room in its declared length. */
  predicate Filling(cs: ChunkStream) {
    && cs.partial.Some?
    && (|cs.partial.value| < cs.header.length || (cs.header.length == 0 && cs.partial.value == []))
  }

  predicate ReceiverOk(st: Receiver) {
    && st.size >= MIN_CHUNK
    && forall cid :: cid in st.streams ==> Resting(st.streams[cid])
  }

  function ReadBasicHeader(b: bytes): (r: Parse<(nat, nat)>)
    ensures r.Ok? ==> r.value.0 < 4 && |r.rest| < |b|
  {
    if |b| < 1 then More
    else
      var fmt, low := b[0] / 64, b[0] % 64;
      if low > 1 then Ok((fmt, low), b[1..])
      else if low == 0 then
        if |b| < 2 then More else Ok((fmt, 64 + b[1] as int), b[2..])
      else
        if |b| < 3 then More else Ok((fmt, 64 + b[1] as int + b[2] as int * 256), b[3..])
  }

  function HeaderSize(fmt: nat): nat
    requires fmt < 4
  {
    [11, 7, 3, 0][fmt]
  }

  /** Fields of the 0, 3, 7 or 11 byte message header; the extended timestamp comes after. */
  function ApplyFields(cs: ChunkStream, fmt: nat, h: bytes): (r: ChunkStream)
    requires fmt < 4 && |h| >= HeaderSize(fmt)
    ensures r.partial == cs.partial && r.ext == cs.ext && r.count == cs.count
  {
    if fmt == 3 then
      if cs.partial.None? && !cs.hasExt
      then cs.(header := cs.header.(time := cs.header.time + cs.header.stamp))
      else cs
    else
      var stamp := U24(h);
      var hasExt := stamp >= EXTENDED;
      var time := if hasExt then cs.header.time else if fmt == 0 then stamp else cs.header.time + stamp;
      var h1 := cs.header.(stamp := stamp, time := time);
      var h2 := if fmt <= 1 then h1.(length := U24(h[3..]), mtype := h[6]) else h1;
      var h3 := if fmt == 0 then h2.(sid := ULE32(h[7..])) else h2;
      cs.(header := h3, hasExt := hasExt)
  }

  /** The optional 4-byte word: taken as a timestamp, or left in place as payload. */
  function ApplyExtended(cs: ChunkStream, fmt: nat, b: bytes): (r: Parse<ChunkStream>)
    ensures r.Ok? ==> |r.rest| <= |b|
  {
    if !cs.hasExt then Ok(cs, b)
    else if |b| < 4 then More
    else
      var word := U32(b) % TWO31;
      var first := cs.partial.None?;
      if !first && cs.ext > 0 && cs.ext != word then Ok(cs, b)
      else
        var time := if fmt == 0 then word else if first then cs.header.time + word else cs.header.time;
        Ok(cs.(ext := word, header := cs.header.(time := time)), b[4..])
  }

  function Started(cs: ChunkStream): (r: ChunkStream)
    requires Resting(cs)
    ensures r.partial.Some?
  {
    cs.(header := cs.header.(time := cs.header.time % TWO31),
        partial := if cs.partial.None? then Some([]) else cs.partial,
        count := cs.count + 1)
  }

  function ReadMessageHeader(cs: ChunkStream, fmt: nat, b: bytes): (r: Parse<ChunkStream>)
    requires fmt < 4 && Resting(cs)
    ensures r.Ok? ==> Filling(r.value) && |r.rest| <= |b|
  {
    if cs.count == 0 && fmt != 0 && fmt != 1 then Bad(ChunkStart)
    else if cs.partial.Some? && fmt == 0 then Bad(ChunkStart)
    else if |b| < HeaderSize(fmt) then More
    else if cs.partial.Some? && fmt == 1 && U24(b[3..]) != cs.header.length then Bad(PacketSize)
    else
      var c1 := ApplyFields(cs, fmt, b);
      match ApplyExtended(c1, fmt, b[HeaderSize(fmt)..])
      case More => More
      case Bad(e) => Bad(e)
      case Ok(c2, rest) => Ok(Started(c2), rest)
  }

  /** How much payload the next chunk of this stream carries. */
  function ChunkBody(cs: ChunkStream, size: nat): (n: nat)
    requires Filling(cs)
  {
    Min(cs.header.length - |cs.partial.value|, size)
  }

  function MessageOf(cid: nat, h: Header, payload: bytes): Message {
    Message(cid, h.mtype, h.sid, h.time, payload)
  }

  function ReadPayload(cid: nat, cs: ChunkStream, size: nat, b: bytes): (r: Parse<(ChunkStream, Option<Message>)>)
    requires Filling(cs) && size >= MIN_CHUNK
    ensures r.Ok? ==> Resting(r.value.0) && |r.rest| <= |b|
  {
    var n := ChunkBody(cs, size);
    if cs.header.length == 0 then Ok((cs.(partial := None), Some(MessageOf(cid, cs.header, []))), b)
    else if n > RECV_BUFFER then Bad(Overflow)
    else if |b| < n then More
    else
      var payload := cs.partial.value + b[..n];
      if |payload| == cs.header.length
      then Ok((cs.(partial := None), Some(MessageOf(cid, cs.header, payload))), b[n..])
      else Ok((cs.(partial := Some(payload)), None), b[n..])
  }

  /** One chunk: basic header, message header, payload slice. */
  function ReadChunk(st: Receiver, b: bytes): (r: Parse<(Receiver, Option<Message>)>)
    requires ReceiverOk(st)
    ensures r.Ok? ==> ReceiverOk(r.value.0) && r.value.0.size == st.size && |r.rest| < |b|
  {
    match ReadBasicHeader(b)
    case More => More
    case Bad(e) => Bad(e)
    case Ok((fmt, cid), b1) =>
      match ReadMessageHeader(StreamOf(st.streams, cid), fmt, b1)
      case More => More
      case Bad(e) => Bad(e)
      case Ok(cs, b2) =>
        match ReadPayload(cid, cs, st.size, b2)
        case More => More
        case Bad(e) => Bad(e)
        case Ok((cs', m), b3) => Ok((st.(streams := st.streams[cid := cs']), m), b3)
  }

  predicate UserControlOk(p: bytes) {
    && |p| >= 2
    && |p| >= (if U16(p) == FMS_EVENT0 then 3 else if U16(p) == SET_BUFFER_LENGTH then 10 else 6)
  }

  /** What the protocol layer does with a complete message: refuse it, or adopt a new chunk size. */
  function OnMessage(st: Receiver, m: Message): (r: Parse<Receiver>)
    requires ReceiverOk(st)
    ensures !r.More?
    ensures r.Ok? ==> ReceiverOk(r.value) && r.value.streams == st.streams && r.rest == []
  {
    if m.mtype == SET_CHUNK_SIZE then
      if |m.payload| < 4 then Bad(BadPacket)
      else
        var n := S32(U32(m.payload));
        if n < MIN_CHUNK then Bad(ChunkTooSmall) else Ok(st.(size := n), [])
    else if m.mtype == USER_CONTROL && !UserControlOk(m.payload) then Bad(BadPacket)
    else if m.mtype == WINDOW_ACK_SIZE && |m.payload| < 4 then Bad(BadPacket)
    else Ok(st, [])
  }

  /** The next non-empty message. */
  function ReadMessage(st: Receiver, b: bytes): (r: Parse<(Receiver, Message)>)
    requires ReceiverOk(st)
    ensures r.Ok? ==> ReceiverOk(r.value.0) && |r.rest| < |b|
    decreases |b|
  {
    match ReadChunk(st, b)
    case More => More
    case Bad(e) => Bad(e)
    case Ok((st', None), rest) => ReadMessage(st', rest)
    case Ok((st', Some(m)), rest) =>
      if m.payload == [] then ReadMessage(st', rest)
      else
        match OnMessage(st', m)
        case Bad(e) => Bad(e)
        case Ok(st'', _) => Ok((st'', m), rest)
  }

  /** Everything a byte stream delivers before it runs dry (`stop == ReadFailed`) or is refused. */
  datatype Run = Run(messages: seq<Message>, stop: Error)

  function ReadAll(st: Receiver, b: bytes): (r: Run)
    requires ReceiverOk(st)
    decreases |b|
  {
    match ReadMessage(st, b)
    case More => Run([], ReadFailed)
    case Bad(e) => Run([], e)
    case Ok((st', m), rest) =>
      var r := ReadAll(st', rest);
      r.(messages := [m] + r.messages)
  }
}
