/**
 Protocol control messages (sections 5.4 and 7.1.7 of the RTMP specification 1.0) as a peer encodes
 them, and what the receiver does with each of them and with each truncation.
 */
module RtmpControl {
  import opened Bytes
  import opened RtmpChunk

  /** Stream events carry four bytes; the buffer length event two words; event 0x1a one byte. */
  datatype Control =
    | ChunkSize(size: nat)
    | StreamEvent(event: nat, data: nat)
    | BufferLength(sid: nat, ms: nat)
    | FmsEvent(flag: byte)
    | WindowAck(window: nat)

  predicate Sendable(c: Control) {
    match c
    case ChunkSize(size) => size < TWO32
    case StreamEvent(event, data) => event < 0x1_0000 && event != 3 && event != 0x1a && data < TWO32
    case BufferLength(sid, ms) => sid < TWO32 && ms < TWO32
    case FmsEvent(_) => true
    case WindowAck(window) => window < TWO32
  }

  function TypeOf(c: Control): byte {
    match c
    case ChunkSize(_) => 1
    case StreamEvent(_, _) => 4
    case BufferLength(_, _) => 4
    case FmsEvent(_) => 4
    case WindowAck(_) => 5
  }

  function Encoded(c: Control): bytes {
    match c
    case ChunkSize(size) => BE4(size)
    case StreamEvent(event, data) => BE2(event) + BE4(data)
    case BufferLength(sid, ms) => [0, 3] + BE4(sid) + BE4(ms)
    case FmsEvent(flag) => [0, 0x1a, flag]
    case WindowAck(window) => BE4(window)
  }

  /** The length of the data behind the event number of a user control message. */
  function EventData(payload: bytes): nat
    requires |payload| >= 2
  {
    if payload[0] == 0 && payload[1] == 3 then 8 else if payload[0] == 0 && payload[1] == 0x1a then 1 else 4
  }

  /** A control message that is complete, with a chunk size that both ends can work with. */
  predicate ControlOk(mtype: byte, payload: bytes) {
    && (mtype == 1 ==> |payload| >= 4 && 128 <= U32(payload) <= 131072)
    && (mtype == 4 ==> |payload| >= 2 && |payload| >= 2 + EventData(payload))
    && (mtype == 5 ==> |payload| >= 4)
  }

  /** What the receiver should do: adopt a chunk size of at least 128, a positive 32-bit number. */
  function Effect(st: Receiver, c: Control): Parse<Receiver> {
    match c
    case ChunkSize(size) => if 128 <= size < 0x8000_0000 then Ok(st.(size := size), []) else Bad(ChunkTooSmall)
    case _ => Ok(st, [])
  }

  lemma StreamEventBytes(event: nat, data: nat, more: bytes)
    requires event < 0x1_0000
    ensures var p := BE2(event) + BE4(data) + more;
            U16(p) == event && |p| == 6 + |more| && (0x100 * (p[0] as int) + p[1]) == event
  {
    U16OfBE2(event, BE4(data) + more);
    Assoc(BE2(event), BE4(data), more);
  }

  /** Every complete control message is accepted, with or without bytes behind it, and changes the
      chunk size and nothing else; a chunk size below 128, or negative as a 32-bit number, is refused. */
  lemma ControlIsTaken(st: Receiver, cid: nat, sid: nat, time: nat, c: Control, more: bytes)
    requires ReceiverOk(st) && Sendable(c)
    ensures OnMessage(st, Message(cid, TypeOf(c), sid, time, Encoded(c) + more)) == Effect(st, c)
  {
    hide BE2, BE4, U32, U16;
    match c
    case ChunkSize(size) => U32OfBE4(size, more);
    case StreamEvent(event, data) => StreamEventBytes(event, data, more);
    case BufferLength(sid, ms) => EventIs(0, 3, BE4(sid) + BE4(ms) + more, Encoded(c) + more);
    case FmsEvent(flag) => EventIs(0, 0x1a, [flag] + more, Encoded(c) + more);
    case WindowAck(_) =>
  }

  lemma EventIs(a: byte, b: byte, rest: bytes, p: bytes)
    requires p == [a, b] + rest
    ensures U16(p) == 0x100 * (a as int) + b && |p| == 2 + |rest|
  {
  }

  /** Every truncation of a control message is refused. */
  lemma TruncatedIsRefused(st: Receiver, cid: nat, sid: nat, time: nat, c: Control, n: nat)
    requires ReceiverOk(st) && Sendable(c) && n < |Encoded(c)|
    ensures OnMessage(st, Message(cid, TypeOf(c), sid, time, Encoded(c)[..n])) == Bad(BadPacket)
  {
    hide BE2, BE4, U16;
    var p := Encoded(c)[..n];
    if n >= 2 {
      match c
      case StreamEvent(event, data) =>
        StreamEventBytes(event, data, []);
        assert BE2(event) + BE4(data) + [] == Encoded(c);
        EventIs(p[0], p[1], p[2..], p);
      case BufferLength(_, _) => EventIs(0, 3, p[2..], p);
      case FmsEvent(_) => EventIs(0, 0x1a, p[2..], p);
      case ChunkSize(_) =>
      case WindowAck(_) =>
    }
  }

  /** All in all: a message is refused exactly when it is a control message cut short, or a chunk size
      out of range; any other message passes and leaves the receiver as it is. */
  lemma RefusedExactly(st: Receiver, m: Message)
    requires ReceiverOk(st)
    ensures var cut := || (m.mtype == 1 && |m.payload| < 4) || (m.mtype == 5 && |m.payload| < 4)
                       || (m.mtype == 4 && (|m.payload| < 2 || |m.payload| < 2 + EventData(m.payload)));
            && (OnMessage(st, m) == Bad(BadPacket) <==> cut)
            && (OnMessage(st, m) == Bad(ChunkTooSmall) <==>
                  m.mtype == 1 && !cut && !(128 <= U32(m.payload) < 0x8000_0000))
            && (m.mtype != 1 && !cut ==> OnMessage(st, m) == Ok(st, []))
  {
  }
}
