/**
 The protocol object: one socket, one receive buffer, the chunk streams and the two chunk sizes.
 Each method is proved against the functions of RtmpChunk and RtmpSend, for every way the socket
 may split the incoming bytes into reads.
 */
module RtmpProtocol {
  import opened Bytes
  import opened FastStream
  import opened RtmpChunk
  import S = RtmpSend
  import P = RtmpPeer

  const MAX_FMT0_HEADER := 16
  const MAX_FMT3_HEADER := 5

  datatype Result<+T> = Success(value: T) | Failure(error: Error)

  /** A method that consumes bytes agrees with the parse of the unread stream. */
  ghost predicate Agrees<T>(r: Result<T>, spec: Parse<T>, unread: bytes) {
    match spec
    case Ok(v, rest) => r == Success(v) && unread == rest
    case Bad(e) => r == Failure(e)
    case More => r == Failure(ReadFailed)
  }

  /** Fills `cache` with the format-0 header; no header if the cache is too small. */
  method ChunkHeaderC0(m: S.Outgoing, cache: array<byte>) returns (n: nat)
    modifies cache
    ensures cache.Length < MAX_FMT0_HEADER ==> n == 0
    ensures cache.Length >= MAX_FMT0_HEADER ==> n <= cache.Length && cache[..n] == S.C0(m)
  {
    if cache.Length < MAX_FMT0_HEADER { return 0; }
    hide BE3, BE4, LE4;
    var t := m.timestamp % TWO32;
    Put(cache, 0, [m.cid % 64]);
    Put(cache, 1, BE3(if t < EXTENDED then t else EXTENDED));
    Put(cache, 4, BE3(|m.payload|));
    Put(cache, 7, [m.mtype]);
    Put(cache, 8, LE4(m.sid));
    n := 12;
    if t >= EXTENDED {
      Put(cache, 12, BE4(t));
      n := 16;
    }
  }

  method Put(cache: array<byte>, at: nat, b: bytes)
    requires at + |b| <= cache.Length
    modifies cache
    ensures cache[..at + |b|] == old(cache[..at]) + b
  {
    var i := 0;
    while i < |b|
      invariant i <= |b| && cache[..at + i] == old(cache[..at]) + b[..i]
    {
      cache[at + i] := b[i];
      i := i + 1;
    }
  }

  /** Fills `cache` with the format-3 header. */
  method ChunkHeaderC3(m: S.Outgoing, cache: array<byte>) returns (n: nat)
    modifies cache
    ensures cache.Length < MAX_FMT3_HEADER ==> n == 0
    ensures cache.Length >= MAX_FMT3_HEADER ==> n <= cache.Length && cache[..n] == S.C3(m)
  {
    if cache.Length < MAX_FMT3_HEADER { return 0; }
    var t := m.timestamp % TWO32;
    cache[0] := 192 + m.cid % 64;
    n := 1;
    if t >= EXTENDED {
      var word := BE4(t);
      cache[1], cache[2], cache[3], cache[4] := word[0], word[1], word[2], word[3];
      n := 5;
    }
  }

  /** The check before a batch is sent, in place. */
  method CheckBatch(msgs: array<S.Outgoing>, sid: nat)
    modifies msgs
    ensures msgs[..] == S.Prepared(old(msgs[..]), sid)
  {
    hide S.Prepared, S.Fixed;
    var i := 0;
    ghost var was := msgs[..];
    assert was[0..] == was && [] + S.Prepared(was, sid) == S.Prepared(was, sid);
    while i < msgs.Length
      invariant i <= msgs.Length && msgs[i..] == was[i..]
      invariant msgs[..i] + S.Prepared(was[i..], sid) == S.Prepared(was, sid)
    {
      var m := msgs[i];
      ghost var done := msgs[..i];
      PreparedStep(was, i, sid);
      Assoc(done, [S.Fixed(m, sid)], if m.sid == sid then was[i + 1..] else S.Prepared(was[i + 1..], sid));
      Replace(msgs, i, S.Fixed(m, sid));
      i := i + 1;
      if m.sid == sid {
        assert msgs[..] == msgs[..i] + msgs[i..];
        return;
      }
    }
    PreparedNothing(sid);
    assert was[i..] == [] && msgs[..i] == msgs[..] && msgs[..] + [] == msgs[..];
  }

  lemma PreparedStep(msgs: seq<S.Outgoing>, i: nat, sid: nat)
    requires i < |msgs|
    ensures var rest := msgs[i + 1..];
            S.Prepared(msgs[i..], sid) == [S.Fixed(msgs[i], sid)] + if msgs[i].sid == sid then rest
                else S.Prepared(rest, sid)
  {
    assert msgs[i..][1..] == msgs[i + 1..];
  }

  lemma PreparedNothing(sid: nat)
    ensures S.Prepared([], sid) == []
  {
  }

  method Replace(msgs: array<S.Outgoing>, i: nat, m: S.Outgoing)
    requires i < msgs.Length
    modifies msgs
    ensures msgs[..i + 1] == old(msgs[..i]) + [m] && msgs[i + 1..] == old(msgs[i + 1..])
  {
    msgs[i] := m;
  }

  class Protocol {
    const skt: Reader
    const buffer: Stream
    var chunkStreams: map<nat, ChunkStream>
    var inChunkSize: nat
    var outChunkSize: nat
    var written: bytes

    ghost predicate Valid()
      reads this, buffer
    {
      && buffer.Valid() && buffer.buffer.Length == RECV_BUFFER
      && ReceiverOk(Receiver(inChunkSize, chunkStreams))
    }

    ghost function Unread(): bytes
      requires Valid()
      reads this, skt, buffer, buffer.buffer
    {
      buffer.Buffered() + skt.pending
    }

    constructor (incoming: bytes)
      ensures Valid() && Unread() == incoming && written == []
      ensures fresh(skt) && fresh(buffer) && fresh(buffer.buffer)
      ensures chunkStreams == map[] && inChunkSize == outChunkSize == 128
    {
      skt := new Reader(incoming);
      buffer := new Stream(0);
      chunkStreams := map[];
      inChunkSize, outChunkSize, written := 128, 128, [];
    }

    /** `n` more bytes of the stream, or the reason why not. */
    method Take(n: nat) returns (r: Result<bytes>)
      requires Valid()
      modifies buffer, buffer.buffer, skt
      ensures Valid() && |old(Unread())| >= |Unread()|
      ensures n > RECV_BUFFER ==> r == Failure(Overflow)
      ensures n <= RECV_BUFFER && |old(Unread())| < n ==> r == Failure(ReadFailed)
      ensures n <= RECV_BUFFER && |old(Unread())| >= n ==>
        r == Success(old(Unread())[..n]) && Unread() == old(Unread())[n..]
      ensures r.Success? ==> buffer.p >= n && buffer.buffer[buffer.p - n..buffer.p] == r.value
    {
      var g := buffer.Grow(skt, n);
      match g
      case Overflowed => return Failure(Overflow);
      case Closed => return Failure(ReadFailed);
      case Ready =>
        ghost var all := Unread();
        var s := buffer.ReadSlice(n);
        assert s + (buffer.Buffered() + skt.pending) == all;
        return Success(s);
    }

    method ReadBasicHeader() returns (r: Result<(nat, nat)>)
      requires Valid()
      modifies buffer, buffer.buffer, skt
      ensures Valid() && Agrees(r, RtmpChunk.ReadBasicHeader(old(Unread())), Unread())
    {
      ghost var b := Unread();
      var first := Take(1);
      if first.Failure? { return Failure(first.error); }
      var fmt, low := first.value[0] / 64, first.value[0] % 64;
      if low > 1 {
        return Success((fmt, low));
      } else if low == 0 {
        var more := Take(1);
        if more.Failure? { return Failure(more.error); }
        assert more.value[0] == b[1] && b[1..][1..] == b[2..];
        return Success((fmt, 64 + more.value[0] as int));
      } else {
        var more := Take(2);
        if more.Failure? { return Failure(more.error); }
        assert more.value[0] == b[1] && more.value[1] == b[2] && b[1..][2..] == b[3..];
        return Success((fmt, 64 + more.value[0] as int + more.value[1] as int * 256));
      }
    }

    /** Bytes just taken are unread again. */
    method PutBack(s: bytes)
      requires Valid() && |s| <= buffer.p && buffer.buffer[buffer.p - |s|..buffer.p] == s
      modifies buffer
      ensures Valid() && Unread() == s + old(Unread())
    {
      buffer.Skip(-|s|);
      assert buffer.Buffered() == s + old(buffer.Buffered());
      Assoc(s, old(buffer.Buffered()), skt.pending);
    }

    /** The look-ahead of four bytes is put back when it turns out to be payload. */
    method ReadExtended(cs: ChunkStream, fmt: nat) returns (r: Result<ChunkStream>)
      requires Valid()
      modifies buffer, buffer.buffer, skt
      ensures Valid() && Agrees(r, ApplyExtended(cs, fmt, old(Unread())), Unread())
    {
      if !cs.hasExt { return Success(cs); }
      ghost var b := Unread();
      var s := Take(4);
      if s.Failure? { return Failure(s.error); }
      assert U32(s.value) == U32(b);
      hide U32;
      var word := U32(s.value) % TWO31;
      var first := cs.partial.None?;
      if !first && cs.ext > 0 && cs.ext != word {
        PutBack(s.value);
        assert s.value + b[4..] == b;
        return Success(cs);
      }
      var time := if fmt == 0 then word else if first then cs.header.time + word else cs.header.time;
      return Success(cs.(ext := word, header := cs.header.(time := time)));
    }

    method ReadMessageHeader(cs: ChunkStream, fmt: nat) returns (r: Result<ChunkStream>)
      requires Valid() && fmt < 4 && Resting(cs)
      modifies buffer, buffer.buffer, skt
      ensures Valid() && Agrees(r, RtmpChunk.ReadMessageHeader(cs, fmt, old(Unread())), Unread())
    {
      hide ApplyFields, ApplyExtended, U24, Resting;
      ghost var b := Unread();
      if cs.count == 0 && fmt != 0 && fmt != 1 { return Failure(ChunkStart); }
      if cs.partial.Some? && fmt == 0 { return Failure(ChunkStart); }
      var h := Take(HeaderSize(fmt));
      if h.Failure? { return Failure(h.error); }
      if cs.partial.Some? && fmt == 1 {
        LengthIsPrefix(b);
        if U24(h.value[3..]) != cs.header.length { return Failure(PacketSize); }
      }
      FieldsArePrefix(cs, fmt, b);
      FieldsRest(cs, fmt, b);
      var e := ReadExtended(ApplyFields(cs, fmt, h.value), fmt);
      if e.Failure? { return Failure(e.error); }
      return Success(Started(e.value));
    }

    method ReadMessagePayload(cid: nat, cs: ChunkStream) returns (r: Result<(ChunkStream, Option<Message>)>)
      requires Valid() && Filling(cs)
      modifies buffer, buffer.buffer, skt
      ensures Valid() && Agrees(r, ReadPayload(cid, cs, inChunkSize, old(Unread())), Unread())
    {
      if cs.header.length == 0 { return Success((cs.(partial := None), Some(MessageOf(cid, cs.header, [])))); }
      var n := Min(cs.header.length - |cs.partial.value|, inChunkSize);
      var s := Take(n);
      if s.Failure? { return Failure(s.error); }
      var payload := cs.partial.value + s.value;
      if |payload| == cs.header.length {
        return Success((cs.(partial := None), Some(MessageOf(cid, cs.header, payload))));
      }
      return Success((cs.(partial := Some(payload)), None));
    }

    /** One chunk; the stream record is replaced in the map. */
    method RecvInterlacedMessage() returns (r: Result<Option<Message>>)
      requires Valid()
      modifies this, buffer, buffer.buffer, skt
      ensures Valid() && inChunkSize == old(inChunkSize) && outChunkSize == old(outChunkSize) && written == old(written)
      ensures match ReadChunk(Receiver(old(inChunkSize), old(chunkStreams)), old(Unread()))
              case Ok((st, m), rest) => r == Success(m) && chunkStreams == st.streams && Unread() == rest
              case Bad(e) => r == Failure(e)
              case More => r == Failure(ReadFailed)
    {
      hide RtmpChunk.ReadBasicHeader, RtmpChunk.ReadMessageHeader, ReadPayload;
      var basic := ReadBasicHeader();
      if basic.Failure? { return Failure(basic.error); }
      var (fmt, cid) := basic.value;
      var header := ReadMessageHeader(StreamOf(chunkStreams, cid), fmt);
      if header.Failure? { return Failure(header.error); }
      var body := ReadMessagePayload(cid, header.value);
      if body.Failure? { return Failure(body.error); }
      chunkStreams := chunkStreams[cid := body.value.0];
      return Success(body.value.1);
    }

    method OnRecvMessage(m: Message) returns (r: Result<()>)
      requires Valid()
      modifies this`inChunkSize
      ensures Valid()
      ensures match OnMessage(Receiver(old(inChunkSize), chunkStreams), m)
              case Ok(st, _) => r == Success(()) && inChunkSize == st.size
              case Bad(e) => r == Failure(e) && inChunkSize == old(inChunkSize)
    {
      if m.mtype == SET_CHUNK_SIZE {
        if |m.payload| < 4 { return Failure(BadPacket); }
        var n := S32(U32(m.payload));
        if n < MIN_CHUNK { return Failure(ChunkTooSmall); }
        inChunkSize := n;
      } else if m.mtype == USER_CONTROL && !UserControlOk(m.payload) {
        return Failure(BadPacket);
      } else if m.mtype == WINDOW_ACK_SIZE && |m.payload| < 4 {
        return Failure(BadPacket);
      }
      return Success(());
    }

    /** Chunks are read until a non-empty message is complete. */
    method RecvMessage() returns (r: Result<Message>)
      requires Valid()
      modifies this, buffer, buffer.buffer, skt
      ensures Valid() && outChunkSize == old(outChunkSize) && written == old(written)
      ensures match ReadMessage(Receiver(old(inChunkSize), old(chunkStreams)), old(Unread()))
              case Ok((st, m), rest) => r == Success(m) && Receiver(inChunkSize, chunkStreams) == st && Unread() == rest
              case Bad(e) => r == Failure(e)
              case More => r == Failure(ReadFailed)
    {
      hide ReadChunk, OnMessage, ReceiverOk;
      ghost var goal := ReadMessage(Receiver(inChunkSize, chunkStreams), Unread());
      while true
        invariant Valid() && outChunkSize == old(outChunkSize) && written == old(written)
        invariant ReadMessage(Receiver(inChunkSize, chunkStreams), Unread()) == goal
        decreases |Unread()|
      {
        var c := RecvInterlacedMessage();
        if c.Failure? { return Failure(c.error); }
        if c.value.Some? && c.value.value.payload != [] {
          var done := OnRecvMessage(c.value.value);
          if done.Failure? { return Failure(done.error); }
          return Success(c.value.value);
        }
      }
    }

    /** All messages until the stream ends or is refused. */
    method RecvAll() returns (messages: seq<Message>, stop: Error)
      requires Valid()
      modifies this, buffer, buffer.buffer, skt
      ensures Run(messages, stop) == ReadAll(Receiver(old(inChunkSize), old(chunkStreams)), old(Unread()))
    {
      hide ReadMessage, ReceiverOk;
      ghost var goal := ReadAll(Receiver(inChunkSize, chunkStreams), Unread());
      messages := [];
      while true
        invariant Valid()
        invariant goal == (var r := ReadAll(Receiver(inChunkSize, chunkStreams), Unread());
                           r.(messages := messages + r.messages))
        decreases |Unread()|
      {
        ghost var next := ReadMessage(Receiver(inChunkSize, chunkStreams), Unread());
        ghost var rest := ReadAll(Receiver(inChunkSize, chunkStreams), Unread());
        var m := RecvMessage();
        if m.Failure? {
          assert messages + [] == messages;
          return messages, m.error;
        }
        ghost var after := ReadAll(Receiver(inChunkSize, chunkStreams), Unread());
        assert messages + ([m.value] + after.messages) == (messages + [m.value]) + after.messages;
        messages := messages + [m.value];
      }
    }

    /** One message as chunks; an empty message sends nothing. */
    method DoSendMessage(m: S.Outgoing)
      requires outChunkSize > 0
      modifies this`written
      ensures written == old(written) + S.Chunks(m, outChunkSize, 0)
    {
      hide S.C0, S.C3, S.Chunks;
      if m.payload == [] { S.NothingToSend(m, outChunkSize); }
      var p := 0;
      var cache := new byte[MAX_FMT0_HEADER];
      while p < |m.payload|
        invariant p <= |m.payload| && (p == |m.payload| ==> S.Chunks(m, outChunkSize, p) == [])
        invariant written + S.Chunks(m, outChunkSize, p) == old(written) + S.Chunks(m, outChunkSize, 0)
      {
        var nbh;
        if p == 0 { nbh := ChunkHeaderC0(m, cache); } else { nbh := ChunkHeaderC3(m, cache); }
        var n := Min(outChunkSize, |m.payload| - p);
        S.NextChunk(m, outChunkSize, p);
        ghost var rest := S.Chunks(m, outChunkSize, p + n);
        assert written + (cache[..nbh] + m.payload[p..p + n] + rest)
               == (written + cache[..nbh] + m.payload[p..p + n]) + rest;
        written := written + cache[..nbh] + m.payload[p..p + n];
        p := p + n;
      }
      assert written + [] == written;
    }

    /** A raw message, or a SetChunkSize packet, which takes effect right after it is sent. */
    method Send(it: S.Item)
      requires outChunkSize > 0 && S.ItemOk(it)
      modifies this`written, this`outChunkSize
      ensures written == old(written) + S.Chunks(S.MessageOfItem(it), old(outChunkSize), 0)
      ensures outChunkSize == S.SizeAfter(it, old(outChunkSize)) && outChunkSize > 0
    {
      DoSendMessage(S.MessageOfItem(it));
      if it.SetChunkSize? { outChunkSize := it.size; }
    }

    method SendAll(items: seq<S.Item>)
      requires outChunkSize > 0 && forall it :: it in items ==> S.ItemOk(it)
      modifies this`written, this`outChunkSize
      ensures written == old(written) + S.Wire(items, old(outChunkSize))
              && outChunkSize == S.OutSize(items, old(outChunkSize))
    {
      hide S.ItemOk, S.Chunks;
      var i := 0;
      assert items[0..] == items;
      while i < |items|
        invariant i <= |items| && outChunkSize > 0
        invariant written + S.Wire(items[i..], outChunkSize) == old(written) + S.Wire(items, old(outChunkSize))
        invariant S.OutSize(items[i..], outChunkSize) == S.OutSize(items, old(outChunkSize))
      {
        ghost var before, size := written, outChunkSize;
        Send(items[i]);
        assert items[i..][0] == items[i] && items[i..][1..] == items[i + 1..];
        assert (before + S.Chunks(S.MessageOfItem(items[i]), size, 0)) + S.Wire(items[i + 1..], outChunkSize)
            == before + (S.Chunks(S.MessageOfItem(items[i]), size, 0) + S.Wire(items[i + 1..], outChunkSize));
        i := i + 1;
      }
      assert written + [] == written;
    }
  }

  /** A header that is not refused leaves room for the message in progress. */
  lemma FieldsRest(cs: ChunkStream, fmt: nat, b: bytes)
    requires fmt < 4 && Resting(cs) && |b| >= HeaderSize(fmt)
    requires cs.partial.Some? ==> fmt != 0 && (fmt == 1 ==> U24(b[3..]) == cs.header.length)
    ensures var c := ApplyExtended(ApplyFields(cs, fmt, b), fmt, b[HeaderSize(fmt)..]); c.Ok? ==> Resting(c.value)
  {
  }

  lemma LengthIsPrefix(b: bytes)
    requires |b| >= HeaderSize(1)
    ensures HeaderSize(1) >= 6 && U24(b[..HeaderSize(1)][3..]) == U24(b[3..])
  {
    assert b[..HeaderSize(1)][3..] == b[3..HeaderSize(1)];
  }

  lemma FieldsArePrefix(cs: ChunkStream, fmt: nat, b: bytes)
    requires fmt < 4 && |b| >= HeaderSize(fmt)
    ensures ApplyFields(cs, fmt, b[..HeaderSize(fmt)]) == ApplyFields(cs, fmt, b)
  {
  }

  /** End to end: what one protocol object sends, another one receives, over a socket that may
      split the bytes in any way. */
  method Transfer(items: seq<S.Item>) returns (messages: seq<Message>)
    requires forall it :: it in items ==> S.ItemOk(it)
    ensures messages == S.AllDelivered(items)
  {
    hide S.Wire, ReadAll, S.OutSize, S.AllDelivered, S.ItemOk;
    var sender := new Protocol([]);
    sender.SendAll(items);
    assert [] + S.Wire(items, 128) == S.Wire(items, 128);
    var receiver := new Protocol(sender.written);
    var stop;
    ghost var st := Receiver(128, map[]);
    messages, stop := receiver.RecvAll();
    ghost var st' := S.RoundTrip(st, items, []);
    assert S.Wire(items, 128) + [] == S.Wire(items, 128);
    P.EndOfStream(st');
    assert S.AllDelivered(items) + [] == S.AllDelivered(items);
  }
}
