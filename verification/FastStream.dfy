/**
 The sliding receive buffer between the socket and the protocol parsers. Whatever the sizes of the
 individual socket reads, it behaves as one stream of unread bytes.
 */
module FastStream {
  import opened Bytes

  const DEFAULT_SIZE := 131072

  datatype GrowResult = Ready | Overflowed | Closed

  /** A socket: each read returns some of the bytes still to come, at least one and at most what
      was asked for; it fails once nothing is left. */
  class Reader {
    var pending: bytes

    constructor (pending: bytes)
      ensures this.pending == pending
    {
      this.pending := pending;
    }

    method Read(max: nat) returns (data: Option<bytes>)
      requires max > 0
      modifies this
      ensures data.None? ==> old(pending) == [] && pending == old(pending)
      ensures data.Some? ==> 0 < |data.value| <= max && old(pending) == data.value + pending
    {
      if pending == [] { return None; }
      var n :| 1 <= n <= max && n <= |pending|;
      data := Some(pending[..n]);
      pending := pending[n..];
    }
  }

  class Stream {
    const buffer: array<byte>
    var p: nat
    var end: nat

    ghost predicate Valid()
      reads this
    {
      p <= end <= buffer.Length
    }

    /** The bytes received and not yet consumed. */
    ghost function Buffered(): bytes
      requires Valid()
      reads this, buffer
    {
      buffer[p..end]
    }

    constructor (size: nat)
      ensures Valid() && fresh(buffer) && Buffered() == []
      ensures buffer.Length == if size != 0 then size else DEFAULT_SIZE
    {
      buffer := new byte[if size != 0 then size else DEFAULT_SIZE];
      p, end := 0, 0;
    }

    method ReadSlice(size: nat) returns (s: bytes)
      requires Valid() && end - p >= size
      modifies this`p
      ensures Valid() && p == old(p) + size
      ensures |s| == size && s + Buffered() == old(Buffered())
      ensures s == buffer[old(p)..p]
    {
      s := buffer[p..p + size];
      p := p + size;
    }

    /** Moves over bytes, or back over bytes that were just consumed. */
    method Skip(size: int)
      requires Valid() && end - p >= size && p + size >= 0
      modifies this`p
      ensures Valid() && p == old(p) + size
      ensures size <= 0 ==> Buffered() == buffer[p..old(p)] + old(Buffered())
    {
      p := p + size;
    }

    /** Makes `required` bytes available. No byte of the stream is lost, duplicated or reordered;
        it overflows exactly when `required` exceeds the buffer, and otherwise it fails exactly
        when the stream ends too early. */
    method Grow(reader: Reader, required: nat) returns (r: GrowResult)
      requires Valid()
      modifies this, buffer, reader
      ensures Valid()
      ensures Buffered() + reader.pending == old(Buffered() + reader.pending)
      ensures r.Overflowed? <==> required > buffer.Length
      ensures r.Closed? <==> required <= buffer.Length && required > |old(Buffered() + reader.pending)|
      ensures r.Ready? ==> end - p >= required
    {
      if end - p >= required { return Ready; }
      var freeSpace := buffer.Length - end;
      var exists_ := end - p;
      if exists_ + freeSpace < required {
        if exists_ == 0 {
          p, end := 0, 0;
        } else if exists_ < buffer.Length && p > 0 {
          Compact();
        }
        freeSpace := buffer.Length - end;
        if exists_ + freeSpace < required { return Overflowed; }
      }
      r := Fill(reader, required);
    }

    /** Reads until there is enough; the socket gives what it likes each time. */
    method Fill(reader: Reader, required: nat) returns (r: GrowResult)
      requires Valid() && required <= buffer.Length - p
      modifies this, buffer, reader
      ensures Valid()
      ensures Buffered() + reader.pending == old(Buffered() + reader.pending)
      ensures !r.Overflowed? && (r.Closed? <==> required > |old(Buffered() + reader.pending)|)
      ensures r.Ready? ==> end - p >= required
    {
      while end - p < required
        invariant Valid() && required <= buffer.Length - p
        invariant Buffered() + reader.pending == old(Buffered() + reader.pending)
        decreases required - (end - p)
      {
        ghost var before := Buffered();
        var data := reader.Read(buffer.Length - end);
        if data.None? { return Closed; }
        Append(data.value);
        Assoc(before, data.value, reader.pending);
      }
      return Ready;
    }

    /** The received bytes land behind `end`. */
    method Append(data: bytes)
      requires Valid() && end + |data| <= buffer.Length
      modifies this`end, buffer
      ensures Valid() && end == old(end) + |data|
      ensures Buffered() == old(Buffered()) + data
    {
      forall i | 0 <= i < |data| { buffer[end + i] := data[i]; }
      end := end + |data|;
    }

    /** Moves the unread bytes to the front of the buffer. */
    method Compact()
      requires Valid()
      modifies this, buffer
      ensures Valid() && p == 0 && end == old(end - p) && Buffered() == old(Buffered())
    {
      var n := end - p;
      forall i | 0 <= i < n { buffer[i] := buffer[p + i]; }
      p, end := 0, n;
    }
  }
}
