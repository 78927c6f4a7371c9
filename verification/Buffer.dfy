/**
 The byte cursor that the codecs read from and write through: a fixed array and a position.
 */
module Buffer {
  import opened Bytes

  class Cursor {
    const data: array<byte>
    var pos: nat

    ghost predicate Valid()
      reads this
    {
      pos <= data.Length
    }

    /** The bytes before the position. */
    ghost function Done(): bytes
      requires Valid()
      reads this, data
    {
      data[..pos]
    }

    /** The bytes from the position on. */
    ghost function Left(): bytes
      requires Valid()
      reads this, data
    {
      data[pos..]
    }

    constructor (data: array<byte>)
      ensures Valid() && this.data == data && pos == 0
    {
      this.data, pos := data, 0;
    }

    predicate Require(n: int)
      reads this
    {
      0 <= n <= data.Length - pos
    }

    method Skip(n: int)
      requires Valid() && 0 <= pos + n <= data.Length
      modifies this`pos
      ensures Valid() && pos == old(pos) + n
    {
      pos := pos + n;
    }

    method Read(n: nat) returns (b: bytes)
      requires Valid() && Require(n)
      modifies this`pos
      ensures Valid() && pos == old(pos) + n
      ensures b == old(Left())[..n] && Left() == old(Left())[n..]
    {
      b := data[pos..pos + n];
      pos := pos + n;
    }

    method Write(b: bytes)
      requires Valid() && Require(|b|)
      modifies this`pos, data
      ensures Valid() && pos == old(pos) + |b|
      ensures Done() == old(Done()) + b
    {
      forall i | 0 <= i < |b| { data[pos + i] := b[i]; }
      pos := pos + |b|;
    }

    /** Fills in four bytes whose place was left open earlier. */
    method Patch4(at: nat, v: int)
      requires Valid() && at + 4 <= pos
      modifies data
      ensures Done() == old(Done())[..at] + BE4(v) + old(Done())[at + 4..]
    {
      var b := BE4(v);
      ghost var was := data[..pos];
      data[at], data[at + 1], data[at + 2], data[at + 3] := b[0], b[1], b[2], b[3];
      assert data[..at] == was[..at] && data[at..at + 4] == b && data[at + 4..pos] == was[at + 4..];
      assert data[..pos] == data[..at] + data[at..at + 4] + data[at + 4..pos];
    }
  }
}
