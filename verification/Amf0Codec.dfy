/**
 The AMF 0 reader and writer as the code runs them: recursive methods that move one cursor.
 */
module Amf0Codec {
  import opened Bytes
  import opened Buffer
  import opened Amf0

  method ReadUtf8(stream: Cursor) returns (r: Option<bytes>)
    requires stream.Valid()
    modifies stream`pos
    ensures stream.Valid()
    ensures match Amf0.ReadUtf8(old(stream.Left()))
            case Got(s, rest) => r == Some(s) && stream.Left() == rest
            case Bad => r == None
  {
    if !stream.Require(2) { return None; }
    var head := stream.Read(2);
    var len := U16(head);
    if len == 0 || len > MAX_STRING { return Some([]); }
    if !stream.Require(len) { return None; }
    ghost var b := old(stream.Left());
    assert b[2..][..len] == b[2..2 + len] && b[2..][len..] == b[2 + len..];
    var s := stream.Read(len);
    return Some(s);
  }

  /** Looks at three bytes and moves back. */
  method IsObjectEof(stream: Cursor) returns (r: bool)
    requires stream.Valid()
    modifies stream`pos
    ensures stream.Valid() && stream.pos == old(stream.pos) && r == IsEof(stream.Left())
  {
    if !stream.Require(3) { return false; }
    var flag := stream.Read(3);
    stream.Skip(-3);
    return flag == EOF;
  }

  method ReadProps(stream: Cursor) returns (r: Option<seq<Prop>>)
    requires stream.Valid()
    modifies stream`pos
    ensures stream.Valid() && (r.Some? ==> stream.pos >= old(stream.pos))
    ensures match Amf0.ReadProps(old(stream.Left()), [])
            case Got(ps, rest) => r == Some(ps) && stream.Left() == rest
            case Bad => r == None
    decreases stream.data.Length - stream.pos, 1
  {
    hide Amf0.ReadAny, Amf0.ReadUtf8;
    var ps := [];
    ghost var goal := Amf0.ReadProps(stream.Left(), []);
    while stream.pos < stream.data.Length
      invariant stream.Valid() && stream.pos >= old(stream.pos)
      invariant Amf0.ReadProps(stream.Left(), ps) == goal
      decreases stream.data.Length - stream.pos
    {
      var eof := IsObjectEof(stream);
      if eof {
        ghost var b := stream.Left();
        var _ := stream.Read(3);
        return Some(ps);
      }
      var key := ReadUtf8(stream);
      if key.None? { return None; }
      var v := ReadAny(stream);
      if v.None? { return None; }
      ps := SetProperty(ps, key.value, v.value);
    }
    return Some(ps);
  }

  /** Erases the first property of that name, then appends. */
  method SetProperty(ps: seq<Prop>, key: bytes, value: Value) returns (r: seq<Prop>)
    ensures r == Set(ps, key, value)
  {
    hide Without;
    var i := 0;
    assert ps[0..] == ps && ps[..0] + Without(ps[0..], key) == Without(ps, key);
    while i < |ps| && ps[i].key != key
      invariant i <= |ps|
      invariant ps[..i] + Without(ps[i..], key) == Without(ps, key)
    {
      WithoutStep(ps, i, key);
      i := i + 1;
    }
    WithoutStep(ps, i, key);
    if i < |ps| { return ps[..i] + ps[i + 1..] + [Prop(key, value)]; }
    return ps + [Prop(key, value)];
  }

  /** One turn of the search, and its end. */
  lemma WithoutStep(ps: seq<Prop>, i: nat, key: bytes)
    requires i <= |ps|
    ensures i < |ps| && ps[i].key != key ==> ps[..i] + Without(ps[i..], key) == ps[..i + 1] + Without(ps[i + 1..], key)
    ensures i < |ps| && ps[i].key == key ==> Without(ps[i..], key) == ps[i + 1..]
    ensures i == |ps| ==> ps[..i] + Without(ps[i..], key) == ps
  {
    if i < |ps| {
      assert ps[i..][1..] == ps[i + 1..];
      Assoc(ps[..i], [ps[i]], Without(ps[i + 1..], key));
      assert ps[..i] + [ps[i]] == ps[..i + 1];
    } else {
      assert ps[i..] == [] && ps[..i] == ps && ps + [] == ps;
    }
  }

  method ReadAny(stream: Cursor) returns (r: Option<Value>)
    requires stream.Valid()
    modifies stream`pos
    ensures stream.Valid()
    ensures match Amf0.ReadAny(old(stream.Left()))
            case Got(v, rest) => r == Some(v) && stream.Left() == rest && stream.pos > old(stream.pos)
            case Bad => r == None
    decreases stream.data.Length - stream.pos, 0
  {
    hide Amf0.ReadProps, Amf0.ReadUtf8;
    ghost var b := stream.Left();
    var eof := IsObjectEof(stream);
    if eof {
      var _ := stream.Read(3);
      return Some(ObjectEnd);
    }
    if !stream.Require(1) { return None; }
    var m := stream.Read(1);
    var marker := m[0];
    if marker == 0 {
      if !stream.Require(8) { return None; }
      var image := stream.Read(8);
      assert image == b[1..9] && b[1..][8..] == b[9..];
      return Some(Number(image));
    } else if marker == 1 {
      if !stream.Require(1) { return None; }
      var on := stream.Read(1);
      assert on[0] == b[1] && b[1..][1..] == b[2..];
      return Some(Boolean(on[0] != 0));
    } else if marker == 2 {
      var s := ReadUtf8(stream);
      return if s.None? then None else Some(String(s.value));
    } else if marker == 3 {
      var ps := ReadProps(stream);
      return if ps.None? then None else Some(Object(ps.value));
    } else if marker == 5 {
      return Some(Null);
    } else if marker == 6 {
      return Some(Undefined);
    } else if marker == 8 {
      if !stream.Require(4) { return None; }
      var count := stream.Read(4);
      assert count == b[1..5] && b[1..][4..] == b[5..];
      var ps := ReadProps(stream);
      return if ps.None? then None else Some(EcmaArray(U32(count), ps.value));
    }
    return None;
  }

  /** Writes bytes if they fit. */
  method Put(stream: Cursor, b: bytes) returns (ok: bool)
    requires stream.Valid()
    modifies stream`pos, stream.data
    ensures stream.Valid()
    ensures ok <==> |b| <= |old(stream.Left())|
    ensures ok ==> stream.Done() == old(stream.Done()) + b && |stream.Left()| == |old(stream.Left())| - |b|
  {
    if !stream.Require(|b|) { return false; }
    stream.Write(b);
    return true;
  }

  /** Succeeds exactly when the announced size fits, and then writes exactly the encoding. */
  method WriteAny(stream: Cursor, v: Value) returns (ok: bool)
    requires stream.Valid()
    modifies stream`pos, stream.data
    ensures stream.Valid()
    ensures ok <==> TotalSize(v) <= |old(stream.Left())|
    ensures ok ==> stream.Done() == old(stream.Done()) + Encode(v)
                   && |stream.Left()| == |old(stream.Left())| - TotalSize(v)
    decreases v, 0
  {
    ghost var before := stream.Done();
    match v
    case Number(image) =>
      ok := Put(stream, [0]);
      if ok {
        ok := Put(stream, image);
        assert before + [0] + image == before + ([0] + image);
      }
    case Boolean(on) =>
      ok := Put(stream, [1]);
      if ok {
        ok := Put(stream, [if on then 1 else 0]);
        assert before + [1] + [if on then 1 else 0] == before + [1, if on then 1 else 0];
      }
    case String(text) =>
      ok := Put(stream, [2]);
      if ok {
        ok := WriteUtf8(stream, text);
        assert before + [2] + Utf8(text) == before + ([2] + Utf8(text));
      }
    case Null => ok := Put(stream, [5]);
    case Undefined => ok := Put(stream, [6]);
    case ObjectEnd => ok := WriteEof(stream);
    case Object(props) => ok := WriteObject(stream, v);
    case EcmaArray(count, props) => ok := WriteArray(stream, v);
  }

  method WriteObject(stream: Cursor, v: Value) returns (ok: bool)
    requires stream.Valid() && v.Object?
    modifies stream`pos, stream.data
    ensures stream.Valid()
    ensures ok <==> TotalSize(v) <= |old(stream.Left())|
    ensures ok ==> stream.Done() == old(stream.Done()) + Encode(v)
                   && |stream.Left()| == |old(stream.Left())| - TotalSize(v)
    decreases v.props, 2
  {
    ghost var before, props := stream.Done(), EncodeProps(v.props);
    ok := Put(stream, [3]);
    if ok { ok := WriteProps(stream, v.props); }
    if ok { ok := WriteEof(stream); }
    assert before + [3] + props + EOF == before + ([3] + props + EOF);
  }

  method WriteArray(stream: Cursor, v: Value) returns (ok: bool)
    requires stream.Valid() && v.EcmaArray?
    modifies stream`pos, stream.data
    ensures stream.Valid()
    ensures ok <==> TotalSize(v) <= |old(stream.Left())|
    ensures ok ==> stream.Done() == old(stream.Done()) + Encode(v)
                   && |stream.Left()| == |old(stream.Left())| - TotalSize(v)
    decreases v.props, 2
  {
    ghost var before, props := stream.Done(), EncodeProps(v.props);
    ok := Put(stream, [8]);
    if ok { ok := Put(stream, BE4(v.count)); }
    if ok { ok := WriteProps(stream, v.props); }
    if ok { ok := WriteEof(stream); }
    assert before + [8] + BE4(v.count) + props + EOF == before + ([8] + BE4(v.count) + props + EOF);
  }

  method WriteUtf8(stream: Cursor, s: bytes) returns (ok: bool)
    requires stream.Valid()
    modifies stream`pos, stream.data
    ensures stream.Valid()
    ensures ok <==> 2 + |s| <= |old(stream.Left())|
    ensures ok ==> stream.Done() == old(stream.Done()) + Utf8(s) && |stream.Left()| == |old(stream.Left())| - (2 + |s|)
  {
    ok := Put(stream, BE2(|s|));
    if ok {
      ok := Put(stream, s);
      assert old(stream.Done()) + BE2(|s|) + s == old(stream.Done()) + (BE2(|s|) + s);
    }
  }

  method WriteEof(stream: Cursor) returns (ok: bool)
    requires stream.Valid()
    modifies stream`pos, stream.data
    ensures stream.Valid()
    ensures ok <==> 3 <= |old(stream.Left())|
    ensures ok ==> stream.Done() == old(stream.Done()) + EOF && |stream.Left()| == |old(stream.Left())| - 3
  {
    ok := Put(stream, [0, 0]);
    if ok {
      ok := Put(stream, [9]);
      assert old(stream.Done()) + [0, 0] + [9] == old(stream.Done()) + [0, 0, 9];
    }
  }

  method WriteProps(stream: Cursor, ps: seq<Prop>) returns (ok: bool)
    requires stream.Valid()
    modifies stream`pos, stream.data
    ensures stream.Valid()
    ensures ok <==> PropsSize(ps) <= |old(stream.Left())|
    ensures ok ==> stream.Done() == old(stream.Done()) + EncodeProps(ps)
                   && |stream.Left()| == |old(stream.Left())| - PropsSize(ps)
    decreases ps, 1
  {
    hide Encode, TotalSize, Utf8;
    var i := 0;
    assert ps[0..] == ps;
    ghost var room := |stream.Left()|;
    while i < |ps|
      invariant i <= |ps| && stream.Valid()
      invariant stream.Done() + EncodeProps(ps[i..]) == old(stream.Done()) + EncodeProps(ps)
      invariant |stream.Left()| - PropsSize(ps[i..]) == room - PropsSize(ps)
    {
      assert ps[i..][1..] == ps[i + 1..] && ps[i..][0] == ps[i];
      ghost var before, rest := stream.Done(), EncodeProps(ps[i + 1..]);
      ok := WriteUtf8(stream, ps[i].key);
      if !ok { return; }
      ok := WriteAny(stream, ps[i].value);
      if !ok { return; }
      assert before + (Utf8(ps[i].key) + Encode(ps[i].value) + rest)
             == before + Utf8(ps[i].key) + Encode(ps[i].value) + rest;
      i := i + 1;
    }
    assert stream.Done() + [] == stream.Done();
    return true;
  }
}
