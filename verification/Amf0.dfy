/**
 AMF 0 values (sections 2.2 to 2.11 of the AMF 0 specification) and their byte form. A number is
 its 8-byte image. The reader mirrors the code, including its look-ahead for the object end marker.
 */
module Amf0 {
  import opened Bytes

  type Image = b: bytes | |b| == 8 witness [0, 0, 0, 0, 0, 0, 0, 0]
  type Count = n: nat | n < TWO32

  const MAX_STRING := 32767
  const EOF: bytes := [0, 0, 9]

  datatype Value =
    | Number(image: Image)
    | Boolean(on: bool)
    | String(text: bytes)
    | Object(props: seq<Prop>)
    | Null
    | Undefined
    | EcmaArray(count: Count, props: seq<Prop>)
    | ObjectEnd

  datatype Prop = Prop(key: bytes, value: Value)

  datatype Read<+T> = Bad | Got(value: T, rest: bytes)

  // ----- writing

  function Utf8(s: bytes): bytes { BE2(|s|) + s }

  function Encode(v: Value): bytes {
    match v
    case Number(image) => [0] + image
    case Boolean(on) => [1, if on then 1 else 0]
    case String(text) => [2] + Utf8(text)
    case Object(props) => [3] + EncodeProps(props) + EOF
    case Null => [5]
    case Undefined => [6]
    case EcmaArray(count, props) => [8] + BE4(count) + EncodeProps(props) + EOF
    case ObjectEnd => EOF
  }

  function EncodeProps(ps: seq<Prop>): bytes {
    if ps == [] then [] else Utf8(ps[0].key) + Encode(ps[0].value) + EncodeProps(ps[1..])
  }

  /** The size the encoders announce before they allocate. */
  function TotalSize(v: Value): nat {
    match v
    case Number(_) => 9
    case Boolean(_) => 2
    case String(text) => 1 + (2 + |text|)
    case Object(props) => 1 + PropsSize(props) + 3
    case Null => 1
    case Undefined => 1
    case EcmaArray(_, props) => 1 + 4 + PropsSize(props) + 3
    case ObjectEnd => 3
  }

  function PropsSize(ps: seq<Prop>): nat {
    if ps == [] then 0 else (2 + |ps[0].key|) + TotalSize(ps[0].value) + PropsSize(ps[1..])
  }

  // ----- reading

  predicate IsEof(b: bytes) { |b| >= 3 && b[..3] == EOF }

  /** A negative 16-bit length counts as empty. */
  function ReadUtf8(b: bytes): (r: Read<bytes>)
    ensures r.Got? ==> |r.rest| + 2 <= |b| && |r.value| <= MAX_STRING
  {
    if |b| < 2 then Bad
    else if U16(b) == 0 || U16(b) > MAX_STRING then Got([], b[2..])
    else if |b| < 2 + U16(b) then Bad
    else Got(b[2..2 + U16(b)], b[2 + U16(b)..])
  }

  /** A property set replaces the first one of the same name and moves it to the end. */
  function Set(ps: seq<Prop>, key: bytes, value: Value): seq<Prop> { Without(ps, key) + [Prop(key, value)] }

  function Without(ps: seq<Prop>, key: bytes): seq<Prop> {
    if ps == [] then [] else if ps[0].key == key then ps[1..] else [ps[0]] + Without(ps[1..], key)
  }

  function ReadAny(b: bytes): (r: Read<Value>)
    ensures r.Got? ==> |r.rest| < |b|
    decreases |b|, 0
  {
    if IsEof(b) then Got(ObjectEnd, b[3..])
    else if |b| < 1 then Bad
    else if b[0] == 0 then if |b| < 9 then Bad else Got(Number(b[1..9]), b[9..])
    else if b[0] == 1 then if |b| < 2 then Bad else Got(Boolean(b[1] != 0), b[2..])
    else if b[0] == 2 then
      match ReadUtf8(b[1..])
      case Bad => Bad
      case Got(s, rest) => Got(String(s), rest)
    else if b[0] == 3 then
      match ReadProps(b[1..], [])
      case Bad => Bad
      case Got(ps, rest) => Got(Object(ps), rest)
    else if b[0] == 5 then Got(Null, b[1..])
    else if b[0] == 6 then Got(Undefined, b[1..])
    else if b[0] == 8 then
      if |b| < 5 then Bad
      else
        match ReadProps(b[5..], [])
        case Bad => Bad
        case Got(ps, rest) => Got(EcmaArray(U32(b[1..5]), ps), rest)
    else Bad
  }

  /** Properties up to the object end marker, or up to the end of the bytes. */
  function ReadProps(b: bytes, ps: seq<Prop>): (r: Read<seq<Prop>>)
    ensures r.Got? ==> |r.rest| <= |b|
    decreases |b|, 1
  {
    if b == [] then Got(ps, [])
    else if IsEof(b) then Got(ps, b[3..])
    else
      match ReadUtf8(b)
      case Bad => Bad
      case Got(key, b1) =>
        match ReadAny(b1)
        case Bad => Bad
        case Got(v, b2) => ReadProps(b2, Set(ps, key, v))
  }

  // ----- the values the format can carry

  predicate Distinct(ps: seq<Prop>) {
    forall i, j :: 0 <= i < j < |ps| ==> ps[i].key != ps[j].key
  }

  /** A number image that begins 00 09 looks like the object end marker behind its type byte. */
  predicate Portable(v: Value) {
    match v
    case Number(image) => !(image[0] == 0 && image[1] == 9)
    case String(text) => |text| <= 32767
    case Object(props) => PortableProps(props) && Distinct(props)
    case EcmaArray(_, props) => PortableProps(props) && Distinct(props)
    case _ => true
  }

  predicate PortableProps(ps: seq<Prop>) {
    ps == [] || (|ps[0].key| <= 32767 && Portable(ps[0].value) && PortableProps(ps[1..]))
  }

  // ----- announced sizes

  lemma {:induction false} SizeIsExact(v: Value)
    ensures |Encode(v)| == TotalSize(v)
  {
    match v
    case Object(props) => PropsSizeIsExact(props);
    case EcmaArray(_, props) => PropsSizeIsExact(props);
    case _ =>
  }

  lemma {:induction false} PropsSizeIsExact(ps: seq<Prop>)
    ensures |EncodeProps(ps)| == PropsSize(ps)
  {
    if ps != [] {
      SizeIsExact(ps[0].value);
      PropsSizeIsExact(ps[1..]);
    }
  }

  // ----- round trip

  lemma Utf8RoundTrip(s: bytes, tail: bytes)
    requires |s| <= MAX_STRING
    ensures ReadUtf8(Utf8(s) + tail) == Got(s, tail)
  {
    var b := Utf8(s) + tail;
    assert b == BE2(|s|) + (s + tail);
    U16OfBE2(|s|, s + tail);
    assert b[2..] == s + tail;
    assert b[2..2 + |s|] == s && b[2 + |s|..] == tail;
  }

  /** A property never begins like the object end marker: its name length and the first byte
      after it cannot be 00 00 09. */
  lemma PropIsNotEof(key: bytes, v: Value, tail: bytes)
    requires |key| <= MAX_STRING
    ensures !IsEof(Utf8(key) + (Encode(v) + tail))
  {
    var b := Utf8(key) + (Encode(v) + tail);
    if |key| == 0 {
      assert b[2] == (Encode(v) + tail)[0] == Encode(v)[0];
    } else {
      assert U16(b) == |key| by {
        assert b == BE2(|key|) + (key + (Encode(v) + tail));
        U16OfBE2(|key|, key + (Encode(v) + tail));
      }
    }
  }

  lemma EofReadsBack(tail: bytes)
    ensures IsEof(EOF + tail) && (EOF + tail)[3..] == tail
  {
    assert (EOF + tail)[..3] == EOF;
  }

  lemma MarkerIsNotEof(b: bytes)
    requires b != [] && b[0] != 0
    ensures !IsEof(b)
  {
    if |b| >= 3 { assert b[..3][0] == b[0]; }
  }

  lemma NumberRoundTrip(image: Image, tail: bytes)
    requires Portable(Number(image))
    ensures ReadAny(Encode(Number(image)) + tail) == Got(Number(image), tail)
  {
    var b := Encode(Number(image)) + tail;
    assert b[..3] == [0, image[0], image[1]];
    assert b[1..9] == image && b[9..] == tail;
  }

  lemma BooleanRoundTrip(v: Value, tail: bytes)
    requires v.Boolean?
    ensures ReadAny(Encode(v) + tail) == Got(v, tail)
  {
    hide ReadProps, ReadUtf8, Utf8;
    var b := Encode(v) + tail;
    assert b[0] == 1 && b[2..] == tail;
    MarkerIsNotEof(b);
  }

  lemma StringRoundTrip(text: bytes, tail: bytes)
    requires |text| <= MAX_STRING
    ensures ReadAny(Encode(String(text)) + tail) == Got(String(text), tail)
  {
    hide ReadProps, ReadUtf8, Utf8;
    var b := Encode(String(text)) + tail;
    assert b[0] == 2 && b[1..] == Utf8(text) + tail;
    MarkerIsNotEof(b);
    Utf8RoundTrip(text, tail);
  }

  lemma NothingRoundTrip(v: Value, tail: bytes)
    requires v.Null? || v.Undefined?
    ensures ReadAny(Encode(v) + tail) == Got(v, tail)
  {
    hide ReadProps, ReadUtf8, Utf8;
    var b := Encode(v) + tail;
    assert b[1..] == tail;
    MarkerIsNotEof(b);
  }

  lemma ScalarRoundTrip(v: Value, tail: bytes)
    requires Portable(v) && !v.Number? && !v.Object? && !v.EcmaArray?
    ensures ReadAny(Encode(v) + tail) == Got(v, tail)
  {
    hide ReadAny, Encode;
    match v
    case Boolean(_) => BooleanRoundTrip(v, tail);
    case String(text) => StringRoundTrip(text, tail);
    case Null => NothingRoundTrip(v, tail);
    case Undefined => NothingRoundTrip(v, tail);
    case ObjectEnd => EndRoundTrip(tail);
  }

  lemma EndRoundTrip(tail: bytes)
    ensures ReadAny(Encode(ObjectEnd) + tail) == Got(ObjectEnd, tail)
  {
    hide ReadProps, ReadUtf8, Utf8;
    EofReadsBack(tail);
  }

  /** The enclosing object or array, once its properties are known to read back. */
  lemma ObjectReadsBack(props: seq<Prop>, tail: bytes)
    requires ReadProps(EncodeProps(props) + (EOF + tail), []) == Got(props, tail)
    ensures ReadAny(Encode(Object(props)) + tail) == Got(Object(props), tail)
  {
    hide ReadProps, EncodeProps, IsEof;
    var b := Encode(Object(props)) + tail;
    MarkerIsNotEof(b);
    assert b[1..] == EncodeProps(props) + (EOF + tail);
  }

  lemma ArrayReadsBack(count: Count, props: seq<Prop>, tail: bytes)
    requires ReadProps(EncodeProps(props) + (EOF + tail), []) == Got(props, tail)
    ensures ReadAny(Encode(EcmaArray(count, props)) + tail) == Got(EcmaArray(count, props), tail)
  {
    hide ReadProps, EncodeProps, IsEof, BE4, U32;
    var b := Encode(EcmaArray(count, props)) + tail;
    assert b == [8] + (BE4(count) + (EncodeProps(props) + (EOF + tail)));
    MarkerIsNotEof(b);
    assert b[5..] == EncodeProps(props) + (EOF + tail);
    assert b[1..5] == BE4(count) + [];
    U32OfBE4(count, []);
  }

  /** Reading what was written gives the value back and leaves exactly what followed it. */
  lemma {:induction false} RoundTrip(v: Value, tail: bytes)
    requires Portable(v)
    ensures ReadAny(Encode(v) + tail) == Got(v, tail)
    decreases v, 0
  {
    hide ReadAny, ReadProps, Encode, EncodeProps, PortableProps, Distinct;
    if v.Number? {
      NumberRoundTrip(v.image, tail);
    } else if v.Object? || v.EcmaArray? {
      assert [] + v.props == v.props;
      PropsRoundTrip([], v.props, tail);
      if v.Object? { ObjectReadsBack(v.props, tail); } else { ArrayReadsBack(v.count, v.props, tail); }
    } else {
      ScalarRoundTrip(v, tail);
    }
  }

  lemma {:induction false} PropsRoundTrip(done: seq<Prop>, ps: seq<Prop>, tail: bytes)
    requires PortableProps(ps) && Distinct(done + ps)
    ensures ReadProps(EncodeProps(ps) + (EOF + tail), done) == Got(done + ps, tail)
    decreases ps, 1
  {
    hide ReadAny, Encode, Portable, ReadUtf8, Utf8, IsEof;
    var b := EncodeProps(ps) + (EOF + tail);
    if ps == [] {
      EofReadsBack(tail);
      assert b == EOF + tail && done + ps == done;
    } else {
      var p, rest := ps[0], ps[1..];
      var tail1 := EncodeProps(rest) + (EOF + tail);
      var tail2 := Encode(p.value) + tail1;
      assert b == Utf8(p.key) + tail2;
      PropIsNotEof(p.key, p.value, tail1);
      Utf8RoundTrip(p.key, tail2);
      RoundTrip(p.value, tail1);
      assert done + ps == done + ([p] + rest) == (done + [p]) + rest;
      NewKey(done, p, rest);
      PropsRoundTrip(done + [p], rest, tail);
    }
  }

  lemma NewKey(done: seq<Prop>, p: Prop, rest: seq<Prop>)
    requires Distinct(done + ([p] + rest))
    ensures Set(done, p.key, p.value) == done + [p]
  {
    var all := done + ([p] + rest);
    forall i | 0 <= i < |done| ensures done[i].key != p.key {
      assert all[i] == done[i] && all[|done|] == p;
    }
    WithoutAbsent(done, p.key);
  }

  lemma {:induction false} WithoutAbsent(ps: seq<Prop>, key: bytes)
    requires forall i :: 0 <= i < |ps| ==> ps[i].key != key
    ensures Without(ps, key) == ps
  {
    if ps != [] { WithoutAbsent(ps[1..], key); }
  }

  // ----- the reader yields nothing else

  predicate Keys(ps: seq<Prop>, key: bytes) { exists i :: 0 <= i < |ps| && ps[i].key == key }

  lemma {:induction false} WithoutKeeps(ps: seq<Prop>, key: bytes)
    requires PortableProps(ps) && Distinct(ps)
    ensures PortableProps(Without(ps, key)) && Distinct(Without(ps, key)) && !Keys(Without(ps, key), key)
    ensures forall k :: Keys(Without(ps, key), k) ==> Keys(ps, k)
  {
    if ps != [] {
      hide Portable;
      var rest := ps[1..];
      assert forall i :: 0 <= i < |rest| ==> rest[i] == ps[i + 1];
      if ps[0].key != key {
        WithoutKeeps(rest, key);
        var w := Without(rest, key);
        assert forall i :: 0 <= i < |w| ==> w[i].key != ps[0].key by {
          forall i | 0 <= i < |w| ensures w[i].key != ps[0].key { assert Keys(w, w[i].key) && Keys(rest, w[i].key); }
        }
        assert ([ps[0]] + w)[1..] == w;
        forall k | Keys([ps[0]] + w, k) ensures Keys(ps, k) {
          var i :| 0 <= i < |[ps[0]] + w| && ([ps[0]] + w)[i].key == k;
          if i == 0 { assert ps[0].key == k; } else {
            assert w[i - 1].key == k && Keys(rest, k);
            var j :| 0 <= j < |rest| && rest[j].key == k;
            assert ps[j + 1].key == k;
          }
        }
      }
    }
  }

  lemma {:induction false} AppendPortable(ps: seq<Prop>, p: Prop)
    requires PortableProps(ps) && |p.key| <= MAX_STRING && Portable(p.value)
    ensures PortableProps(ps + [p])
  {
    hide Portable;
    if ps == [] {
      assert ps + [p] == [p] && [p][1..] == [];
    } else {
      AppendPortable(ps[1..], p);
      assert (ps + [p])[1..] == ps[1..] + [p];
    }
  }

  lemma AppendKeeps(ps: seq<Prop>, p: Prop)
    requires PortableProps(ps) && Distinct(ps) && !Keys(ps, p.key) && |p.key| <= MAX_STRING && Portable(p.value)
    ensures PortableProps(ps + [p]) && Distinct(ps + [p])
  {
    hide Portable, PortableProps;
    AppendPortable(ps, p);
  }

  /** On any input, whatever the reader accepts is portable. */
  lemma {:induction false} ReaderYieldsPortable(b: bytes)
    requires ReadAny(b).Got?
    ensures Portable(ReadAny(b).value)
    decreases |b|, 0
  {
    hide ReadProps, PortableProps, Distinct;
    if !IsEof(b) {
      if b[0] == 0 { assert b[1..9][0] == b[1] && b[1..9][1] == b[2]; }
      if b[0] == 3 { EmptyProps(); PropsYieldPortable(b[1..], []); }
      if b[0] == 8 { EmptyProps(); PropsYieldPortable(b[5..], []); }
    }
  }

  lemma EmptyProps()
    ensures PortableProps([]) && Distinct([])
  {
  }

  lemma {:induction false} PropsYieldPortable(b: bytes, ps: seq<Prop>)
    requires PortableProps(ps) && Distinct(ps) && ReadProps(b, ps).Got?
    ensures PortableProps(ReadProps(b, ps).value) && Distinct(ReadProps(b, ps).value)
    decreases |b|, 1
  {
    hide ReadAny, Portable, PortableProps, Distinct, ReadUtf8;
    if b != [] && !IsEof(b) {
      var key, b1 := ReadUtf8(b).value, ReadUtf8(b).rest;
      var v, b2 := ReadAny(b1).value, ReadAny(b1).rest;
      ReaderYieldsPortable(b1);
      WithoutKeeps(ps, key);
      AppendKeeps(Without(ps, key), Prop(key, v));
      PropsYieldPortable(b2, Set(ps, key, v));
    }
  }

  /** The round trip holds for a value if and only if the value is portable. */
  lemma RoundTripExactly(v: Value, tail: bytes)
    ensures ReadAny(Encode(v) + tail) == Got(v, tail) <==> Portable(v)
  {
    if Portable(v) {
      RoundTrip(v, tail);
    } else if ReadAny(Encode(v) + tail) == Got(v, tail) {
      ReaderYieldsPortable(Encode(v) + tail);
    }
  }

  /** A value that does not survive: the number with image 00 09 00 .. 00. */
  lemma NumberTakenForObjectEnd(tail: bytes)
    ensures ReadAny(Encode(Number([0, 9, 0, 0, 0, 0, 0, 0])) + tail) == Got(ObjectEnd, [0, 0, 0, 0, 0, 0] + tail)
  {
    var b := Encode(Number([0, 9, 0, 0, 0, 0, 0, 0])) + tail;
    assert b[..3] == EOF && b[3..] == [0, 0, 0, 0, 0, 0] + tail;
  }
}
