/**
 What the AMF 0 reader accepts, exactly: a grammar of its input, written from the bytes, with the forms
 that no encoder produces. Any nonzero byte is a true Boolean; a string length of 32768 or more stands
 for no text; an object may stop at the end of the bytes; of properties of one name the last one stays.
 */
module Amf0Wire {
  import opened Bytes
  import opened Amf0

  datatype Text = Text(length: nat, text: bytes)

  datatype Wire =
    | NumberW(image: Image)
    | BooleanW(flag: byte)
    | StringW(text: Text)
    | ObjectW(members: Members)
    | NullW
    | UndefinedW
    | ArrayW(count: Count, members: Members)
    | EndW

  /** `Cut`: the bytes end here, without an end marker. */
  datatype Members = Cut | Closed | Member(key: Text, value: Wire, more: Members)

  function Emit(w: Wire): bytes {
    match w
    case NumberW(image) => [0] + image
    case BooleanW(flag) => [1, flag]
    case StringW(text) => [2] + EmitText(text)
    case ObjectW(members) => [3] + EmitMembers(members)
    case NullW => [5]
    case UndefinedW => [6]
    case ArrayW(count, members) => [8] + BE4(count) + EmitMembers(members)
    case EndW => [0, 0, 9]
  }

  function EmitText(t: Text): bytes { BE2(t.length) + t.text }

  function EmitMembers(ms: Members): bytes {
    match ms
    case Cut => []
    case Closed => [0, 0, 9]
    case Member(key, value, more) => EmitText(key) + (Emit(value) + EmitMembers(more))
  }

  // ----- which of these are accepted before `rest`

  predicate TextOk(t: Text) {
    t.length < 0x1_0000 && |t.text| == if t.length < 0x8000 then t.length else 0
  }

  /** A number whose image begins 00 09 is an end marker. */
  predicate Accepted(w: Wire, rest: bytes) {
    match w
    case NumberW(image) => !(image[0] == 0 && image[1] == 9)
    case StringW(text) => TextOk(text)
    case ObjectW(members) => AcceptedMembers(members, rest)
    case ArrayW(_, members) => AcceptedMembers(members, rest)
    case _ => true
  }

  predicate AcceptedMembers(ms: Members, rest: bytes) {
    match ms
    case Cut => rest == []
    case Closed => true
    case Member(key, value, more) =>
      TextOk(key) && Accepted(value, EmitMembers(more) + rest) && AcceptedMembers(more, rest)
  }

  // ----- what they mean

  function Meaning(w: Wire): Value {
    match w
    case NumberW(image) => Number(image)
    case BooleanW(flag) => Boolean(flag != 0)
    case StringW(text) => String(text.text)
    case ObjectW(members) => Object(LastOfEach(Listed(members)))
    case NullW => Null
    case UndefinedW => Undefined
    case ArrayW(count, members) => EcmaArray(count, LastOfEach(Listed(members)))
    case EndW => ObjectEnd
  }

  function Listed(ms: Members): seq<Prop> {
    if ms.Member? then [Prop(ms.key.text, Meaning(ms.value))] + Listed(ms.more) else []
  }

  /** Properties that another one of the same name follows are dropped. */
  function LastOfEach(ps: seq<Prop>): seq<Prop> {
    if ps == [] then []
    else if exists i :: 1 <= i < |ps| && ps[i].key == ps[0].key then LastOfEach(ps[1..])
    else [ps[0]] + LastOfEach(ps[1..])
  }

  // ----- the property set

  function SetAll(done: seq<Prop>, ps: seq<Prop>): seq<Prop>
    decreases |ps|
  {
    if ps == [] then done else SetAll(Set(done, ps[0].key, ps[0].value), ps[1..])
  }

  lemma {:induction false} DistinctStays(ps: seq<Prop>)
    requires Distinct(ps)
    ensures LastOfEach(ps) == ps
  {
    if ps != [] {
      assert forall i :: 0 <= i < |ps[1..]| ==> ps[1..][i] == ps[i + 1];
      DistinctStays(ps[1..]);
      assert ps == [ps[0]] + ps[1..];
    }
  }

  /** A later property of the same name makes the earlier one go. */
  lemma {:induction false} EarlierGoes(ps: seq<Prop>, p: Prop, more: seq<Prop>)
    requires Distinct(ps)
    ensures LastOfEach(ps + ([p] + more)) == LastOfEach(Without(ps, p.key) + ([p] + more))
  {
    if ps != [] {
      var rest, tail := ps[1..], [p] + more;
      assert forall i :: 0 <= i < |rest| ==> rest[i] == ps[i + 1];
      assert (ps + tail)[1..] == rest + tail && (ps + tail)[0] == ps[0];
      assert (ps + tail)[|ps|] == p;
      if ps[0].key == p.key {
        assert Without(ps, p.key) == rest;
      } else {
        EarlierGoes(rest, p, more);
        var w := Without(rest, p.key);
        SameKeys(rest, p.key, ps[0].key);
        hide Without;
        assert ([ps[0]] + w + tail)[1..] == w + tail && [ps[0]] + w + tail == [ps[0]] + (w + tail);
        KeyFound(rest, tail, ps[0].key, ps + tail);
        KeyFound(w, tail, ps[0].key, [ps[0]] + (w + tail));
      }
    }
  }

  predicate HasKey(ps: seq<Prop>, key: bytes) { exists i :: 0 <= i < |ps| && ps[i].key == key }

  lemma {:induction false} SameKeys(ps: seq<Prop>, key: bytes, other: bytes)
    requires other != key
    ensures HasKey(Without(ps, key), other) <==> HasKey(ps, other)
  {
    if ps != [] && ps[0].key != key {
      SameKeys(ps[1..], key, other);
      assert ps == [ps[0]] + ps[1..];
      KeyInCons(ps[0], ps[1..], other);
      KeyInCons(ps[0], Without(ps[1..], key), other);
    } else if ps != [] {
      assert ps == [ps[0]] + ps[1..];
      KeyInCons(ps[0], ps[1..], other);
    }
  }

  lemma KeyInCons(p: Prop, ps: seq<Prop>, key: bytes)
    ensures HasKey([p] + ps, key) <==> p.key == key || HasKey(ps, key)
  {
    var all := [p] + ps;
    if HasKey(ps, key) {
      var i :| 0 <= i < |ps| && ps[i].key == key;
      assert all[i + 1].key == key;
    }
    if p.key == key { assert all[0].key == key; }
  }

  lemma KeyFound(a: seq<Prop>, b: seq<Prop>, key: bytes, all: seq<Prop>)
    requires |all| == 1 + |a| + |b| && all[1..] == a + b
    ensures (exists i :: 1 <= i < |all| && all[i].key == key) <==> HasKey(a, key) || HasKey(b, key)
  {
    assert forall i :: 0 <= i < |a| ==> all[i + 1] == all[1..][i] == a[i];
    assert forall i :: 0 <= i < |b| ==> all[1 + |a| + i] == all[1..][|a| + i] == b[i];
    if exists i :: 1 <= i < |all| && all[i].key == key {
      var i :| 1 <= i < |all| && all[i].key == key;
      if i <= |a| { assert a[i - 1].key == key; } else { assert b[i - 1 - |a|].key == key; }
    }
  }

  /** Setting properties one after the other leaves the last one of each name. */
  lemma {:induction false} SetAllIs(done: seq<Prop>, ps: seq<Prop>)
    requires PortableProps(done) && Distinct(done) && forall i :: 0 <= i < |ps| ==> Small(ps[i])
    ensures SetAll(done, ps) == LastOfEach(done + ps)
    decreases |ps|
  {
    hide PortableProps, Distinct, Portable, LastOfEach, Without, Keys;
    if ps == [] {
      assert done + ps == done;
      DistinctStays(done);
    } else {
      var p, more := ps[0], ps[1..];
      WithoutKeeps(done, p.key);
      AppendKeeps(Without(done, p.key), p);
      SetAllIs(Set(done, p.key, p.value), more);
      assert ps == [p] + more && [Prop(p.key, p.value)] == [p];
      EarlierGoes(done, p, more);
      Assoc(Without(done, p.key), [p], more);
    }
  }

  predicate Small(p: Prop) { |p.key| <= 32767 && Portable(p.value) }

  // ----- everything in the grammar is read

  lemma TextIsRead(t: Text, rest: bytes)
    requires TextOk(t)
    ensures ReadUtf8(EmitText(t) + rest) == Got(t.text, rest)
  {
    hide BE2, U16;
    var b := EmitText(t) + rest;
    assert b == BE2(t.length) + (t.text + rest) && b[2..] == t.text + rest;
    U16OfBE2(t.length, t.text + rest);
    assert |t.text| > 0 ==> b[2..2 + |t.text|] == t.text && b[2 + |t.text|..] == rest;
  }

  /** A member never looks like the end marker. */
  lemma MemberIsNoEnd(key: Text, value: Wire, rest: bytes)
    requires TextOk(key)
    ensures !IsEof(EmitText(key) + (Emit(value) + rest))
  {
    hide BE2;
    var b := EmitText(key) + (Emit(value) + rest);
    var tail := key.text + (Emit(value) + rest);
    assert b == BE2(key.length) + tail;
    U16OfBE2(key.length, tail);
    if key.text == [] {
      assert tail == Emit(value) + rest;
      assert b[2] == tail[0] == Emit(value)[0];
    }
    assert b[..3][0] == b[0] && b[..3][1] == b[1] && b[..3][2] == b[2];
  }

  lemma ScalarIsRead(w: Wire, rest: bytes)
    requires Accepted(w, rest) && !w.ObjectW? && !w.ArrayW?
    ensures ReadAny(Emit(w) + rest) == Got(Meaning(w), rest)
  {
    hide ReadProps, ReadUtf8, EmitText;
    var b := Emit(w) + rest;
    match w
    case NumberW(image) => NumberRoundTrip(image, rest);
    case BooleanW(flag) => MarkerIsNotEof(b); assert b[2..] == rest;
    case StringW(text) =>
      MarkerIsNotEof(b);
      assert b[1..] == EmitText(text) + rest;
      TextIsRead(text, rest);
    case NullW => MarkerIsNotEof(b); assert b[1..] == rest;
    case UndefinedW => MarkerIsNotEof(b); assert b[1..] == rest;
    case EndW => EofReadsBack(rest);
  }

  lemma {:induction false} WireIsRead(w: Wire, rest: bytes)
    requires Accepted(w, rest)
    ensures ReadAny(Emit(w) + rest) == Got(Meaning(w), rest)
    decreases w, 0
  {
    hide ReadProps, EmitMembers, AcceptedMembers, LastOfEach, Listed, BE4, U32, IsEof;
    var b := Emit(w) + rest;
    if w.ObjectW? {
      MarkerIsNotEof(b);
      assert b[1..] == EmitMembers(w.members) + rest;
      MembersAreRead(w.members, rest, []);
      NothingSet(Listed(w.members));
      MembersAreSmall(w.members, rest);
    } else if w.ArrayW? {
      MarkerIsNotEof(b);
      assert b == [8] + (BE4(w.count) + (EmitMembers(w.members) + rest));
      assert b[5..] == EmitMembers(w.members) + rest && b[1..5] == BE4(w.count) + [];
      U32OfBE4(w.count, []);
      MembersAreRead(w.members, rest, []);
      NothingSet(Listed(w.members));
      MembersAreSmall(w.members, rest);
    } else {
      hide ReadAny, Meaning, Emit, Accepted;
      ScalarIsRead(w, rest);
    }
  }

  lemma NothingSet(ps: seq<Prop>)
    ensures (forall i :: 0 <= i < |ps| ==> Small(ps[i])) ==> SetAll([], ps) == LastOfEach(ps)
  {
    hide SetAll, LastOfEach, Small;
    if forall i :: 0 <= i < |ps| ==> Small(ps[i]) {
      EmptyProps();
      SetAllIs([], ps);
      assert [] + ps == ps;
    }
  }

  lemma {:induction false} MembersAreSmall(ms: Members, rest: bytes)
    requires AcceptedMembers(ms, rest)
    ensures forall i :: 0 <= i < |Listed(ms)| ==> Small(Listed(ms)[i])
    decreases ms, 0
  {
    hide Accepted, Meaning, Portable, ReadAny;
    if ms.Member? {
      var tail := EmitMembers(ms.more) + rest;
      WireIsRead(ms.value, tail);
      ReaderYieldsPortable(Emit(ms.value) + tail);
      MembersAreSmall(ms.more, rest);
    }
  }

  lemma {:induction false} MembersAreRead(ms: Members, rest: bytes, done: seq<Prop>)
    requires AcceptedMembers(ms, rest)
    ensures ReadProps(EmitMembers(ms) + rest, done) == Got(SetAll(done, Listed(ms)), rest)
    decreases ms, 1
  {
    hide ReadAny, Emit, Meaning, ReadUtf8, EmitText, Set, Accepted, IsEof;
    var b := EmitMembers(ms) + rest;
    match ms
    case Cut =>
    case Closed => EofReadsBack(rest);
    case Member(key, value, more) =>
      var tail := EmitMembers(more) + rest;
      assert b == EmitText(key) + (Emit(value) + tail);
      MemberIsNoEnd(key, value, tail);
      TextIsRead(key, Emit(value) + tail);
      WireIsRead(value, tail);
      var p := Prop(key.text, Meaning(value));
      MembersAreRead(more, rest, Set(done, p.key, p.value));
      assert Listed(ms)[1..] == Listed(more);
      assert b != [] by { NotEmpty(key); }
  }

  lemma NotEmpty(key: Text)
    ensures |EmitText(key)| >= 2
  {
  }

  // ----- and nothing else

  lemma TextOfInput(b: bytes) returns (t: Text)
    requires ReadUtf8(b).Got?
    ensures TextOk(t) && b == EmitText(t) + ReadUtf8(b).rest && t.text == ReadUtf8(b).value
  {
    hide BE2, U16;
    var rest := ReadUtf8(b).rest;
    t := Text(U16(b), ReadUtf8(b).value);
    BE2OfU16(b);
    Cutting(b, 2);
    if t.text == [] {
      assert rest == b[2..];
    } else {
      Cutting(b[2..], U16(b));
      assert b[2..][..U16(b)] == t.text && b[2..][U16(b)..] == rest;
    }
    Assoc(BE2(t.length), t.text, rest);
  }

  lemma Cutting(b: bytes, n: nat)
    requires n <= |b|
    ensures b == b[..n] + b[n..]
  {
  }

  lemma ScalarOfInput(b: bytes) returns (w: Wire)
    requires ReadAny(b).Got? && (IsEof(b) || (b[0] != 3 && b[0] != 8))
    ensures Accepted(w, ReadAny(b).rest) && b == Emit(w) + ReadAny(b).rest
  {
    hide ReadProps, ReadUtf8, EmitText;
    if IsEof(b) {
      w := EndW;
      assert b == b[..3] + b[3..];
    } else if b[0] == 0 {
      w := NumberW(b[1..9]);
      assert b == [b[0]] + b[1..9] + b[9..];
      assert b[..3] == [b[0], b[1], b[2]];
    } else if b[0] == 1 {
      w := BooleanW(b[1]);
      assert b == [b[0], b[1]] + b[2..];
    } else if b[0] == 2 {
      var t := TextOfInput(b[1..]);
      w := StringW(t);
      assert b == [b[0]] + b[1..];
    } else {
      w := if b[0] == 5 then NullW else UndefinedW;
      assert b == [b[0]] + b[1..];
    }
  }

  lemma {:induction false} WireOfInput(b: bytes) returns (w: Wire)
    requires ReadAny(b).Got?
    ensures Accepted(w, ReadAny(b).rest) && b == Emit(w) + ReadAny(b).rest
    decreases |b|, 0
  {
    hide ReadProps, ReadUtf8, AcceptedMembers, EmitMembers, BE4, U32;
    if IsEof(b) || (b[0] != 3 && b[0] != 8) {
      w := ScalarOfInput(b);
    } else if b[0] == 3 {
      var ms := MembersOfInput(b[1..], []);
      w := ObjectW(ms);
      assert b == [b[0]] + b[1..];
    } else {
      var ms := MembersOfInput(b[5..], []);
      w := ArrayW(U32(b[1..5]), ms);
      BE4OfU32(b[1..5]);
      assert b[1..5][..4] == b[1..5];
      assert b == [b[0]] + b[1..5] + b[5..];
    }
  }

  lemma {:induction false} MembersOfInput(b: bytes, done: seq<Prop>) returns (ms: Members)
    requires ReadProps(b, done).Got?
    ensures AcceptedMembers(ms, ReadProps(b, done).rest) && b == EmitMembers(ms) + ReadProps(b, done).rest
    decreases |b|, 1
  {
    hide ReadAny, ReadUtf8, EmitText, TextOk, Emit, Accepted, Set;
    var rest := ReadProps(b, done).rest;
    if b == [] {
      ms := Cut;
    } else if IsEof(b) {
      ms := Closed;
      assert b == b[..3] + b[3..];
    } else {
      var b1 := ReadUtf8(b).rest;
      var b2 := ReadAny(b1).rest;
      var t := TextOfInput(b);
      var w := WireOfInput(b1);
      var more := MembersOfInput(b2, Set(done, ReadUtf8(b).value, ReadAny(b1).value));
      ms := Member(t, w, more);
      Assoc(EmitText(t), Emit(w), b2);
      Assoc(Emit(w), EmitMembers(more), rest);
      Assoc(EmitText(t), Emit(w) + EmitMembers(more), rest);
    }
  }

  ghost predicate Derives(b: bytes, v: Value, rest: bytes) {
    exists w :: Accepted(w, rest) && b == Emit(w) + rest && Meaning(w) == v
  }

  /** The reader takes a value off any bytes, and leaves a rest, exactly when the grammar derives the
      bytes in front of that rest and gives them that value. */
  lemma ReadsExactly(b: bytes, v: Value, rest: bytes)
    ensures ReadAny(b) == Got(v, rest) <==> Derives(b, v, rest)
  {
    hide ReadAny, Emit, Accepted, Meaning;
    if ReadAny(b) == Got(v, rest) {
      var w := WireOfInput(b);
      WireIsRead(w, rest);
    }
    if Derives(b, v, rest) {
      var w :| Accepted(w, rest) && b == Emit(w) + rest && Meaning(w) == v;
      WireIsRead(w, rest);
    }
  }

  /** An encoder's bytes, in the words of the grammar. */
  function Encoding(v: Value): Wire {
    match v
    case Number(image) => NumberW(image)
    case Boolean(on) => BooleanW(if on then 1 else 0)
    case String(text) => StringW(Text(|text|, text))
    case Object(props) => ObjectW(Encodings(props))
    case Null => NullW
    case Undefined => UndefinedW
    case EcmaArray(count, props) => ArrayW(count, Encodings(props))
    case ObjectEnd => EndW
  }

  function Encodings(ps: seq<Prop>): Members {
    if ps == [] then Closed
    else Member(Text(|ps[0].key|, ps[0].key), Encoding(ps[0].value), Encodings(ps[1..]))
  }

  /** The writer writes exactly these bytes. */
  lemma {:induction false} WritesExactly(v: Value)
    ensures Encode(v) == Emit(Encoding(v))
    decreases v, 0
  {
    match v
    case Object(props) => MembersWritten(props);
    case EcmaArray(count, props) =>
      MembersWritten(props);
      Assoc([8] + BE4(count), EncodeProps(props), EOF);
    case _ =>
  }

  lemma {:induction false} MembersWritten(ps: seq<Prop>)
    ensures EncodeProps(ps) + EOF == EmitMembers(Encodings(ps))
    decreases ps, 1
  {
    hide Encode, Emit, BE2;
    if ps == [] {
      assert [] + EOF == EOF;
    } else {
      WritesExactly(ps[0].value);
      MembersWritten(ps[1..]);
      var key, value, more := Utf8(ps[0].key), Encode(ps[0].value), EncodeProps(ps[1..]);
      Assoc(key + value, more, EOF);
      Assoc(key, value, more + EOF);
    }
  }
}
