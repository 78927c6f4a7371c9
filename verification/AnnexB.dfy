/**
 From length-prefixed NAL units (section 5.3.4.2 of ISO/IEC 14496-15) to the start-code form that
 goes into a transport stream.
 */
module AnnexB {
  import opened Bytes

  const MAX_SAMPLES := 256
  const TYPE_IDR := 5
  const TYPE_AUD := 9
  const DEFAULT_AUD := Nalu([0x09, 0xf0])
  const FRESH_CODE: bytes := [0, 0, 0, 1]
  const NEXT_CODE: bytes := [0, 0, 1]

  datatype Nalu = Nalu(data: bytes)

  // ----- splitting

  predicate PrefixOk(width: nat) { width == 1 || width == 2 || width == 4 }

  function Prefix(width: nat, n: nat): (b: bytes)
    requires PrefixOk(width)
    ensures |b| == width
  {
    if width == 4 then BE4(n) else if width == 2 then BE2(n) else [n % 256]
  }

  /** The size in front; four bytes are read as a signed number. */
  function ReadPrefix(width: nat, b: bytes): int
    requires PrefixOk(width) && |b| >= width
  {
    if width == 4 then S32(U32(b)) else if width == 2 then U16(b) else b[0]
  }

  /** The largest size the prefix can announce. */
  function Limit(width: nat): nat { if width == 4 then TWO31 else if width == 2 then TWO16 else 256 }

  function Split(b: bytes, width: nat, found: seq<Nalu>): (r: Option<seq<Nalu>>)
    requires PrefixOk(width)
    ensures r.Some? && |found| <= MAX_SAMPLES && Nalu([]) !in found ==> |r.value| <= MAX_SAMPLES && Nalu([]) !in r.value
    decreases |b|
  {
    if b == [] then Some(found)
    else if |b| < width then None
    else
      var n := ReadPrefix(width, b);
      if n < 0 || n > |b| - width then None
      else if n == 0 then Split(b[width..], width, found)
      else if |found| >= MAX_SAMPLES then None
      else Split(b[width + n..], width, found + [Nalu(b[width..width + n])])
  }

  function Join(ns: seq<Nalu>, width: nat): bytes
    requires PrefixOk(width)
  {
    if ns == [] then [] else Prefix(width, |ns[0].data|) + ns[0].data + Join(ns[1..], width)
  }

  function NonEmpty(ns: seq<Nalu>): seq<Nalu> {
    if ns == [] then [] else (if ns[0].data == [] then [] else [ns[0]]) + NonEmpty(ns[1..])
  }

  lemma PrefixReadsBack(width: nat, n: nat, rest: bytes)
    requires PrefixOk(width) && n < Limit(width)
    ensures ReadPrefix(width, Prefix(width, n) + rest) == n
  {
    if width == 4 { U32OfBE4(n, rest); } else if width == 2 { U16OfBE2(n, rest); }
  }

  /** Splitting inverts joining on the units that are not empty, exactly while the frame has room
      for them. */
  lemma {:induction false} SplitInvertsJoin(ns: seq<Nalu>, width: nat, found: seq<Nalu>)
    requires PrefixOk(width) && |found| <= 256 && forall n :: n in ns ==> |n.data| < Limit(width)
    ensures Split(Join(ns, width), width, found)
            == if |found| + |NonEmpty(ns)| <= 256 then Some(found + NonEmpty(ns)) else None
  {
    hide ReadPrefix, Prefix, Limit;
    if ns == [] {
      assert found + [] == found;
    } else {
      var n, rest := ns[0], Join(ns[1..], width);
      var b, k := Join(ns, width), |ns[0].data|;
      assert b == Prefix(width, k) + (n.data + rest);
      PrefixReadsBack(width, k, n.data + rest);
      assert b[width + k..] == rest && b[width..width + k] == n.data;
      if n.data == [] {
        SplitInvertsJoin(ns[1..], width, found);
        assert [] + NonEmpty(ns[1..]) == NonEmpty(ns[1..]);
      } else if |found| < MAX_SAMPLES {
        SplitInvertsJoin(ns[1..], width, found + [n]);
        assert (found + [n]) + NonEmpty(ns[1..]) == found + ([n] + NonEmpty(ns[1..]));
      }
    }
  }

  /** The splitter accepts nothing else: whatever it takes apart was joined, unit by unit. */
  lemma {:induction false} SplitIsJoined(b: bytes, width: nat, found: seq<Nalu>) returns (ns: seq<Nalu>)
    requires PrefixOk(width) && Split(b, width, found).Some?
    ensures b == Join(ns, width) && Split(b, width, found).value == found + NonEmpty(ns)
    ensures forall n :: n in ns ==> |n.data| < Limit(width)
    decreases |b|
  {
    hide ReadPrefix, Prefix;
    if b == [] {
      ns := [];
      assert found + [] == found;
    } else {
      hide Split, Join, NonEmpty;
      var unit, rest, found' := SplitStep(b, width, found);
      var more := SplitIsJoined(rest, width, found');
      ns := [unit] + more;
      OneMore(unit, more, width);
      assert [] + NonEmpty(more) == NonEmpty(more);
      Assoc(found, [unit], NonEmpty(more));
    }
  }

  lemma SplitStep(b: bytes, width: nat, found: seq<Nalu>) returns (unit: Nalu, rest: bytes, found': seq<Nalu>)
    requires PrefixOk(width) && b != [] && Split(b, width, found).Some?
    ensures Split(b, width, found) == Split(rest, width, found') && |rest| < |b|
    ensures b == Prefix(width, |unit.data|) + unit.data + rest && |unit.data| < Limit(width)
    ensures found' == if unit.data == [] then found else found + [unit]
  {
    hide ReadPrefix, Prefix;
    var n := ReadPrefix(width, b);
    PrefixIs(width, b);
    unit, rest := Nalu(b[width..width + n]), b[width + n..];
    found' := if n == 0 then found else found + [unit];
    assert b == b[..width] + unit.data + rest;
  }

  lemma OneMore(unit: Nalu, more: seq<Nalu>, width: nat)
    requires PrefixOk(width)
    ensures Join([unit] + more, width) == Prefix(width, |unit.data|) + unit.data + Join(more, width)
    ensures NonEmpty([unit] + more) == (if unit.data == [] then [] else [unit]) + NonEmpty(more)
  {
    hide Prefix;
    assert ([unit] + more)[1..] == more;
  }

  lemma PrefixIs(width: nat, b: bytes)
    requires PrefixOk(width) && |b| >= width && ReadPrefix(width, b) >= 0
    ensures Prefix(width, ReadPrefix(width, b)) == b[..width] && ReadPrefix(width, b) < Limit(width)
  {
    hide BE4, U32, BE2, U16;
    if width == 4 {
      BE4OfU32(b);
    } else if width == 2 {
      BE2OfU16(b);
    } else {
      assert b[..1] == [b[0]];
    }
  }

  /** The splitter as a loop over the payload. */
  method DemuxIbmf(payload: bytes, width: nat) returns (samples: Option<seq<Nalu>>)
    requires PrefixOk(width)
    ensures samples == Split(payload, width, [])
  {
    hide ReadPrefix;
    var pos, found := 0, [];
    assert payload[0..] == payload;
    while pos < |payload|
      invariant pos <= |payload|
      invariant Split(payload[pos..], width, found) == Split(payload, width, [])
    {
      var b := payload[pos..];
      if |b| < width { return None; }
      var n := ReadPrefix(width, b);
      if n < 0 || n > |b| - width { return None; }
      if n > 0 {
        if |found| >= MAX_SAMPLES { return None; }
        found := found + [Nalu(b[width..width + n])];
      }
      assert b[width + n..] == payload[pos + width + n..];
      pos := pos + width + n;
    }
    return Some(found);
  }

  // ----- writing

  /** The splitter yields no empty unit, so the first byte is always there. */
  function Type(n: Nalu): nat { if n.data == [] then 0 else n.data[0] % 32 }

  predicate HasAud(ns: seq<Nalu>) { exists i :: 0 <= i < |ns| && Type(ns[i]) == TYPE_AUD }

  /** The index of the first IDR unit, or the length. */
  function FirstIdr(ns: seq<Nalu>): (k: nat)
    ensures k <= |ns| && (k < |ns| ==> Type(ns[k]) == TYPE_IDR)
    ensures forall i :: 0 <= i < k ==> Type(ns[i]) != TYPE_IDR
  {
    if ns == [] || Type(ns[0]) == TYPE_IDR then 0 else 1 + FirstIdr(ns[1..])
  }

  function Parameter(p: bytes): seq<Nalu> { if p == [] then [] else [Nalu(p)] }

  /** The access unit: an AUD in front if there was none, the parameter sets once, immediately
      before the first IDR unit, and otherwise the samples in order. */
  function AccessUnit(ns: seq<Nalu>, sps: bytes, pps: bytes): seq<Nalu> {
    var k := FirstIdr(ns);
    (if HasAud(ns) then [] else [DEFAULT_AUD])
    + ns[..k] + (if k < |ns| then Parameter(sps) + Parameter(pps) else []) + ns[k..]
  }

  /** Start codes: four bytes before the first unit, three before every other. */
  function Coded(ns: seq<Nalu>, started: bool): bytes {
    if ns == [] then [] else StartCode(started) + ns[0].data + Coded(ns[1..], true)
  }

  function StartCode(started: bool): bytes { if started then NEXT_CODE else FRESH_CODE }

  lemma {:induction false} CodedConcat(a: seq<Nalu>, b: seq<Nalu>, started: bool)
    ensures Coded(a + b, started) == Coded(a, started) + Coded(b, started || a != [])
  {
    if a == [] {
      assert a + b == b;
    } else {
      hide StartCode;
      CodedConcat(a[1..], b, true);
      var head := StartCode(started) + a[0].data;
      assert Coded(a + b, started) == head + Coded(a[1..] + b, true) by { assert (a + b)[1..] == a[1..] + b; }
      Assoc(head, Coded(a[1..], true), Coded(b, true));
    }
  }

  /** The payload under construction, with the units put into it so far. */
  class PayloadWriter {
    var payload: bytes
    var audInserted: bool
    ghost var units: seq<Nalu>

    ghost predicate Valid()
      reads this
    {
      payload == Coded(units, false) && audInserted == (units != [])
    }

    constructor ()
      ensures Valid() && units == []
    {
      payload, audInserted, units := [], false, [];
    }

    method Append(n: Nalu)
      requires Valid()
      modifies this
      ensures Valid() && units == old(units) + [n]
    {
      CodedConcat(units, [n], false);
      assert [n][1..] == [];
      if !audInserted {
        audInserted := true;
        payload := payload + FRESH_CODE;
      } else {
        payload := payload + NEXT_CODE;
      }
      payload := payload + n.data;
      units := units + [n];
    }

    method AppendParameter(p: bytes)
      requires Valid()
      modifies this
      ensures Valid() && units == old(units) + Parameter(p)
    {
      if p != [] { Append(Nalu(p)); } else { assert units + [] == units; }
    }
  }

  method FindAud(samples: seq<Nalu>) returns (found: bool)
    ensures found == HasAud(samples)
  {
    var i := 0;
    while i < |samples|
      invariant i <= |samples| && forall j :: 0 <= j < i ==> Type(samples[j]) != TYPE_AUD
    {
      if Type(samples[i]) == TYPE_AUD { return true; }
      i := i + 1;
    }
    return false;
  }

  /** The samples with the parameter sets put in, sample by sample. */
  function Body(ns: seq<Nalu>, params: seq<Nalu>): seq<Nalu> {
    if ns == [] then [] else if Type(ns[0]) == TYPE_IDR then params + ns else [ns[0]] + Body(ns[1..], params)
  }

  lemma {:induction false} BodyIs(ns: seq<Nalu>, params: seq<Nalu>)
    ensures var k := FirstIdr(ns);
            Body(ns, params) == ns[..k] + (if k < |ns| then params else []) + ns[k..]
  {
    hide Type;
    var k := FirstIdr(ns);
    if ns != [] {
      if k == 0 {
        assert ns[..0] + params + ns[0..] == params + ns;
      } else {
        var rest := ns[1..];
        BodyIs(rest, params);
        assert FirstIdr(rest) == k - 1;
        var head, mid, tail := rest[..k - 1], if k < |ns| then params else [], rest[k - 1..];
        assert [ns[0]] + head == ns[..k] && tail == ns[k..];
        Associate([ns[0]], head, mid, tail);
      }
    } else {
      assert ns[..0] + [] + ns[0..] == [];
    }
  }

  lemma Associate<T>(a: seq<T>, b: seq<T>, c: seq<T>, d: seq<T>)
    ensures a + (b + c + d) == (a + b) + c + d
  {
  }

  /** One turn of the loop: what is written plus what is still to come does not change. */
  lemma Turn(units: seq<Nalu>, rest: seq<Nalu>, params: seq<Nalu>, appended: bool)
    requires rest != []
    ensures var insert := Type(rest[0]) == TYPE_IDR && !appended;
            var now := units + (if insert then params else []) + [rest[0]];
            now + (if appended || insert then rest[1..] else Body(rest[1..], params))
            == units + (if appended then rest else Body(rest, params))
  {
    hide Type;
    assert rest == [rest[0]] + rest[1..];
    if appended {
      Assoc(units, [rest[0]], rest[1..]);
      assert units + [] == units;
    } else if Type(rest[0]) == TYPE_IDR {
      Associate(units, params, [rest[0]], rest[1..]);
      Assoc(params, [rest[0]], rest[1..]);
    } else {
      Assoc(units, [rest[0]], Body(rest[1..], params));
      assert units + [] == units;
    }
  }

  lemma BodyEnds(params: seq<Nalu>)
    ensures Body([], params) == []
  {
  }

  /** The conversion of one frame: exactly the access unit, in start-code form. */
  method CacheAvc(samples: seq<Nalu>, sps: bytes, pps: bytes) returns (payload: bytes)
    ensures payload == Coded(AccessUnit(samples, sps, pps), false)
  {
    hide Coded, FirstIdr, Type, Body, Parameter;
    var w := new PayloadWriter();
    var hasAud := FindAud(samples);
    if !hasAud { w.Append(DEFAULT_AUD); }
    ghost var aud := if HasAud(samples) then [] else [DEFAULT_AUD];
    assert w.units == aud;
    ghost var params := Parameter(sps) + Parameter(pps);
    ghost var goal := w.units + Body(samples, params);
    var appended, i := false, 0;
    assert samples[0..] == samples;
    while i < |samples|
      invariant i <= |samples| && w.Valid() && fresh(w)
      invariant w.units + (if appended then samples[i..] else Body(samples[i..], params)) == goal
    {
      ghost var rest := samples[i..];
      assert rest[1..] == samples[i + 1..] && rest[0] == samples[i];
      Turn(w.units, rest, params, appended);
      ghost var before := w.units;
      if Type(samples[i]) == TYPE_IDR && !appended {
        w.AppendParameter(sps);
        w.AppendParameter(pps);
        appended := true;
        assert w.units == before + params;
      } else {
        assert before + [] == before;
      }
      w.Append(samples[i]);
      i := i + 1;
    }
    assert w.units == goal by { BodyEnds(params); }
    BodyIs(samples, params);
    ghost var k := FirstIdr(samples);
    Associate(aud, samples[..k], if k < |samples| then params else [], samples[k..]);
    payload := w.payload;
  }

  /** A unit's type is in the low five bits of its first byte. */
  predicate Typed(n: Nalu, kind: nat) { n.data != [] && n.data[0] % 32 == kind }

  /** The access unit, told on the bytes: the delimiter 09 f0 in front unless some unit has type 9; the
      parameter sets that are known immediately before the first unit of type 5, if there is one; and
      the samples in order. */
  lemma AccessUnitIs(samples: seq<Nalu>, sps: bytes, pps: bytes, k: nat)
    requires k <= |samples| && (k < |samples| ==> Typed(samples[k], 5))
    requires forall i :: 0 <= i < k ==> !Typed(samples[i], 5)
    ensures var aud := if exists i :: 0 <= i < |samples| && Typed(samples[i], 9) then [] else [Nalu([0x09, 0xf0])];
            var sets := (if sps == [] then [] else [Nalu(sps)]) + (if pps == [] then [] else [Nalu(pps)]);
            AccessUnit(samples, sps, pps) == if k < |samples| then aud + samples[..k] + sets + samples[k..]
                                             else aud + samples
  {
    hide FirstIdr, Typed;
    forall i | 0 <= i < |samples|
      ensures (Type(samples[i]) == 5 <==> Typed(samples[i], 5)) && (Type(samples[i]) == 9 <==> Typed(samples[i], 9))
    {
      TypedIs(samples[i]);
    }
    assert FirstIdr(samples) == k;
    if HasAud(samples) {
      var i :| 0 <= i < |samples| && Type(samples[i]) == 9;
      assert Typed(samples[i], 9);
    }
    if k == |samples| {
      var aud := if HasAud(samples) then [] else [DEFAULT_AUD];
      assert samples[..k] == samples && samples[k..] == [];
      assert aud + samples + [] + [] == aud + samples;
    }
  }

  lemma TypedIs(n: Nalu)
    ensures Type(n) == 5 <==> Typed(n, 5)
    ensures Type(n) == 9 <==> Typed(n, 9)
  {
  }

  // ----- reading start codes back

  predicate CodeAt(b: bytes, i: nat) { i + 3 <= |b| && b[i] == 0 && b[i + 1] == 0 && b[i + 2] == 1 }

  /** The next start code from `i` on, or the end. */
  function NextCode(b: bytes, i: nat): (k: nat)
    requires i <= |b|
    ensures i <= k <= |b| && (k < |b| ==> CodeAt(b, k)) && forall x :: i <= x < k ==> !CodeAt(b, x)
    decreases |b| - i
  {
    if i == |b| || CodeAt(b, i) then i else NextCode(b, i + 1)
  }

  function ReadUnits(b: bytes): Option<seq<Nalu>>
    decreases |b|
  {
    if b == [] then Some([])
    else if !CodeAt(b, 0) then None
    else
      var k := NextCode(b, 3);
      var rest := ReadUnits(b[k..]);
      if rest.None? then None else Some([Nalu(b[3..k])] + rest.value)
  }

  /** A start-code stream: one extra zero byte may come first. */
  function ReadStream(b: bytes): Option<seq<Nalu>> {
    if b != [] && b[0] == 0 && CodeAt(b, 1) then ReadUnits(b[1..]) else ReadUnits(b)
  }

  /** The unit holds no start code, as emulation prevention guarantees for an encoder's units. */
  predicate Clear(n: Nalu) { forall i :: 0 <= i < |n.data| ==> !CodeAt(n.data, i) }

  predicate AllClear(ns: seq<Nalu>) { forall i :: 0 <= i < |ns| ==> Clear(ns[i]) }

  lemma CodedStarts(ns: seq<Nalu>)
    ensures ns == [] ==> Coded(ns, true) == []
    ensures ns != [] ==> CodeAt(Coded(ns, true), 0)
  {
  }

  /** A start code never straddles the end of a unit. */
  lemma UnitEnds(n: Nalu, rest: bytes)
    requires rest == [] || CodeAt(rest, 0)
    ensures var b := NEXT_CODE + n.data + rest;
            CodeAt(b, 0) && (Clear(n) <==> NextCode(b, 3) == 3 + |n.data|) && NextCode(b, 3) <= 3 + |n.data|
  {
    hide NextCode;
    var b := NEXT_CODE + n.data + rest;
    forall i | 0 <= i < |n.data| ensures CodeAt(b, 3 + i) <==> CodeAt(n.data, i) {
      assert forall x :: 0 <= x < |n.data| ==> b[3 + x] == n.data[x];
      if rest != [] { assert b[3 + |n.data|] == 0 && b[3 + |n.data| + 1] == 0; }
    }
    if rest != [] {
      assert forall x :: 0 <= x < |rest| ==> b[3 + |n.data| + x] == rest[x];
      assert CodeAt(b, 3 + |n.data|);
    }
    var k := NextCode(b, 3);
    if Clear(n) {
      assert k < 3 + |n.data| ==> CodeAt(n.data, k - 3);
    } else {
      var i :| 0 <= i < |n.data| && CodeAt(n.data, i);
      assert CodeAt(b, 3 + i);
    }
  }

  /** The units read back exactly when none of them holds a start code. */
  lemma {:induction false} UnitsReadBack(ns: seq<Nalu>)
    ensures ReadUnits(Coded(ns, true)) == Some(ns) <==> AllClear(ns)
  {
    hide NextCode, Clear, CodeAt;
    if ns != [] {
      var n, tail := ns[0], Coded(ns[1..], true);
      var b := NEXT_CODE + n.data + tail;
      assert Coded(ns, true) == b;
      CodedStarts(ns[1..]);
      UnitEnds(n, tail);
      UnitsReadBack(ns[1..]);
      var k := NextCode(b, 3);
      if k == 3 + |n.data| {
        assert b[k..] == tail && b[3..k] == n.data;
        assert ns == [ns[0]] + ns[1..];
        assert ReadUnits(tail).Some? ==> ([n] + ReadUnits(tail).value)[1..] == ReadUnits(tail).value;
      } else {
        assert |b[3..k]| < |n.data|;
      }
    }
  }

  /** What a player finds in the converted frame: exactly the access unit, if and only if no unit
      of it holds a start code. The first start code has four bytes. */
  lemma ConversionReadsBack(samples: seq<Nalu>, sps: bytes, pps: bytes)
    ensures var units := AccessUnit(samples, sps, pps);
            && (ReadStream(Coded(units, false)) == Some(units) <==> AllClear(units))
            && (units != [] ==> Coded(units, false)[..4] == [0, 0, 0, 1])
  {
    hide NextCode, Clear, AccessUnit, ReadUnits;
    var units := AccessUnit(samples, sps, pps);
    UnitsReadBack(units);
    if units != [] {
      assert Coded(units, false)[1..] == Coded(units, true);
    }
  }
}
