/**
 One fMP4 fragment (section 8.8 of ISO/IEC 14496-12): styp, moof and mdat. The layout the encoder
 produces, a reference demuxer written from the box definitions, and the proof that the demuxer
 gives back every sample of every track.
 */
module Fmp4 {
  import opened Bytes

  /** A media sample; times are milliseconds as the encoder stores them (unsigned 32 bits). */
  datatype Sample = Sample(video: bool, frameType: nat, dts: nat, pts: nat, data: bytes)

  const KEYFRAME := 1

  const STYP: bytes := [0x73, 0x74, 0x79, 0x70]
  const MOOF: bytes := [0x6d, 0x6f, 0x6f, 0x66]
  const MFHD: bytes := [0x6d, 0x66, 0x68, 0x64]
  const TRAF: bytes := [0x74, 0x72, 0x61, 0x66]
  const TFHD: bytes := [0x74, 0x66, 0x68, 0x64]
  const TFDT: bytes := [0x74, 0x66, 0x64, 0x74]
  const TRUN: bytes := [0x74, 0x72, 0x75, 0x6e]
  const MDAT: bytes := [0x6d, 0x64, 0x61, 0x74]
  const MSDH: bytes := [0x6d, 0x73, 0x64, 0x68]
  const MSIX: bytes := [0x6d, 0x73, 0x69, 0x78]

  const SYNC_FLAGS := 0x0200_0000
  const INTER_FLAGS := 0x0101_0000

  predicate SampleOk(s: Sample) { s.dts < TWO32 && s.pts < TWO32 }

  // ----- the layout

  function Box(kind: bytes, content: bytes): (b: bytes)
    requires |kind| == 4
    ensures |b| == 8 + |content|
  {
    BE4(8 + |content|) + kind + content
  }

  function FullBox(kind: bytes, version: byte, flags: int, content: bytes): (b: bytes)
    requires |kind| == 4
    ensures |b| == 12 + |content|
  {
    Box(kind, [version] + BE3(flags) + content)
  }

  function OfTrack(ss: seq<Sample>, video: bool): seq<Sample> {
    if ss == [] then [] else (if ss[0].video == video then [ss[0]] else []) + OfTrack(ss[1..], video)
  }

  function Payload(ss: seq<Sample>): bytes {
    if ss == [] then [] else ss[0].data + Payload(ss[1..])
  }

  /** Up to the next sample; the last one up to `end`, or as long as the one before it. */
  function Duration(ss: seq<Sample>, end: nat, previous: int): int
    requires ss != []
  {
    if |ss| > 1 then ss[1].dts - ss[0].dts
    else if end > ss[0].dts then end - ss[0].dts
    else previous
  }

  function Flags(s: Sample): int {
    if s.video && s.frameType != KEYFRAME then INTER_FLAGS else SYNC_FLAGS
  }

  function Entry(s: Sample, duration: int): (b: bytes)
    ensures |b| == 16
  {
    BE4(duration) + BE4(|s.data|) + BE4(Flags(s)) + BE4(s.pts - s.dts)
  }

  function Entries(ss: seq<Sample>, end: nat, previous: int): (b: bytes)
    ensures |b| == 16 * |ss|
  {
    if ss == [] then []
    else Entry(ss[0], Duration(ss, end, previous)) + Entries(ss[1..], end, Duration(ss, end, previous))
  }

  /** Composition offsets are signed if any of them is negative. */
  predicate AnyEarly(ss: seq<Sample>) { exists i :: 0 <= i < |ss| && ss[i].pts < ss[i].dts }

  function Version(ss: seq<Sample>): byte { if AnyEarly(ss) then 1 else 0 }

  function Tfhd(tid: nat): (b: bytes) ensures |b| == 16 { FullBox(TFHD, 0, 0x02_0000, BE4(tid)) }

  function Tfdt(dts: nat): (b: bytes) ensures |b| == 20 { FullBox(TFDT, 1, 0, BE8(dts)) }

  function Trun(ss: seq<Sample>, end: nat, offset: int): (b: bytes)
    ensures |b| == 20 + 16 * |ss|
  {
    FullBox(TRUN, Version(ss), 0x0f01, BE4(|ss|) + BE4(offset) + Entries(ss, end, 0))
  }

  function Traf(tid: nat, ss: seq<Sample>, end: nat, offset: int): (b: bytes)
    requires ss != []
    ensures |b| == 64 + 16 * |ss|
  {
    Box(TRAF, Tfhd(tid) + Tfdt(ss[0].dts) + Trun(ss, end, offset))
  }

  function Mfhd(sequence: nat): (b: bytes) ensures |b| == 16 { FullBox(MFHD, 0, 0, BE4(sequence)) }

  /** A track that has no sample in the fragment has no traf. */
  function MaybeTraf(tid: nat, ss: seq<Sample>, end: nat, offset: int): (b: bytes)
    ensures |b| == if ss == [] then 0 else 64 + 16 * |ss|
  {
    if ss == [] then [] else Traf(tid, ss, end, offset)
  }

  datatype Fragment = Fragment(sequence: nat, vid: nat, aid: nat, end: nat, samples: seq<Sample>) {
    function Video(): seq<Sample> { OfTrack(samples, true) }

    function Audio(): seq<Sample> { OfTrack(samples, false) }

    function MoofWith(vOffset: int, aOffset: int): (b: bytes)
      ensures |b| == 24 + (if Video() == [] then 0 else 64 + 16 * |Video()|)
              + (if Audio() == [] then 0 else 64 + 16 * |Audio()|)
    {
      Box(MOOF, Mfhd(sequence) + MaybeTraf(vid, Video(), end, vOffset) + MaybeTraf(aid, Audio(), end, aOffset))
    }

    function MoofSize(): nat { |MoofWith(0, 0)| }

    /** Each track's data offset counts from the first byte of the moof. */
    function Moof(): bytes {
      MoofWith(MoofSize() + 8, MoofSize() + 8 + |Payload(Video())|)
    }

    function Mdat(): bytes { Box(MDAT, Payload(Video()) + Payload(Audio())) }

    function Bytes(): bytes { Styp() + Moof() + Mdat() }

    predicate Ok() {
      && vid < TWO32 && aid < TWO32 && |Moof()| + |Mdat()| < TWO31
      && forall i :: 0 <= i < |samples| ==> SampleOk(samples[i])
    }
  }

  function Styp(): (b: bytes) ensures |b| == 24 { Box(STYP, MSDH + BE4(0) + MSDH + MSIX) }

  // ----- the reference demuxer

  datatype Child = Child(kind: bytes, content: bytes)

  function ParseBoxes(b: bytes): (r: Option<seq<Child>>) {
    if b == [] then Some([])
    else if |b| < 8 then None
    else
      var size := U32(b);
      if size < 8 || size > |b| then None
      else
        match ParseBoxes(b[size..])
        case None => None
        case Some(rest) => Some([Child(b[4..8], b[8..size])] + rest)
  }

  predicate Is(kind: bytes, name: string) {
    |kind| == |name| && forall i :: 0 <= i < |kind| ==> kind[i] == name[i] as int
  }

  /** A sample without its duration: decode time, composition offset, sample flags, bytes. */
  datatype Shot = Shot(dts: int, cts: int, flags: int, data: bytes)

  datatype Frame = Frame(shot: Shot, duration: int)

  datatype Track = Track(tid: nat, frames: seq<Frame>)

  datatype Contents = Contents(sequence: nat, tracks: seq<Track>)

  function ReadEntries(entries: bytes, n: nat, dts: int, signed: bool, src: bytes): Option<seq<Frame>> {
    if n == 0 then Some([])
    else if |entries| < 16 then None
    else
      var duration, size := U32(entries), U32(entries[4..]);
      var flags, offset := U32(entries[8..]), U32(entries[12..]);
      if size > |src| then None
      else
        match ReadEntries(entries[16..], n - 1, dts + duration, signed, src[size..])
        case None => None
        case Some(rest) =>
          Some([Frame(Shot(dts, if signed then S32(offset) else offset, flags, src[..size]), duration)] + rest)
  }

  /** `base` is everything from the first byte of the moof on. The flags say that the offset counts
      from there, and that the offset and all four fields of a sample are present. */
  function ReadTraf(content: bytes, base: bytes): Option<Track> {
    match ParseBoxes(content)
    case None => None
    case Some(cs) =>
      if |cs| != 3 || !Is(cs[0].kind, "tfhd") || !Is(cs[1].kind, "tfdt") || !Is(cs[2].kind, "trun") then None
      else
        var tfhd, tfdt, trun := cs[0].content, cs[1].content, cs[2].content;
        if |tfhd| < 8 || |tfdt| < 12 || |trun| < 12 then None
        else if tfhd[..4] != [0, 2, 0, 0] || tfdt[..4] != [1, 0, 0, 0] || trun[1..4] != [0, 0x0f, 0x01] then None
        else
          var count, offset := U32(trun[4..]), S32(U32(trun[8..]));
          if offset < 0 || offset > |base| then None
          else
            match ReadEntries(trun[12..], count, U64(tfdt[4..]), trun[0] == 1, base[offset..])
            case None => None
            case Some(fs) => Some(Track(U32(tfhd[4..]), fs))
  }

  function ReadTrafs(cs: seq<Child>, base: bytes): Option<seq<Track>> {
    if cs == [] then Some([])
    else if !Is(cs[0].kind, "traf") then None
    else
      match (ReadTraf(cs[0].content, base), ReadTrafs(cs[1..], base))
      case (Some(t), Some(ts)) => Some([t] + ts)
      case _ => None
  }

  /** The moof: its number, then one traf for each track. */
  function ReadMoof(cs: seq<Child>, base: bytes): Option<Contents> {
    if cs == [] || !Is(cs[0].kind, "mfhd") || |cs[0].content| != 8 || cs[0].content[..4] != [0, 0, 0, 0] then None
    else
      match ReadTrafs(cs[1..], base)
      case None => None
      case Some(ts) => Some(Contents(U32(cs[0].content[4..]), ts))
  }

  /** A media segment with random access, by its brands. */
  predicate IsStyp(c: Child) {
    && Is(c.kind, "styp") && |c.content| == 16
    && Is(c.content[..4], "msdh") && Is(c.content[8..12], "msdh") && Is(c.content[12..], "msix")
  }

  /** A part: the moof is the second box, behind styp. */
  function Demux(part: bytes): Option<Contents> {
    match ParseBoxes(part)
    case None => None
    case Some(bs) =>
      if |bs| != 3 || !IsStyp(bs[0]) || !Is(bs[1].kind, "moof") || !Is(bs[2].kind, "mdat") then None
      else
        match ParseBoxes(bs[1].content)
        case None => None
        case Some(cs) => if |part| < 24 then None else ReadMoof(cs, part[24..])
  }

  // ----- what should come out

  /** Audio frames and keyframes depend on no other sample; all others do and are no sync samples. */
  function ShotOf(s: Sample): Shot {
    Shot(s.dts, s.pts - s.dts, if !s.video || s.frameType == 1 then 0x0200_0000 else 0x0101_0000, s.data)
  }

  /** A sample lasts until the next one, the last one until the end; if the end is not later, as long
      as the one before it, and a lone one not at all. */
  function Lasts(ss: seq<Sample>, end: nat, i: nat): int
    requires i < |ss|
  {
    if i + 1 < |ss| then ss[i + 1].dts - ss[i].dts
    else if end > ss[i].dts then end - ss[i].dts
    else if i > 0 then ss[i].dts - ss[i - 1].dts
    else 0
  }

  function FramesOf(ss: seq<Sample>, end: nat): (fs: seq<Frame>)
    ensures |fs| == |ss|
  {
    seq(|ss|, i requires 0 <= i < |ss| => Frame(ShotOf(ss[i]), Lasts(ss, end, i)))
  }

  /** What does come out: times advance by 32-bit durations, offsets are 32-bit fields. */
  function Recovered(ss: seq<Sample>, dts: int, signed: bool, end: nat, previous: int): (fs: seq<Frame>)
    ensures |fs| == |ss|
  {
    if ss == [] then []
    else
      var offset := (ss[0].pts - ss[0].dts) % TWO32;
      var d := Duration(ss, end, previous);
      var cts := if signed then S32(offset) else offset;
      [Frame(Shot(dts, cts, Flags(ss[0]), ss[0].data), d % TWO32)]
      + Recovered(ss[1..], dts + d % TWO32, signed, end, d)
  }

  predicate Ordered(ss: seq<Sample>) { forall i :: 0 < i < |ss| ==> ss[i - 1].dts <= ss[i].dts }

  /** All offsets are non-negative, or all of them fit 32 signed bits. */
  predicate OffsetsFit(ss: seq<Sample>) {
    || (forall i :: 0 <= i < |ss| ==> ss[i].pts >= ss[i].dts)
    || (forall i :: 0 <= i < |ss| ==> -TWO31 <= ss[i].pts - ss[i].dts < TWO31)
  }

  predicate OffsetFits(s: Sample, signed: bool) {
    if signed then -TWO31 <= s.pts - s.dts < TWO31 else s.pts >= s.dts
  }

  // ----- proofs: boxes

  lemma BoxReadsBack(kind: bytes, content: bytes, rest: bytes)
    requires |kind| == 4 && 8 + |content| < TWO32
    ensures ParseBoxes(Box(kind, content) + rest)
            == match ParseBoxes(rest) case None => None case Some(cs) => Some([Child(kind, content)] + cs)
  {
    hide BE4, U32;
    var size := 8 + |content|;
    var b := Box(kind, content) + rest;
    assert b == BE4(size) + (kind + content + rest);
    U32OfBE4(size, kind + content + rest);
    assert b[4..8] == kind && b[8..size] == content && b[size..] == rest;
  }

  lemma LastBoxReadsBack(kind: bytes, content: bytes)
    requires |kind| == 4 && 8 + |content| < TWO32
    ensures ParseBoxes(Box(kind, content)) == Some([Child(kind, content)])
  {
    hide Box;
    BoxReadsBack(kind, content, []);
    assert ParseBoxes([]) == Some([]);
    assert Box(kind, content) + [] == Box(kind, content);
    assert [Child(kind, content)] + [] == [Child(kind, content)];
  }

  lemma ThreeBoxes(k0: bytes, c0: bytes, k1: bytes, c1: bytes, k2: bytes, c2: bytes)
    requires |k0| == |k1| == |k2| == 4
    requires 8 + |c0| < TWO32 && 8 + |c1| < TWO32 && 8 + |c2| < TWO32
    ensures ParseBoxes(Box(k0, c0) + Box(k1, c1) + Box(k2, c2)) == Some([Child(k0, c0), Child(k1, c1), Child(k2, c2)])
  {
    hide Box, ParseBoxes;
    LastBoxReadsBack(k2, c2);
    BoxReadsBack(k1, c1, Box(k2, c2));
    assert [Child(k1, c1)] + [Child(k2, c2)] == [Child(k1, c1), Child(k2, c2)];
    assert [Child(k0, c0)] + [Child(k1, c1), Child(k2, c2)] == [Child(k0, c0), Child(k1, c1), Child(k2, c2)];
    BoxReadsBack(k0, c0, Box(k1, c1) + Box(k2, c2));
    assert Box(k0, c0) + Box(k1, c1) + Box(k2, c2) == Box(k0, c0) + (Box(k1, c1) + Box(k2, c2));
  }

  // ----- proofs: sample entries

  lemma EntryReadsBack(s: Sample, d: int, rest: bytes)
    requires |s.data| < TWO32
    ensures var b := Entry(s, d) + rest;
            && U32(b) == d % TWO32 && U32(b[4..]) == |s.data|
            && U32(b[8..]) == Flags(s) && U32(b[12..]) == (s.pts - s.dts) % TWO32 && b[16..] == rest
  {
    hide BE4, U32;
    var b := Entry(s, d) + rest;
    var t3 := BE4(s.pts - s.dts) + rest;
    var t2 := BE4(Flags(s)) + t3;
    var t1 := BE4(|s.data|) + t2;
    assert b == BE4(d) + t1;
    U32OfBE4(d, t1);
    assert b[4..] == t1;
    U32OfBE4(|s.data|, t2);
    assert b[8..] == t2;
    U32OfBE4(Flags(s), t3);
    assert b[12..] == t3;
    U32OfBE4(s.pts - s.dts, rest);
    assert b[16..] == rest;
  }

  lemma {:induction false} EntriesReadBack(ss: seq<Sample>, end: nat, previous: int, dts: int, signed: bool,
      tail: bytes)
    requires forall i :: 0 <= i < |ss| ==> |ss[i].data| < TWO32
    ensures ReadEntries(Entries(ss, end, previous), |ss|, dts, signed, Payload(ss) + tail)
            == Some(Recovered(ss, dts, signed, end, previous))
    decreases |ss|
  {
    hide Entry, U32;
    if ss != [] {
      var s, rest, d := ss[0], ss[1..], Duration(ss, end, previous);
      EntryReadsBack(s, d, Entries(rest, end, d));
      var src := Payload(ss) + tail;
      assert src == s.data + (Payload(rest) + tail);
      assert src[..|s.data|] == s.data && src[|s.data|..] == Payload(rest) + tail;
      EntriesReadBack(rest, end, d, dts + d % TWO32, signed, tail);
    }
  }

  lemma OffsetExactly(s: Sample, signed: bool)
    requires SampleOk(s)
    ensures (var offset := (s.pts - s.dts) % TWO32; (if signed then S32(offset) else offset) == s.pts - s.dts)
            <==> OffsetFits(s, signed)
  {
  }

  /** The last sample's duration fits its field. */
  predicate EndFits(ss: seq<Sample>, end: nat) { ss != [] ==> end - ss[|ss| - 1].dts < TWO32 }

  /** From the sample at `i` on: the frames still to be recovered are the right ones. */
  predicate RightFrom(ss: seq<Sample>, end: nat, i: nat, signed: bool) {
    && EndFits(ss, end) && (forall j :: i < j < |ss| ==> ss[j - 1].dts <= ss[j].dts)
    && forall j :: i <= j < |ss| ==> OffsetFits(ss[j], signed)
  }

  lemma DurationIsLasts(ss: seq<Sample>, end: nat, i: nat, previous: int)
    requires i < |ss| && previous == if i > 0 then ss[i].dts - ss[i - 1].dts else 0
    ensures Duration(ss[i..], end, previous) == Lasts(ss, end, i)
    ensures i + 1 < |ss| ==> Lasts(ss, end, i) == ss[i + 1].dts - ss[i].dts
  {
  }

  lemma FrameExactly(ss: seq<Sample>, end: nat, i: nat, signed: bool, previous: int)
    requires i < |ss| && previous == if i > 0 then ss[i].dts - ss[i - 1].dts else 0
    requires forall j :: 0 <= j < |ss| ==> SampleOk(ss[j])
    requires previous >= 0
    ensures Recovered(ss[i..], ss[i].dts, signed, end, previous)[0] == FramesOf(ss, end)[i]
            <==> && OffsetFits(ss[i], signed)
                 && if i + 1 < |ss| then ss[i].dts <= ss[i + 1].dts else EndFits(ss, end)
  {
    hide OffsetFits, S32;
    DurationIsLasts(ss, end, i, previous);
    OffsetExactly(ss[i], signed);
    if i + 1 < |ss| { StepExactly(ss[i], ss[i + 1]); }
  }

  lemma {:induction false} RecoveredFrom(ss: seq<Sample>, end: nat, i: nat, signed: bool, previous: int)
    requires i < |ss| && previous == if i > 0 then ss[i].dts - ss[i - 1].dts else 0
    requires forall j :: 0 <= j < |ss| ==> SampleOk(ss[j])
    requires previous >= 0
    ensures Recovered(ss[i..], ss[i].dts, signed, end, previous) == FramesOf(ss, end)[i..]
            <==> RightFrom(ss, end, i, signed)
    decreases |ss| - i
  {
    hide OffsetFits, SampleOk, FramesOf, Lasts, EndFits, Recovered;
    FrameExactly(ss, end, i, signed, previous);
    DurationIsLasts(ss, end, i, previous);
    var r, f := Recovered(ss[i..], ss[i].dts, signed, end, previous), FramesOf(ss, end)[i..];
    var d := Lasts(ss, end, i);
    RecoveredRest(ss[i..], ss[i].dts, signed, end, previous);
    assert ss[i..][1..] == ss[i + 1..] && f[1..] == FramesOf(ss, end)[i + 1..];
    HeadAndTail(r, f);
    if i + 1 < |ss| && ss[i].dts <= ss[i + 1].dts {
      StepExactly(ss[i], ss[i + 1]);
      RecoveredFrom(ss, end, i + 1, signed, d);
    }
  }

  lemma RecoveredRest(ss: seq<Sample>, dts: int, signed: bool, end: nat, previous: int)
    requires ss != []
    ensures var d := Duration(ss, end, previous);
            Recovered(ss, dts, signed, end, previous)[1..] == Recovered(ss[1..], dts + d % TWO32, signed, end, d)
  {
    hide Duration, S32, Flags;
  }

  lemma HeadAndTail<T>(a: seq<T>, b: seq<T>)
    requires a != [] && b != []
    ensures a == b <==> a[0] == b[0] && a[1..] == b[1..]
  {
    assert a == [a[0]] + a[1..] && b == [b[0]] + b[1..];
  }

  /** The recovered frames are the samples, durations included, exactly when decode times do not go
      back, the end fits the last duration, and every composition offset the field chosen for it. */
  lemma RecoveredExactly(ss: seq<Sample>, signed: bool, end: nat)
    requires ss != [] && forall i :: 0 <= i < |ss| ==> SampleOk(ss[i])
    ensures Recovered(ss, ss[0].dts, signed, end, 0) == FramesOf(ss, end)
            <==> Ordered(ss) && EndFits(ss, end) && forall i :: 0 <= i < |ss| ==> OffsetFits(ss[i], signed)
  {
    hide OffsetFits, SampleOk, FramesOf, Recovered;
    RecoveredFrom(ss, end, 0, signed, 0);
    assert ss[0..] == ss && FramesOf(ss, end)[0..] == FramesOf(ss, end);
  }

  lemma StepExactly(a: Sample, b: Sample)
    requires SampleOk(a) && SampleOk(b)
    ensures (b.dts - a.dts) % TWO32 == b.dts - a.dts <==> a.dts <= b.dts
  {
  }

  // ----- proofs: one traf

  lemma OffsetFieldReadsBack(offset: nat, rest: bytes)
    requires offset < TWO31
    ensures S32(U32(BE4(offset) + rest)) == offset
  {
    S32OfBE4(offset, rest);
  }

  function TrunContent(ss: seq<Sample>, end: nat, offset: int): bytes {
    [Version(ss)] + BE3(0x0f01) + (BE4(|ss|) + BE4(offset) + Entries(ss, end, 0))
  }

  lemma TrunReadsBack(ss: seq<Sample>, end: nat, offset: nat)
    requires |ss| < TWO32 && offset < TWO31
    ensures var c := TrunContent(ss, end, offset);
            && |c| == 12 + 16 * |ss| && c[0] == Version(ss) && U32(c[4..]) == |ss|
            && S32(U32(c[8..])) == offset && c[12..] == Entries(ss, end, 0) && c[1..4] == [0, 0x0f, 0x01]
  {
    hide BE4, U32, BE3, Entries, AnyEarly, S32;
    var c := TrunContent(ss, end, offset);
    FlagBytes();
    assert c[1..4] == BE3(0x0f01);
    assert c[4..] == BE4(|ss|) + (BE4(offset) + Entries(ss, end, 0));
    U32OfBE4(|ss|, BE4(offset) + Entries(ss, end, 0));
    assert c[8..] == BE4(offset) + Entries(ss, end, 0);
    OffsetFieldReadsBack(offset, Entries(ss, end, 0));
  }

  lemma FlagBytes()
    ensures BE3(0x0f01) == [0, 0x0f, 0x01] && BE3(0x02_0000) == [2, 0, 0] && BE3(0) == [0, 0, 0]
  {
  }

  lemma HeadersReadBack(tid: nat, dts: nat)
    requires tid < TWO32 && dts < TWO32
    ensures var h, d := [0] + BE3(0x02_0000) + BE4(tid), [1] + BE3(0) + BE8(dts);
            h[..4] == [0, 2, 0, 0] && U32(h[4..]) == tid && d[..4] == [1, 0, 0, 0] && U64(d[4..]) == dts
  {
    hide BE4, BE8, BE3, U32, U64;
    FlagBytes();
    var h, d := [0] + BE3(0x02_0000) + BE4(tid), [1] + BE3(0) + BE8(dts);
    assert h[4..] == BE4(tid) + [] && d[4..] == BE8(dts) + [];
    U32OfBE4(tid, []);
    U64OfBE8(dts, []);
  }

  /** A traf whose data offset lands on its track's bytes reads back as its samples. */
  lemma TrafReadsBack(tid: nat, ss: seq<Sample>, end: nat, offset: nat, base: bytes, tail: bytes)
    requires ss != [] && tid < TWO32 && |ss| < 0x800_0000 && offset < TWO31
    requires forall i :: 0 <= i < |ss| ==> SampleOk(ss[i]) && |ss[i].data| < TWO32
    requires offset <= |base| && base[offset..] == Payload(ss) + tail
    ensures ReadTraf(Tfhd(tid) + Tfdt(ss[0].dts) + Trun(ss, end, offset), base)
            == Some(Track(tid, Recovered(ss, ss[0].dts, AnyEarly(ss), end, 0)))
  {
    hide BE4, BE8, BE3, U32, U64, S32, Entries, AnyEarly, Payload, Recovered, ReadEntries, ParseBoxes, Box;
    var h, d := [0] + BE3(0x02_0000) + BE4(tid), [1] + BE3(0) + BE8(ss[0].dts);
    var t := TrunContent(ss, end, offset);
    TrunReadsBack(ss, end, offset);
    HeadersReadBack(tid, ss[0].dts);
    assert |h| == 8 && |d| == 12 && d[0] == 1;
    ThreeBoxes(TFHD, h, TFDT, d, TRUN, t);
    EntriesReadBack(ss, end, 0, ss[0].dts, AnyEarly(ss), tail);
  }

  // ----- proofs: the whole part

  lemma {:induction false} OfTrackAppend(ss: seq<Sample>, s: Sample, video: bool)
    ensures OfTrack(ss + [s], video) == OfTrack(ss, video) + if s.video == video then [s] else []
  {
    if ss == [] {
      assert ss + [s] == [s] && [s][1..] == [];
    } else {
      assert (ss + [s])[1..] == ss[1..] + [s];
      OfTrackAppend(ss[1..], s, video);
      var head := if ss[0].video == video then [ss[0]] else [];
      var last := if s.video == video then [s] else [];
      Assoc(head, OfTrack(ss[1..], video), last);
    }
  }

  lemma {:induction false} OfTrackMembers(ss: seq<Sample>, video: bool)
    requires forall i :: 0 <= i < |ss| ==> SampleOk(ss[i])
    ensures forall i :: 0 <= i < |OfTrack(ss, video)| ==> SampleOk(OfTrack(ss, video)[i])
  {
    if ss != [] { OfTrackMembers(ss[1..], video); }
  }

  lemma {:induction false} PayloadBounds(ss: seq<Sample>)
    ensures forall i :: 0 <= i < |ss| ==> |ss[i].data| <= |Payload(ss)|
  {
    if ss != [] { PayloadBounds(ss[1..]); }
  }

  function TrackOf(tid: nat, ss: seq<Sample>, end: nat): seq<Track> {
    if ss == [] then [] else [Track(tid, Recovered(ss, ss[0].dts, AnyEarly(ss), end, 0))]
  }

  lemma MaybeTrafReadsBack(tid: nat, ss: seq<Sample>, end: nat, offset: nat, base: bytes, tail: bytes, next: bytes)
    requires tid < TWO32 && |ss| < 0x800_0000 && offset < TWO31
    requires forall i :: 0 <= i < |ss| ==> SampleOk(ss[i]) && |ss[i].data| < TWO32
    requires offset <= |base| && base[offset..] == Payload(ss) + tail
    requires ParseBoxes(next).Some? && ReadTrafs(ParseBoxes(next).value, base).Some?
    ensures var b := MaybeTraf(tid, ss, end, offset) + next;
            && ParseBoxes(b).Some?
            && ReadTrafs(ParseBoxes(b).value, base)
               == Some(TrackOf(tid, ss, end) + ReadTrafs(ParseBoxes(next).value, base).value)
  {
    hide ParseBoxes, ReadTraf, Recovered, AnyEarly, Payload, Tfhd, Tfdt, Trun, Box;
    if ss == [] {
      assert [] + next == next;
      assert [] + ReadTrafs(ParseBoxes(next).value, base).value == ReadTrafs(ParseBoxes(next).value, base).value;
    } else {
      var content := Tfhd(tid) + Tfdt(ss[0].dts) + Trun(ss, end, offset);
      BoxReadsBack(TRAF, content, next);
      TrafReadsBack(tid, ss, end, offset, base, tail);
      var cs := [Child(TRAF, content)] + ParseBoxes(next).value;
      assert cs[1..] == ParseBoxes(next).value;
    }
  }

  /** Demuxing a part gives, track by track, the frames computed from its samples. */
  lemma PartReadsBack(f: Fragment)
    requires f.Ok()
    ensures Demux(f.Bytes()) == Some(Contents(f.sequence % TWO32,
                TrackOf(f.vid, f.Video(), f.end) + TrackOf(f.aid, f.Audio(), f.end)))
  {
    hide ParseBoxes, ReadTrafs, ReadMoof, MaybeTraf, Mfhd, Payload, TrackOf, Box, SampleOk, IsStyp;
    var v, a, n := f.Video(), f.Audio(), f.MoofSize();
    var vBytes, aBytes := Payload(v), Payload(a);
    var vOff, aOff := n + 8, n + 8 + |vBytes|;
    var inner := Mfhd(f.sequence) + MaybeTraf(f.vid, v, f.end, vOff) + MaybeTraf(f.aid, a, f.end, aOff);
    assert f.Moof() == Box(MOOF, inner) && |f.Moof()| == n;
    var stypContent, mdatContent := MSDH + BE4(0) + MSDH + MSIX, vBytes + aBytes;
    ThreeBoxes(STYP, stypContent, MOOF, inner, MDAT, mdatContent);
    StypIsStyp();
    var part := f.Bytes();
    var base := part[24..];
    assert base == f.Moof() + f.Mdat();
    assert base[vOff..] == vBytes + aBytes && base[aOff..] == aBytes + [] by { MdatLands(f.Moof(), vBytes, aBytes); }
    OfTrackMembers(f.samples, true);
    OfTrackMembers(f.samples, false);
    PayloadBounds(v);
    PayloadBounds(a);
    MoofReadsBack(f, vOff, aOff, base);
  }

  /** The content of the moof, once both data offsets land where they should. */
  lemma MoofReadsBack(f: Fragment, vOff: nat, aOff: nat, base: bytes)
    requires f.vid < TWO32 && f.aid < TWO32 && |f.Video()| < 0x800_0000 && |f.Audio()| < 0x800_0000
    requires forall i :: 0 <= i < |f.Video()| ==> SampleOk(f.Video()[i]) && |f.Video()[i].data| < TWO32
    requires forall i :: 0 <= i < |f.Audio()| ==> SampleOk(f.Audio()[i]) && |f.Audio()[i].data| < TWO32
    requires vOff <= aOff < TWO31 && aOff <= |base|
    requires base[vOff..] == Payload(f.Video()) + Payload(f.Audio()) && base[aOff..] == Payload(f.Audio()) + []
    ensures var inner := Mfhd(f.sequence) + MaybeTraf(f.vid, f.Video(), f.end, vOff)
                         + MaybeTraf(f.aid, f.Audio(), f.end, aOff);
            && ParseBoxes(inner).Some?
            && ReadMoof(ParseBoxes(inner).value, base)
               == Some(Contents(f.sequence % TWO32,
                                TrackOf(f.vid, f.Video(), f.end) + TrackOf(f.aid, f.Audio(), f.end)))
  {
    hide ParseBoxes, ReadTrafs, ReadMoof, MaybeTraf, Mfhd, Payload, TrackOf, SampleOk, OfTrack;
    var v, a := f.Video(), f.Audio();
    var traf1, traf2 := MaybeTraf(f.vid, v, f.end, vOff), MaybeTraf(f.aid, a, f.end, aOff);
    NoBoxes(base);
    MaybeTrafReadsBack(f.aid, a, f.end, aOff, base, [], []);
    assert traf2 + [] == traf2 && TrackOf(f.aid, a, f.end) + [] == TrackOf(f.aid, a, f.end);
    MaybeTrafReadsBack(f.vid, v, f.end, vOff, base, Payload(a), traf2);
    MfhdReadsBack(f.sequence, traf1 + traf2, base);
    assert Mfhd(f.sequence) + traf1 + traf2 == Mfhd(f.sequence) + (traf1 + traf2);
  }

  lemma MdatLands(moof: bytes, v: bytes, a: bytes)
    ensures var base, n := moof + Box(MDAT, v + a), |moof| + 8;
            base[n..] == v + a && base[n + |v|..] == a + []
  {
    var base, n := moof + Box(MDAT, v + a), |moof| + 8;
    assert base[n..] == v + a;
    assert base[n + |v|..] == (v + a)[|v|..];
  }

  lemma NoBoxes(base: bytes)
    ensures ParseBoxes([]) == Some([]) && ReadTrafs([], base) == Some([])
  {
  }

  lemma MfhdReadsBack(sequence: nat, rest: bytes, base: bytes)
    requires ParseBoxes(rest).Some? && ReadTrafs(ParseBoxes(rest).value, base).Some?
    ensures var b := ParseBoxes(Mfhd(sequence) + rest);
            && b.Some?
            && ReadMoof(b.value, base)
               == Some(Contents(sequence % TWO32, ReadTrafs(ParseBoxes(rest).value, base).value))
  {
    hide ParseBoxes, ReadTrafs, Box, BE4, U32;
    var content := [0] + BE3(0) + BE4(sequence);
    BoxReadsBack(MFHD, content, rest);
    var cs := [Child(MFHD, content)] + ParseBoxes(rest).value;
    assert cs[1..] == ParseBoxes(rest).value;
    assert content[..4] == [0, 0, 0, 0] && content[4..] == BE4(sequence) + [];
    U32OfBE4(sequence, []);
  }

  lemma StypIsStyp()
    ensures IsStyp(Child(STYP, MSDH + BE4(0) + MSDH + MSIX))
  {
    hide BE4;
    var c := MSDH + BE4(0) + MSDH + MSIX;
    assert c[..4] == MSDH && c[8..12] == MSDH && c[12..] == MSIX;
  }

  /** What a reader should find in a fragment. */
  function Expected(f: Fragment): Contents {
    Contents(f.sequence % TWO32,
             (if OfTrack(f.samples, true) == [] then []
              else [Track(f.vid, FramesOf(OfTrack(f.samples, true), f.end))])
             + if OfTrack(f.samples, false) == [] then []
               else [Track(f.aid, FramesOf(OfTrack(f.samples, false), f.end))])
  }

  predicate TrackFits(ss: seq<Sample>, end: nat) { Ordered(ss) && OffsetsFit(ss) && EndFits(ss, end) }

  lemma TrackExactly(ss: seq<Sample>, end: nat)
    requires ss != [] && forall i :: 0 <= i < |ss| ==> SampleOk(ss[i])
    ensures Recovered(ss, ss[0].dts, AnyEarly(ss), end, 0) == FramesOf(ss, end) <==> TrackFits(ss, end)
  {
    hide Recovered, FramesOf, Ordered, EndFits;
    RecoveredExactly(ss, AnyEarly(ss), end);
    if AnyEarly(ss) {
      var i :| 0 <= i < |ss| && ss[i].pts < ss[i].dts;
      assert OffsetsFit(ss) <==> forall i :: 0 <= i < |ss| ==> OffsetFits(ss[i], true);
    } else {
      assert forall i :: 0 <= i < |ss| ==> OffsetFits(ss[i], false);
    }
  }

  /** Round trip: the demuxer finds the fragment's number and, per track and in order, every sample's
      bytes, decode time, duration, composition offset and flags, if and only if in each track the
      decode times never go back, the end fits the last duration and the composition offsets fit. */
  lemma FragmentRoundTrip(f: Fragment)
    requires f.Ok()
    ensures Demux(f.Bytes()) == Some(Expected(f))
            <==> TrackFits(OfTrack(f.samples, true), f.end) && TrackFits(OfTrack(f.samples, false), f.end)
  {
    hide Recovered, FramesOf, Ordered, Demux, SampleOk, OfTrack, OffsetsFit, EndFits;
    PartReadsBack(f);
    var v, a := f.Video(), f.Audio();
    OfTrackMembers(f.samples, true);
    OfTrackMembers(f.samples, false);
    if v != [] { TrackExactly(v, f.end); } else { EmptyFits(f.end); }
    if a != [] { TrackExactly(a, f.end); } else { EmptyFits(f.end); }
    var got, want := TrackOf(f.vid, v, f.end) + TrackOf(f.aid, a, f.end), Expected(f).tracks;
    assert |got| == |want|;
    if v != [] {
      assert got[0] == TrackOf(f.vid, v, f.end)[0] && want[0] == Track(f.vid, FramesOf(v, f.end));
    }
    if a != [] {
      assert got[|got| - 1] == TrackOf(f.aid, a, f.end)[0] && want[|got| - 1] == Track(f.aid, FramesOf(a, f.end));
    }
  }

  lemma EmptyFits(end: nat)
    ensures TrackFits([], end)
  {
  }
}
