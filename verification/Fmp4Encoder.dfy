/**
 The fragment encoder: samples are collected with one data buffer per track, and flush assembles
 the moof in a fixed buffer, filling in box sizes and data offsets after the fact.
 */
module Fmp4Encoder {
  import opened Bytes
  import opened Buffer
  import opened Fmp4

  method BoxOpen(b: Cursor, kind: bytes) returns (start: nat)
    requires b.Valid() && |kind| == 4 && b.Require(8)
    modifies b`pos, b.data
    ensures b.Valid() && start == old(b.pos) && b.pos == start + 8
    ensures b.Done() == old(b.Done()) + (BE4(0) + kind)
  {
    start := b.pos;
    b.Write(BE4(0));
    b.Write(kind);
    assert old(b.Done()) + BE4(0) + kind == old(b.Done()) + (BE4(0) + kind);
  }

  method FullBoxOpen(b: Cursor, kind: bytes, version: byte, flags: nat) returns (start: nat)
    requires b.Valid() && |kind| == 4 && b.Require(12)
    modifies b`pos, b.data
    ensures b.Valid() && start == old(b.pos) && b.pos == start + 12
    ensures b.Done() == old(b.Done()) + (BE4(0) + kind + ([version] + BE3(flags)))
  {
    ghost var before := b.Done();
    start := BoxOpen(b, kind);
    b.Write([version]);
    b.Write(BE3(flags));
    assert before + (BE4(0) + kind) + [version] + BE3(flags) == before + (BE4(0) + kind + ([version] + BE3(flags)));
  }

  /** The size counts from the start of the box to the current position. */
  method BoxClose(b: Cursor, start: nat, ghost before: bytes, ghost kind: bytes, ghost content: bytes)
    requires b.Valid() && |before| == start && |kind| == 4
    requires b.Done() == before + (BE4(0) + kind + content)
    modifies b.data
    ensures b.Done() == before + Box(kind, content)
  {
    ghost var was := b.Done();
    b.Patch4(start, b.pos - start);
    assert was[..start] == before && was[start + 4..] == kind + content;
    assert before + BE4(8 + |content|) + (kind + content) == before + (BE4(8 + |content|) + kind + content);
  }

  /** The samples of one track, in order of arrival. */
  method SelectTrack(samples: seq<Sample>, video: bool) returns (r: seq<Sample>)
    ensures r == OfTrack(samples, video)
  {
    r := [];
    var i := 0;
    assert samples[..0] == [];
    while i < |samples|
      invariant i <= |samples| && r == OfTrack(samples[..i], video)
    {
      hide OfTrack;
      OfTrackAppend(samples[..i], samples[i], video);
      assert samples[..i + 1] == samples[..i] + [samples[i]];
      if samples[i].video == video { r := r + [samples[i]]; } else { assert r + [] == r; }
      i := i + 1;
    }
    assert samples[..i] == samples;
  }

  method RunVersion(ss: seq<Sample>) returns (v: byte)
    ensures v == Version(ss)
  {
    var i := 0;
    while i < |ss|
      invariant i <= |ss| && forall j :: 0 <= j < i ==> ss[j].pts >= ss[j].dts
    {
      if ss[i].pts < ss[i].dts { return 1; }
      i := i + 1;
    }
    return 0;
  }

  method WriteEntry(b: Cursor, s: Sample, duration: int, flags: int)
    requires b.Valid() && b.Require(16) && flags == Flags(s)
    modifies b`pos, b.data
    ensures b.Valid() && b.pos == old(b.pos) + 16
    ensures b.Done() == old(b.Done()) + Entry(s, duration)
  {
    hide BE4;
    b.Write(BE4(duration));
    b.Write(BE4(|s.data|));
    b.Write(BE4(flags));
    b.Write(BE4(s.pts - s.dts));
    assert b.Done() == old(b.Done()) + Entry(s, duration);
  }

  method WriteEntries(b: Cursor, ss: seq<Sample>, end: nat)
    requires b.Valid() && b.Require(16 * |ss|)
    modifies b`pos, b.data
    ensures b.Valid() && b.pos == old(b.pos) + 16 * |ss|
    ensures b.Done() == old(b.Done()) + Entries(ss, end, 0)
  {
    hide Entry;
    var previous, i := 0, 0;
    assert ss[0..] == ss;
    while i < |ss|
      invariant i <= |ss| && b.Valid() && b.pos == old(b.pos) + 16 * i
      invariant b.Done() + Entries(ss[i..], end, previous) == old(b.Done()) + Entries(ss, end, 0)
    {
      var s := ss[i];
      var duration := if i + 1 < |ss| then ss[i + 1].dts - s.dts else if end > s.dts then end - s.dts else previous;
      var flags := if s.video then (if s.frameType == KEYFRAME then SYNC_FLAGS else INTER_FLAGS) else SYNC_FLAGS;
      assert duration == Duration(ss[i..], end, previous) && flags == Flags(s) && ss[i..][1..] == ss[i + 1..];
      ghost var before, rest := b.Done(), Entries(ss[i + 1..], end, duration);
      WriteEntry(b, s, duration, flags);
      assert before + Entry(s, duration) + rest == before + (Entry(s, duration) + rest);
      previous := duration;
      i := i + 1;
    }
    assert b.Done() + [] == b.Done();
  }

  method WriteTrun(b: Cursor, ss: seq<Sample>, end: nat) returns (offsetPos: nat)
    requires b.Valid() && b.Require(20 + 16 * |ss|)
    modifies b`pos, b.data
    ensures b.Valid() && offsetPos == old(b.pos) + 16 && b.pos == old(b.pos) + 20 + 16 * |ss|
    ensures b.Done() == old(b.Done()) + Trun(ss, end, 0)
  {
    hide Entries, BE4, BE3, AnyEarly;
    ghost var before := b.Done();
    var version := RunVersion(ss);
    var trun := FullBoxOpen(b, TRUN, version, 0x0f01);
    b.Write(BE4(|ss|));
    offsetPos := b.pos;
    b.Write(BE4(0));
    WriteEntries(b, ss, end);
    ghost var content := [version] + BE3(0x0f01) + (BE4(|ss|) + BE4(0) + Entries(ss, end, 0));
    assert b.Done() == before + (BE4(0) + TRUN + content);
    BoxClose(b, trun, before, TRUN, content);
  }

  method WriteSmall(b: Cursor, kind: bytes, version: byte, flags: nat, field: bytes)
    requires b.Valid() && |kind| == 4 && b.Require(12 + |field|)
    modifies b`pos, b.data
    ensures b.Valid() && b.pos == old(b.pos) + 12 + |field|
    ensures b.Done() == old(b.Done()) + FullBox(kind, version, flags, field)
  {
    hide BE4, BE3;
    ghost var before := b.Done();
    var start := FullBoxOpen(b, kind, version, flags);
    b.Write(field);
    ghost var content := [version] + BE3(flags) + field;
    assert b.Done() == before + (BE4(0) + kind + content);
    BoxClose(b, start, before, kind, content);
  }

  /** tfhd, tfdt and trun of one track; the data offset is left open. */
  method WriteTraf(b: Cursor, tid: nat, ss: seq<Sample>, end: nat) returns (offsetPos: nat)
    requires b.Valid() && ss != [] && b.Require(64 + 16 * |ss|)
    modifies b`pos, b.data
    ensures b.Valid() && offsetPos == old(b.pos) + 60 && b.pos == old(b.pos) + 64 + 16 * |ss|
    ensures b.Done() == old(b.Done()) + Traf(tid, ss, end, 0)
  {
    hide Trun, Tfhd, Tfdt, BE4, BE8;
    ghost var before := b.Done();
    var traf := BoxOpen(b, TRAF);
    WriteSmall(b, TFHD, 0, 0x02_0000, BE4(tid));
    WriteSmall(b, TFDT, 1, 0, BE8(ss[0].dts));
    TrafParts(tid, ss[0].dts);
    ghost var d := b.Done();
    offsetPos := WriteTrun(b, ss, end);
    ghost var content := Tfhd(tid) + Tfdt(ss[0].dts) + Trun(ss, end, 0);
    assert b.Done() == before + (BE4(0) + TRAF + content);
    BoxClose(b, traf, before, TRAF, content);
  }

  lemma TrafParts(tid: nat, dts: nat)
    ensures Tfhd(tid) == FullBox(TFHD, 0, 0x02_0000, BE4(tid)) && Tfdt(dts) == FullBox(TFDT, 1, 0, BE8(dts))
  {
  }

  /** The data offset sits 60 bytes into its traf. */
  lemma OffsetPatch(tid: nat, ss: seq<Sample>, end: nat, from: int, to: int)
    requires ss != []
    ensures var t := Traf(tid, ss, end, from);
            t[..60] + BE4(to) + t[64..] == Traf(tid, ss, end, to)
  {
    hide BE4, BE3, BE8, Entries, AnyEarly, Tfhd, Tfdt;
    var size, n := 64 + 16 * |ss|, 20 + 16 * |ss|;
    var head := BE4(size) + TRAF + Tfhd(tid) + Tfdt(ss[0].dts) + BE4(n) + TRUN + [Version(ss)] + BE3(0x0f01)
        + BE4(|ss|);
    TrafFlat(tid, ss, end, from);
    TrafFlat(tid, ss, end, to);
    assert |head| == 60;
    var t := head + BE4(from) + Entries(ss, end, 0);
    assert t[..60] == head && t[64..] == Entries(ss, end, 0);
  }

  lemma TrafFlat(tid: nat, ss: seq<Sample>, end: nat, offset: int)
    requires ss != []
    ensures Traf(tid, ss, end, offset)
            == (BE4(64 + 16 * |ss|) + TRAF + Tfhd(tid) + Tfdt(ss[0].dts) + BE4(20 + 16 * |ss|) + TRUN + [Version(ss)]
                + BE3(0x0f01) + BE4(|ss|))
               + BE4(offset) + Entries(ss, end, 0)
  {
    hide BE4, BE3, BE8, Entries, AnyEarly, Tfhd, Tfdt;
  }

  /** Patching inside the moof, whatever surrounds the traf. */
  lemma PatchInside(pre: bytes, tid: nat, ss: seq<Sample>, end: nat, to: int, post: bytes)
    requires ss != []
    ensures var b, at := pre + Traf(tid, ss, end, 0) + post, |pre| + 60;
            b[..at] + BE4(to) + b[at + 4..] == pre + Traf(tid, ss, end, to) + post
  {
    hide Traf;
    var t := Traf(tid, ss, end, 0);
    var b, at := pre + t + post, |pre| + 60;
    OffsetPatch(tid, ss, end, 0, to);
    assert b[..at] == pre + t[..60] && b[at + 4..] == t[64..] + post;
  }

  method WriteStyp() returns (r: bytes)
    ensures r == Styp()
  {
    hide BE4;
    var room := new byte[24];
    var b := new Cursor(room);
    var styp := BoxOpen(b, STYP);
    ghost var content := MSDH + BE4(0) + MSDH + MSIX;
    b.Write(MSDH);
    b.Write(BE4(0));
    b.Write(MSDH + MSIX);
    assert b.Done() == [] + (BE4(0) + STYP + content);
    BoxClose(b, styp, [], STYP, content);
    return b.data[..b.pos];
  }

  class SegmentEncoder {
    var written: bytes
    var sequenceNumber: nat
    var trackId: nat
    var audioTid: nat
    var nbVideos: nat
    var nbAudios: nat
    var mdatBytes: nat
    var videoData: bytes
    var audioData: bytes
    var samples: seq<Sample>

    ghost predicate Valid()
      reads this
    {
      && nbVideos == |OfTrack(samples, true)| && nbAudios == |OfTrack(samples, false)|
      && videoData == Payload(OfTrack(samples, true)) && audioData == Payload(OfTrack(samples, false))
      && mdatBytes == |videoData| + |audioData|
    }

    /** Audio goes under the id fixed by the stream layout, or is inferred from the part. */
    function AudioId(): nat
      reads this
    {
      if audioTid != 0 then audioTid else if nbVideos > 0 then trackId + 1 else trackId
    }

    constructor (sequence: nat, tid: nat)
      ensures Valid() && samples == [] && written == Styp()
      ensures sequenceNumber == sequence && trackId == tid && audioTid == 0
    {
      sequenceNumber, trackId, audioTid := sequence, tid, 0;
      nbVideos, nbAudios, mdatBytes, videoData, audioData, samples := 0, 0, 0, [], [], [];
      written := [];
      new;
      written := WriteStyp();
    }

    method SetAudioTid(tid: nat)
      requires Valid()
      modifies this`audioTid
      ensures Valid() && audioTid == tid
    {
      audioTid := tid;
    }

    /** The bytes join their track's buffer at once. */
    method WriteSample(s: Sample)
      requires Valid()
      modifies this
      ensures Valid() && samples == old(samples) + [s]
      ensures written == old(written) && sequenceNumber == old(sequenceNumber) && trackId == old(trackId)
              && audioTid == old(audioTid)
    {
      hide OfTrack, Payload;
      OfTrackAppend(samples, s, true);
      OfTrackAppend(samples, s, false);
      PayloadAppend(OfTrack(samples, s.video), s);
      assert OfTrack(samples, !s.video) + [] == OfTrack(samples, !s.video);
      if s.video {
        nbVideos := nbVideos + 1;
        videoData := videoData + s.data;
      } else {
        nbAudios := nbAudios + 1;
        audioData := audioData + s.data;
      }
      samples := samples + [s];
      mdatBytes := mdatBytes + |s.data|;
    }

    ghost function Whole(end: nat): Fragment
      reads this
    {
      Fragment(sequenceNumber, trackId, AudioId(), end, samples)
    }

    /** Writes moof and mdat in one go; refused when there is no sample. The moof always fits its
        buffer of 256 bytes plus 16 per sample. */
    method Flush(end: nat) returns (ok: bool)
      requires Valid()
      modifies this`written
      ensures ok <==> samples != []
      ensures ok ==> written == old(written) + (Whole(end).Moof() + Whole(end).Mdat())
      ensures !ok ==> written == old(written)
    {
      hide BE4, Payload, Fragment.MoofWith;
      Counts(samples);
      if nbAudios == 0 && nbVideos == 0 { return false; }
      var f := Fragment(sequenceNumber, trackId, AudioId(), end, samples);
      var room := new byte[256 + 16 * |samples|];
      var b := new Cursor(room);
      var vs := SelectTrack(samples, true);
      var as_ := SelectTrack(samples, false);
      var vPos, aPos := WriteMoof(b, f, vs, as_);
      var vOff, aOff := b.pos + 8, b.pos + 8 + |videoData|;
      PatchOffsets(b, f, vs, as_, vPos, aPos, vOff, aOff);
      var mdat := BE4(8 + mdatBytes) + MDAT;
      assert mdat + (videoData + audioData) == f.Mdat();
      assert b.data[..b.pos] == f.Moof();
      written := written + (b.data[..b.pos] + (mdat + (videoData + audioData)));
      return true;
    }
  }

  /** The moof with its data offsets still open, and where they are. */
  method WriteMoof(b: Cursor, f: Fragment, vs: seq<Sample>, as_: seq<Sample>) returns (vPos: int, aPos: int)
    requires b.Valid() && b.pos == 0 && b.data.Length == 256 + 16 * |f.samples|
    requires vs == f.Video() && as_ == f.Audio()
    modifies b`pos, b.data
    ensures b.Valid() && b.Done() == f.MoofWith(0, 0)
    ensures vPos == if vs == [] then -1 else 84
    ensures aPos == if as_ == [] then -1 else 84 + |MaybeTraf(f.vid, vs, f.end, 0)|
  {
    hide MaybeTraf, Mfhd, BE4, OfTrack, Box;
    Counts(f.samples);
    var moof := BoxOpen(b, MOOF);
    WriteSmall(b, MFHD, 0, 0, BE4(f.sequence));
    MfhdIs(f.sequence);
    ghost var v, a := MaybeTraf(f.vid, vs, f.end, 0), MaybeTraf(f.aid, as_, f.end, 0);
    vPos := WriteMaybeTraf(b, f.vid, vs, f.end);
    aPos := WriteMaybeTraf(b, f.aid, as_, f.end);
    OpenMoof(BE4(0) + MOOF, Mfhd(f.sequence), v, a);
    BoxClose(b, moof, [], MOOF, Mfhd(f.sequence) + v + a);
    assert [] + f.MoofWith(0, 0) == f.MoofWith(0, 0);
  }

  lemma OpenMoof(head: bytes, mfhd: bytes, v: bytes, a: bytes)
    ensures head + mfhd + v + a == [] + (head + (mfhd + v + a))
  {
    Assoc(head, mfhd, v);
    Assoc(head, mfhd + v, a);
  }

  method WriteMaybeTraf(b: Cursor, tid: nat, ss: seq<Sample>, end: nat) returns (pos: int)
    requires b.Valid() && b.Require(64 + 16 * |ss|)
    modifies b`pos, b.data
    ensures b.Valid() && b.pos == old(b.pos) + |MaybeTraf(tid, ss, end, 0)|
    ensures pos == if ss == [] then -1 else old(b.pos) + 60
    ensures b.Done() == old(b.Done()) + MaybeTraf(tid, ss, end, 0)
  {
    if ss == [] {
      assert b.Done() + [] == b.Done();
      return -1;
    }
    pos := WriteTraf(b, tid, ss, end);
  }

  method PatchOffsets(b: Cursor, ghost f: Fragment, vs: seq<Sample>, as_: seq<Sample>, vPos: int, aPos: int, vOff: int,
      aOff: int)
    requires b.Valid() && vs == f.Video() && as_ == f.Audio()
    requires b.Done() == f.MoofWith(0, 0)
    requires vPos == if vs == [] then -1 else 84
    requires aPos == if as_ == [] then -1 else 84 + |MaybeTraf(f.vid, vs, f.end, 0)|
    modifies b.data
    ensures b.Done() == f.MoofWith(vOff, aOff)
  {
    hide MaybeTraf, Mfhd, BE4, Fragment.MoofWith;
    ghost var head := BE4(|b.Done()|) + MOOF + Mfhd(f.sequence);
    ghost var v1 := MaybeTraf(f.vid, vs, f.end, vOff);
    ghost var a0, a1 := MaybeTraf(f.aid, as_, f.end, 0), MaybeTraf(f.aid, as_, f.end, aOff);
    MoofFlat(f, 0, 0);
    MoofFlat(f, vOff, aOff);
    PatchTraf(b, head, f.vid, vs, f.end, vPos, vOff, a0);
    assert head + v1 + a0 == (head + v1) + a0 + [];
    PatchTraf(b, head + v1, f.aid, as_, f.end, aPos, aOff, []);
    assert (head + v1) + a1 + [] == head + v1 + a1;
  }

  method PatchTraf(b: Cursor, ghost pre: bytes, ghost tid: nat, ghost ss: seq<Sample>, ghost end: nat, at: int,
      to: int, ghost post: bytes)
    requires b.Valid() && b.Done() == pre + MaybeTraf(tid, ss, end, 0) + post
    requires at == if ss == [] then -1 else |pre| + 60
    modifies b.data
    ensures b.Done() == pre + MaybeTraf(tid, ss, end, to) + post
  {
    hide MaybeTraf, BE4;
    if at >= 0 {
      PatchMaybe(pre, tid, ss, end, to, post);
      b.Patch4(at, to);
    } else {
      NoTraf(tid, end, 0, to);
    }
  }

  lemma MoofFlat(f: Fragment, vOff: int, aOff: int)
    ensures f.MoofWith(vOff, aOff)
            == (BE4(f.MoofSize()) + MOOF + Mfhd(f.sequence)) + MaybeTraf(f.vid, f.Video(), f.end, vOff)
                + MaybeTraf(f.aid, f.Audio(), f.end, aOff)
  {
    hide MaybeTraf, Mfhd, BE4;
  }

  lemma NoTraf(tid: nat, end: nat, a: int, b: int)
    ensures MaybeTraf(tid, [], end, a) == MaybeTraf(tid, [], end, b)
  {
  }

  lemma PatchMaybe(pre: bytes, tid: nat, ss: seq<Sample>, end: nat, to: int, post: bytes)
    requires ss != []
    ensures var b, at := pre + MaybeTraf(tid, ss, end, 0) + post, |pre| + 60;
            at + 4 <= |b| && b[..at] + BE4(to) + b[at + 4..] == pre + MaybeTraf(tid, ss, end, to) + post
  {
    PatchInside(pre, tid, ss, end, to, post);
  }

  lemma MfhdIs(sequence: nat)
    ensures Mfhd(sequence) == FullBox(MFHD, 0, 0, BE4(sequence))
  {
  }

  lemma {:induction false} Counts(ss: seq<Sample>)
    ensures |OfTrack(ss, true)| + |OfTrack(ss, false)| == |ss|
  {
    if ss != [] { Counts(ss[1..]); }
  }

  lemma {:induction false} PayloadAppend(ss: seq<Sample>, s: Sample)
    ensures Payload(ss + [s]) == Payload(ss) + s.data
  {
    if ss == [] {
      assert ss + [s] == [s] && [s][1..] == [];
    } else {
      assert (ss + [s])[1..] == ss[1..] + [s];
      PayloadAppend(ss[1..], s);
      Assoc(ss[0].data, Payload(ss[1..]), s.data);
    }
  }
}
