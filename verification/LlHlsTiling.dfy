/**
 What every orderly run of muxer and storage keeps, damaged headers and all: parts tile their segment,
 the muxer's running duration is the storage's, and a segment has one initialisation segment.
 */
module LlHlsTiling {
  import opened Bytes
  import opened Fmp4
  import opened LlHlsMux
  import L = LlHls

  type PartOf = L.Part<Piece>
  type Seg = L.Segment<Piece>
  type St = L.Store<Piece>

  function First(p: PartOf): nat
    requires p.payload.fragment.samples != []
  {
    p.payload.fragment.samples[0].dts
  }

  /** Every sample belongs to a track of the initialisation segment. */
  predicate TracksFit(samples: seq<Sample>, init: Option<InitSegment>) {
    && init.Some?
    && forall i :: 0 <= i < |samples| ==> if samples[i].video then init.value.avc.Some? else init.value.aac.Some?
  }

  function AudioIdOf(init: Option<InitSegment>): nat { if init.Some? then init.value.AudioId() else 1 }

  /** A part lasts from its first sample to its end and uses the track ids of its init. */
  predicate PartFit(p: PartOf) {
    var f := p.payload.fragment;
    && f.samples != [] && p.duration == (f.end - First(p)) * 1000
    && f.vid == VIDEO_ID && f.aid == AudioIdOf(p.payload.init)
  }

  /** Parts share their boundaries and their initialisation segment. */
  predicate Joined(a: PartOf, b: PartOf)
    requires PartFit(a) && PartFit(b)
  {
    a.payload.fragment.end == First(b) && a.payload.init == b.payload.init
  }

  predicate SegFit(seg: Seg) {
    && (forall j :: 0 <= j < |seg.parts| ==> PartFit(seg.parts[j]))
    && (forall j :: 0 < j < |seg.parts| ==> Joined(seg.parts[j - 1], seg.parts[j]))
  }

  predicate AllFit(st: St) { forall i :: 0 <= i < |st.segments| ==> SegFit(st.segments[i]) }

  function OpenDuration(st: St): int { if L.HasOpen(st) then L.Last(st.segments).duration else 0 }

  function LastPiece(st: St): Piece
    requires L.HasOpen(st) && L.Last(st.segments).parts != []
  {
    L.Last(L.Last(st.segments).parts).payload
  }

  /** The muxer knows whether its initialisation segment has video. */
  predicate Tuned(m: Mux) { m.videoConfigured == (m.init.Some? && m.init.value.avc.Some?) }

  /** The next part may start at `dts` under the muxer's init. */
  ghost predicate Ready(m: Mux, st: St, dts: nat) {
    && L.Ok(st) && AllFit(st) && m.part.None? && Tuned(m)
    && m.segmentDuration == OpenDuration(st)
    && (L.HasOpen(st) ==> !m.initDirty && L.Last(st.segments).parts != []
                          && LastPiece(st).fragment.end == dts && LastPiece(st).init == m.init)
  }

  predicate PartOk(p: OpenPart) {
    && p.samples != [] && p.start == p.samples[0].dts && p.last == L.Last(p.samples).dts
    && p.aid == AudioIdOf(p.init)
  }

  /** Muxer and storage between two events. */
  ghost predicate Linked(m: Mux, st: St) {
    && Shape(m) && L.Ok(st) && AllFit(st) && Tuned(m)
    && m.segmentDuration == OpenDuration(st)
    && (m.part.None? ==> !L.HasOpen(st))
    && (m.part.Some? ==>
          && PartOk(m.part.value) && m.part.value.init == m.init && !m.initDirty
          && Ready(m.(part := None), st, m.part.value.start))
  }

  /** Frame times fit the 32-bit sample fields. */
  predicate InRange(e: Event) { e.Audio? || e.Video? ==> e.dts < TWO32 }

  predicate AllInRange(es: seq<Event>) { forall i :: 0 <= i < |es| ==> InRange(es[i]) }

  // ----- storage steps

  lemma RunOne(st: St, s: L.Step<Piece>)
    ensures L.Run(st, [s]) == L.Apply(st, s)
  {
    hide L.Apply;
    assert [s][1..] == [];
  }

  lemma {:induction false} RunConcat(st: St, a: Steps, b: Steps)
    ensures L.Run(st, a + b) == L.Run(L.Run(st, a), b)
    decreases |a|
  {
    hide L.Apply;
    if a == [] {
      assert a + b == b;
    } else {
      assert (a + b)[1..] == a[1..] + b;
      RunConcat(L.Apply(st, a[0]), a[1..], b);
    }
  }

  lemma PartJoins(seg: Seg, p: PartOf)
    requires SegFit(seg) && PartFit(p)
    requires seg.parts != [] ==> Joined(L.Last(seg.parts), p)
    ensures forall s: Seg :: s.parts == seg.parts + [p] ==> SegFit(s)
  {
    hide PartFit, Joined;
  }

  /** The storage can take the part: it continues the open segment, or there is none. */
  predicate Continues(st: St, s: L.Step<Piece>)
    requires s.Append?
  {
    && PartFit(L.Part(0, s.duration, s.independent, s.payload))
    && (L.HasOpen(st) ==> L.Last(st.segments).parts != []
                          && LastPiece(st).fragment.end == s.payload.fragment.samples[0].dts
                             && LastPiece(st).init == s.payload.init)
  }

  /** The segment that takes the part. */
  function Target(st: St): Seg {
    if L.HasOpen(st) then L.Last(st.segments) else L.Segment(st.nextMsn, 0, false, [])
  }

  lemma TargetFits(st: St, s: L.Step<Piece>)
    requires AllFit(st) && s.Append? && Continues(st, s)
    ensures SegFit(L.WithPart(Target(st), s))
  {
    hide SegFit, Joined;
    var seg := Target(st);
    var p := L.Part(|seg.parts|, s.duration, s.independent, s.payload);
    if L.HasOpen(st) {
      LastFits(seg);
      assert Joined(L.Last(seg.parts), p) by { JoinedIs(L.Last(seg.parts), p); }
    } else {
      NoPartsFit(seg);
    }
    PartJoins(seg, p);
  }

  lemma JoinedIs(a: PartOf, b: PartOf)
    requires PartFit(a) && PartFit(b)
    requires a.payload.fragment.end == b.payload.fragment.samples[0].dts && a.payload.init == b.payload.init
    ensures Joined(a, b)
  {
  }

  lemma GrownFits(st: St, s: L.Step<Piece>)
    requires AllFit(st) && s.Append? && Continues(st, s)
    ensures var g := L.Grown(st, s);
            g != [] && L.Last(g) == L.WithPart(Target(st), s) && forall i :: 0 <= i < |g| ==> SegFit(g[i])
  {
    hide SegFit, Continues, L.WithPart;
    TargetFits(st, s);
  }

  /** Appending a part that joins on keeps every segment fit. */
  lemma AppendKeepsFit(st: St, s: L.Step<Piece>)
    requires L.Ok(st) && AllFit(st) && s.Append? && Continues(st, s)
    ensures var st' := L.Apply(st, s);
            && L.Ok(st') && AllFit(st')
            && L.HasOpen(st') == !s.close
            && (!s.close ==> L.Last(st'.segments).duration == OpenDuration(st) + s.duration
                             && L.Last(st'.segments).parts != [] && LastPiece(st') == s.payload)
  {
    hide L.Ok, L.Apply, AllFit, L.WithPart, Continues, L.Grown, L.HasOpen, LastPiece, OpenDuration;
    var st' := L.Apply(st, s);
    L.StepKeepsOk(st, s);
    GrownFits(st, s);
    var k := AppendTail(st, s);
    TailFits(st', L.Grown(st, s), k);
    EndsWith(st, st', s, L.Grown(st, s), k);
  }

  /** What stays of the window after a part went in. */
  lemma AppendTail(st: St, s: L.Step<Piece>) returns (k: nat)
    requires s.Append?
    ensures var g := L.Grown(st, s); k <= |g| && L.Apply(st, s).segments == g[k..] && (!s.close ==> k == 0)
  {
    hide L.Generate, L.Shrink, L.Grown, L.HasOpen;
    var g := L.Grown(st, s);
    k := 0;
    if s.close { k := L.ShrinkIsTail(g, st.maxSegments); } else { assert g[0..] == g; }
  }

  lemma TailFits(st: St, g: seq<Seg>, k: nat)
    requires k <= |g| && st.segments == g[k..] && forall i :: 0 <= i < |g| ==> SegFit(g[i])
    ensures AllFit(st)
  {
    hide SegFit;
    assert forall i :: 0 <= i < |st.segments| ==> st.segments[i] == g[k + i];
  }

  /** What the end of the window looks like after the part went in. */
  lemma EndsWith(st: St, st': St, s: L.Step<Piece>, g: seq<Seg>, k: nat)
    requires s.Append? && k <= |g| && g != [] && st'.segments == g[k..] && (!s.close ==> k == 0)
    requires L.Last(g) == L.WithPart(Target(st), s)
    ensures L.HasOpen(st') == !s.close
    ensures !s.close ==> L.Last(st'.segments).duration == OpenDuration(st) + s.duration
                         && L.Last(st'.segments).parts != [] && LastPiece(st') == s.payload
  {
    if k < |g| { assert L.Last(st'.segments) == L.Last(g); }
  }

  lemma NoPartsFit(seg: Seg)
    requires seg.parts == []
    ensures SegFit(seg)
  {
  }

  lemma LastFits(seg: Seg)
    requires SegFit(seg) && seg.parts != []
    ensures PartFit(L.Last(seg.parts))
  {
  }

  // ----- muxer steps

  /** Closing the open part leaves everything ready for the next one. */
  lemma FlushIsReady(m: Mux, st: St, end: nat, close: bool)
    requires Linked(m, st) && m.part.Some?
    ensures var f := FlushPart(m, end, close);
            && Ready(f.mux, L.Run(st, f.steps), end)
            && (close ==> !L.HasOpen(L.Run(st, f.steps)) && f.mux.segmentDuration == 0)
  {
    hide L.Apply, L.Ok, AllFit;
    var f, p := FlushPart(m, end, close), m.part.value;
    var s := f.steps[0];
    RunOne(st, s);
    assert Continues(st, s);
    AppendKeepsFit(st, s);
  }

  lemma AddSampleOk(p: OpenPart, s: Sample)
    requires p.samples == [] ==> p.start == s.dts
    requires p.samples != [] ==> PartOk(p)
    requires p.aid == AudioIdOf(p.init)
    ensures PartOk(p.(samples := p.samples + [s], last := s.dts))
  {
  }

  /** Opening a part where the last one ended, with its first sample, links up again. */
  lemma OpenLinks(m: Mux, st: St, dts: nat, s: Sample)
    requires Ready(m, st, dts) && m.enabled && s.dts == dts && (m.format.avc.Some? || m.format.aac.Some?)
    ensures Linked(AddSample(Open(m, dts), dts, s), st)
  {
    hide L.Ok, AllFit, PartOk, L.HasOpen;
    var o := Open(m, dts);
    var m' := AddSample(o, dts, s);
    AddSampleOk(o.part.value, s);
    var p := o.part.value.(samples := o.part.value.samples + [s], last := s.dts);
    assert PartOk(m'.part.value) by { PartOkIgnoresFlags(p, m'.part.value); }
  }

  lemma PartOkIgnoresFlags(a: OpenPart, b: OpenPart)
    requires PartOk(a) && b == a.(hasVideo := b.hasVideo, independent := b.independent)
    ensures PartOk(b)
  {
  }

  lemma AddLinks(m: Mux, st: St, dts: nat, s: Sample)
    requires Linked(m, st) && m.part.Some? && s.dts == dts
    ensures Linked(AddSample(m, dts, s), st)
  {
    hide L.Ok, AllFit, PartOk, L.HasOpen;
    var p, m' := m.part.value, AddSample(m, dts, s);
    PartOkIs(p);
    AddSampleOk(p, s);
    PartOkIgnoresFlags(p.(samples := p.samples + [s], last := s.dts), m'.part.value);
    assert m'.part.value.start == p.start;
    assert m'.(part := None) == m.(part := None);
  }

  lemma PartOkIs(p: OpenPart)
    requires PartOk(p)
    ensures p.aid == AudioIdOf(p.init) && p.samples != []
  {
  }

  lemma RunNone(st: St)
    ensures L.Run(st, []) == st
  {
  }

  lemma FrameKeepsLinked(m: Mux, st: St, dts: nat, s: Sample, canEnd: bool)
    requires Linked(m, st) && m.enabled && s.dts == dts && (m.format.avc.Some? || m.format.aac.Some?)
    ensures var r := Write(m, dts, s, canEnd); Linked(r.mux, L.Run(st, r.steps)) && r.mux.enabled
  {
    hide Linked, Ready, FlushPart, Open, AddSample, PartFull, L.Run;
    RunNone(st);
    var c := MaybeCut(m, dts, canEnd);
    if m.part.None? {
      ReadyWhenClosed(m, st, dts);
      OpenLinks(m, st, dts, s);
      OpenKeepsEnabled(m, dts, s);
    } else if c == Effect(m, []) {
      AddLinks(m, st, dts, s);
      AddKeepsEnabled(m, dts, s);
    } else {
      var close := canEnd && m.segmentDuration + (dts - m.part.value.start) * 1000 >= m.segmentTarget;
      LinkedHasSamples(m, st);
      FlushIsReady(m, st, dts, close);
      FlushShape(m, dts, close);
      OpenLinks(c.mux, L.Run(st, c.steps), dts, s);
      OpenKeepsEnabled(c.mux, dts, s);
    }
  }

  lemma LinkedHasSamples(m: Mux, st: St)
    requires Linked(m, st) && m.part.Some?
    ensures m.part.value.samples != []
  {
  }

  lemma ReadyWhenClosed(m: Mux, st: St, dts: nat)
    requires Linked(m, st) && m.part.None?
    ensures Ready(m, st, dts) && !L.HasOpen(st)
  {
  }

  lemma OpenKeepsEnabled(m: Mux, dts: nat, s: Sample)
    ensures AddSample(Open(m, dts), dts, s).enabled == m.enabled
  {
  }

  lemma AddKeepsEnabled(m: Mux, dts: nat, s: Sample)
    requires m.part.Some?
    ensures AddSample(m, dts, s).enabled == m.enabled
  {
  }

  lemma FlushShape(m: Mux, end: nat, close: bool)
    requires m.part.Some? && m.part.value.samples != []
    ensures var f := FlushPart(m, end, close); f.mux == m.(part := None, segmentDuration := f.mux.segmentDuration)
    ensures close ==> FlushPart(m, end, close).mux.segmentDuration == 0
  {
  }

  // ----- events

  lemma CloseLinks(m: Mux, st: St, end: nat)
    requires Linked(m, st) && m.part.Some?
    ensures var f := FlushPart(m, end, true); Linked(f.mux, L.Run(st, f.steps))
  {
    hide L.Ok, AllFit, L.Run, L.HasOpen;
    FlushIsReady(m, st, end, true);
  }

  lemma QuietStep(m: Mux, st: St, s: L.Step<Piece>)
    requires Linked(m, st) && m.part.None? && !s.Append?
    ensures Linked(m, L.Apply(st, s))
  {
    hide L.Ok, L.Generate, SegFit;
    L.StepKeepsOk(st, s);
  }

  lemma UnpublishLinks(m: Mux, st: St)
    requires Linked(m, st) && m.enabled
    ensures var r := Handle(m, Unpublish); Linked(r.mux, L.Run(st, r.steps))
  {
    hide Linked, L.Run, L.Apply, FlushPart;
    var f := if m.part.Some? then FlushPart(m, m.part.value.last, true) else Effect(m, []);
    RunNone(st);
    if m.part.Some? {
      LinkedHasSamples(m, st);
      CloseLinks(m, st, m.part.value.last);
      FlushShape(m, m.part.value.last, true);
    }
    var st1 := L.Run(st, f.steps);
    QuietStep(f.mux, st1, L.Unpublish);
    RunConcat(st, f.steps, [L.Unpublish]);
    RunOne(st1, L.Unpublish);
    Disable(f.mux, L.Apply(st1, L.Unpublish));
  }

  lemma Disable(m: Mux, st: St)
    requires Linked(m, st) && m.part.None?
    ensures Linked(m.(enabled := false), st)
  {
    hide L.Ok, AllFit, L.HasOpen;
  }

  lemma PublishLinks(m: Mux, st: St, max: int, cfg: L.Config)
    requires Linked(m, st) && !m.enabled
    ensures var r := Handle(m, Publish(max, cfg)); Linked(r.mux, L.Run(st, r.steps))
  {
    hide L.Ok, AllFit, L.HasOpen, L.Run, L.Apply;
    var st1 := L.Apply(st, L.UpdateConfig(max, cfg));
    QuietStep(m, st, L.UpdateConfig(max, cfg));
    QuietStep(m, st1, L.Publish);
    var a: Steps, b: Steps := [L.UpdateConfig(max, cfg)], [L.Publish];
    RunConcat(st, a, b);
    RunOne(st, a[0]);
    RunOne(st1, b[0]);
    assert a + b == [L.UpdateConfig(max, cfg), L.Publish];
  }

  lemma HeaderLinks(m: Mux, st: St, f: Format)
    requires Linked(m, st)
    ensures var r := Handle(m, Header(f)); Linked(r.mux, L.Run(st, r.steps))
  {
    hide Linked, L.Run, FlushPart, Changed, IsChanged;
    RunNone(st);
    FormatLinks(m, st, f);
    if m.enabled && IsChanged(m, f) {
      var m2 := Changed(m.(format := f), f);
      if m2.part.Some? {
        LinkedHasSamples(m2, st);
        CloseLinks(m2, st, m2.part.value.last);
        FlushShape(m2, m2.part.value.last, true);
        var f2 := FlushPart(m2, m2.part.value.last, true);
        DirtyLinks(f2.mux, L.Run(st, f2.steps));
      } else {
        DirtyLinks(m2, st);
      }
    }
  }

  /** What the muxer knows of the codecs does not matter here. */
  lemma FormatLinks(m: Mux, st: St, f: Format)
    requires Linked(m, st)
    ensures Linked(m.(format := f), st) && Linked(Changed(m.(format := f), f), st)
  {
    hide Linked;
    KnowledgeLinks(m, m.(format := f), st);
    KnowledgeLinks(m, Changed(m.(format := f), f), st);
  }

  lemma KnowledgeLinks(m: Mux, m': Mux, st: St)
    requires Linked(m, st) && m' == m.(format := m'.format, lastAvc := m'.lastAvc, lastAac := m'.lastAac)
    ensures Linked(m', st)
  {
    hide L.Ok, AllFit, L.HasOpen, PartOk;
  }

  lemma DirtyLinks(m: Mux, st: St)
    requires Linked(m, st) && m.part.None?
    ensures Linked(m.(initDirty := true), st)
  {
    hide L.Ok, AllFit, L.HasOpen;
  }

  lemma EventKeepsLinked(m: Mux, st: St, e: Event)
    requires Linked(m, st) && InRange(e) && (e.Publish? ==> !m.enabled)
    ensures var r := Handle(m, e); Linked(r.mux, L.Run(st, r.steps))
  {
    hide Linked, L.Run, Write;
    RunNone(st);
    match e
    case Publish(max, cfg) => PublishLinks(m, st, max, cfg);
    case Unpublish => if m.enabled { UnpublishLinks(m, st); }
    case Header(f) => HeaderLinks(m, st, f);
    case Damaged(f) => FormatLinks(m, st, f);
    case Audio(dts, _) => if Accepts(m, e) { FrameKeepsLinked(m, st, dts, SampleOf(e), CanEnd(m, SampleOf(e))); }
    case Video(dts, _, _, _) => if Accepts(m, e) { FrameKeepsLinked(m, st, dts, SampleOf(e), CanEnd(m, SampleOf(e))); }
  }

  /** Tiling over every orderly run with 32-bit times, whatever the headers: all parts in the window
      join on to each other, last exactly from boundary to boundary, carry the track ids of one
      initialisation segment per segment, and the muxer's running duration is the duration of the
      storage's open segment. */
  lemma {:induction false} RunKeepsLinked(m: Mux, st: St, es: seq<Event>)
    requires Linked(m, st) && Orderly(m, es) && AllInRange(es)
    ensures var s := Play(System(m, st), es);
            Linked(s.mux, s.store) && AllFit(s.store) && s.mux.segmentDuration == OpenDuration(s.store)
    decreases |es|
  {
    hide Linked, Handle, L.Run, AllFit, InRange;
    if es == [] {
      LinkedIs(m, st);
    } else {
      EventKeepsLinked(m, st, es[0]);
      var r := Handle(m, es[0]);
      RunKeepsLinked(r.mux, L.Run(st, r.steps), es[1..]);
    }
  }

  lemma LinkedIs(m: Mux, st: St)
    requires Linked(m, st)
    ensures AllFit(st) && m.segmentDuration == OpenDuration(st)
  {
  }

  /** The state before anything was published. */
  lemma InitialLinked(max: int)
    ensures Linked(INITIAL, L.Init<Piece>(max))
  {
    L.InitOk<Piece>(max);
  }

  /** An open part keeps its initialisation segment. */
  lemma InitStays(m: Mux, e: Event)
    ensures m.part.Some? && m.part.value.samples != [] && !m.initDirty ==> Handle(m, e).mux.init == m.init
  {
    hide PartFull;
  }

  /** The initialisation segment is replaced only while no segment is open, whatever the event. */
  lemma InitOnlyBetweenSegments(m: Mux, st: St, e: Event)
    requires Linked(m, st) && Handle(m, e).mux.init != m.init
    ensures !L.HasOpen(st) && m.part.None?
  {
    hide L.Ok, AllFit, L.HasOpen, Handle;
    InitStays(m, e);
  }

  /** A segment has one initialisation segment, and a muxed stream's audio always goes to the audio
      track, also in a part without video. Where the tracks fit, a stream without video has none. */
  lemma AudioNeverOnVideoTrack(st: St, i: nat, j: nat)
    requires AllFit(st) && i < |st.segments| && j < |st.segments[i].parts|
    ensures var p := st.segments[i].parts[j].payload;
            && p.init == st.segments[i].parts[0].payload.init
            && (p.init.Some? && p.init.value.avc.Some? ==> p.fragment.aid != p.fragment.vid)
            && (TracksFit(p.fragment.samples, p.init) && p.init.value.avc.None? ==>
                  OfTrack(p.fragment.samples, true) == [])
  {
    hide PartFit, OfTrack;
    var seg := st.segments[i];
    SameInit(seg, j);
    PartFitIs(seg.parts[j]);
    var p := seg.parts[j].payload;
    if TracksFit(p.fragment.samples, p.init) && p.init.value.avc.None? { NoneOf(p.fragment.samples, true); }
  }

  lemma PartFitIs(p: PartOf)
    requires PartFit(p)
    ensures p.payload.fragment.vid == VIDEO_ID && p.payload.fragment.aid == AudioIdOf(p.payload.init)
  {
  }

  lemma {:induction false} SameInit(seg: Seg, j: nat)
    requires SegFit(seg) && j < |seg.parts|
    ensures seg.parts[j].payload.init == seg.parts[0].payload.init && PartFit(seg.parts[j])
  {
    hide PartFit;
    if j > 0 {
      SameInit(seg, j - 1);
      assert Joined(seg.parts[j - 1], seg.parts[j]);
    }
  }

  lemma {:induction false} NoneOf(ss: seq<Sample>, video: bool)
    requires forall i :: 0 <= i < |ss| ==> ss[i].video != video
    ensures OfTrack(ss, video) == []
  {
    if ss != [] { NoneOf(ss[1..], video); }
  }

  /** Without the error-free assumption isolation fails: an avcC that is refused after its SPS was
      stored lets video into a stream whose init only has audio, under the audio track's id. */
  lemma DamagedHeaderBreaksIsolation(avc: bytes, aac: bytes, data: bytes)
    requires avc != [] && aac != []
    ensures var es := [Publish(10, L.Config(500_000, 2_000_000)), Header(Format(None, Some(aac))), Audio(0, data),
                       Damaged(Format(Some(avc), Some(aac))), Video(10, 0, KEYFRAME, data)];
            var m := After(INITIAL, es);
            && m.part.Some? && m.part.value.samples != [] && L.Last(m.part.value.samples).video
            && m.init == Some(InitSegment(None, Some(aac))) && m.part.value.aid == VIDEO_ID
  {
    var es := [Publish(10, L.Config(500_000, 2_000_000)), Header(Format(None, Some(aac))), Audio(0, data),
               Damaged(Format(Some(avc), Some(aac))), Video(10, 0, KEYFRAME, data)];
    var m1 := Handle(INITIAL, es[0]).mux;
    var m2 := Handle(m1, es[1]).mux;
    var m3 := Handle(m2, es[2]).mux;
    var m4 := Handle(m3, es[3]).mux;
    var m5 := Handle(m4, es[4]).mux;
    AfterFive(INITIAL, es);
  }

  lemma AfterFive(m: Mux, es: seq<Event>)
    requires |es| == 5
    ensures var m1 := Handle(m, es[0]).mux;
            var m2 := Handle(m1, es[1]).mux;
            var m3 := Handle(m2, es[2]).mux;
            var m4 := Handle(m3, es[3]).mux;
            After(m, es) == Handle(m4, es[4]).mux
  {
    hide Handle;
    var m1 := Handle(m, es[0]).mux;
    var m2 := Handle(m1, es[1]).mux;
    var m3 := Handle(m2, es[2]).mux;
    var m4 := Handle(m3, es[3]).mux;
    assert After(m4, es[4..]) == Handle(m4, es[4]).mux by { assert es[4..][1..] == []; }
    assert After(m3, es[3..]) == After(m4, es[4..]) by { assert es[3..][1..] == es[4..]; }
    assert After(m2, es[2..]) == After(m3, es[3..]) by { assert es[2..][1..] == es[3..]; }
    assert After(m1, es[1..]) == After(m2, es[2..]) by { assert es[1..][1..] == es[2..]; }
  }
}
