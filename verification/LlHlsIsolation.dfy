/**
 Codec isolation over every orderly run, damaged headers and all: a segment has one initialisation
 segment, parts carry its track ids, and frames land under the configuration they were sent with
 exactly while the muxer's initialisation segment is up to date.
 */
module LlHlsIsolation {
  import opened Bytes
  import opened Fmp4
  import opened LlHlsMux
  import opened LlHlsTiling
  import opened LlHlsFlags
  import L = LlHls

  /** A sample with a codec configuration. */
  datatype Labelled = Labelled(sample: Sample, config: Option<bytes>)

  /** The configuration an initialisation segment gives to a media type. */
  function Config(init: Option<InitSegment>, video: bool): Option<bytes> {
    if init.None? then None else if video then init.value.avc else init.value.aac
  }

  /** The configuration a frame is sent under. */
  function Sent(f: Format, video: bool): Option<bytes> { if video then f.avc else f.aac }

  function Label(ss: seq<Sample>, init: Option<InitSegment>): (r: seq<Labelled>)
    ensures |r| == |ss| && forall i :: 0 <= i < |ss| ==> r[i] == Labelled(ss[i], Config(init, ss[i].video))
  {
    if ss == [] then [] else [Labelled(ss[0], Config(init, ss[0].video))] + Label(ss[1..], init)
  }

  /** The samples of the parts written, each with the configuration of its part. */
  function Stored(steps: Steps): seq<Labelled> {
    if steps == [] then []
    else
      (if steps[0].Append? then Label(steps[0].payload.fragment.samples, steps[0].payload.init) else [])
      + Stored(steps[1..])
  }

  function StillOpen(m: Mux): seq<Labelled> {
    if m.part.Some? then Label(m.part.value.samples, m.part.value.init) else []
  }

  /** The frames a run takes in, each with the configuration it was sent under. */
  function SentFrames(m: Mux, es: seq<Event>): seq<Labelled>
    decreases |es|
  {
    if es == [] then []
    else
      (if Accepts(m, es[0]) then [Labelled(SampleOf(es[0]), Sent(m.format, SampleOf(es[0]).video))] else [])
      + SentFrames(Handle(m, es[0]).mux, es[1..])
  }

  /** The same frames, each with the configuration it lands under. */
  function LandedFrames(m: Mux, es: seq<Event>): seq<Labelled>
    decreases |es|
  {
    if es == [] then []
    else
      (if Accepts(m, es[0]) then [Labelled(SampleOf(es[0]), Config(Landing(m), SampleOf(es[0]).video))] else [])
      + LandedFrames(Handle(m, es[0]).mux, es[1..])
  }

  /** The initialisation segment of the part that takes the next frame. */
  function Landing(m: Mux): Option<InitSegment> { if m.initDirty then WriteInit(m).init else m.init }

  predicate Sound(m: Mux) {
    && Shape(m) && (m.initDirty ==> m.part.None?)
    && (m.part.Some? ==> m.part.value.init == m.init)
  }

  // ----- every frame lands where the model says

  lemma LabelAppend(ss: seq<Sample>, s: Sample, init: Option<InitSegment>)
    ensures Label(ss + [s], init) == Label(ss, init) + [Labelled(s, Config(init, s.video))]
  {
    hide Label, Config;
  }

  lemma StoredOne(s: L.Step<Piece>)
    ensures Stored([s]) == if s.Append? then Label(s.payload.fragment.samples, s.payload.init) else []
  {
    hide Label;
    assert [s][1..] == [];
  }

  lemma {:induction false} StoredConcat(a: Steps, b: Steps)
    ensures Stored(a + b) == Stored(a) + Stored(b)
  {
    hide Label;
    if a == [] {
      assert a + b == b;
    } else {
      StoredConcat(a[1..], b);
      var head := if a[0].Append? then Label(a[0].payload.fragment.samples, a[0].payload.init) else [];
      assert Stored(a + b) == head + Stored(a[1..] + b) by { assert (a + b)[1..] == a[1..] + b; }
      Assoc(head, Stored(a[1..]), Stored(b));
    }
  }

  lemma {:induction false} QuietStores(steps: Steps)
    requires forall i :: 0 <= i < |steps| ==> !steps[i].Append?
    ensures Stored(steps) == []
  {
    if steps != [] { QuietStores(steps[1..]); }
  }

  lemma FlushStores(m: Mux, end: nat, close: bool)
    requires Sound(m) && m.part.Some?
    ensures var f := FlushPart(m, end, close);
            && Stored(f.steps) == StillOpen(m) && Sound(f.mux) && f.mux.part.None?
            && |f.steps| == 1 && f.steps[0].Append? && f.steps[0].close == close
            && f.mux == m.(part := None, segmentDuration := f.mux.segmentDuration)
  {
    hide Label, Stored;
    StoredOne(FlushPart(m, end, close).steps[0]);
  }

  lemma CutStores(m: Mux, dts: nat, canEnd: bool)
    requires Sound(m)
    ensures var c := MaybeCut(m, dts, canEnd);
            && Stored(c.steps) + StillOpen(c.mux) == StillOpen(m) && Sound(c.mux)
            && c.mux.init == m.init && c.mux.initDirty == m.initDirty && c.mux.format == m.format
               && c.mux.enabled == m.enabled
  {
    hide FlushPart, Label, Stored, PartFull;
    QuietStores([]);
    if m.part.Some? {
      FlushStores(m, dts, true);
      FlushStores(m, dts, false);
    }
    assert StillOpen(m) + [] == StillOpen(m) && [] + StillOpen(m) == StillOpen(m);
  }

  lemma WriteLands(m: Mux, dts: nat, s: Sample, canEnd: bool)
    requires Sound(m) && m.enabled && Sent(m.format, s.video).Some?
    ensures var r := Write(m, dts, s, canEnd);
            && Stored(r.steps) + StillOpen(r.mux) == StillOpen(m) + [Labelled(s, Config(Landing(m), s.video))]
               && Sound(r.mux)
  {
    hide MaybeCut, Label, Stored, Config;
    CutStores(m, dts, canEnd);
    var c := MaybeCut(m, dts, canEnd);
    var m1 := if c.mux.part.Some? then c.mux else LlHlsMux.Open(c.mux, dts);
    OpenedLands(c.mux, dts);
    LabelAppend(m1.part.value.samples, s, m1.part.value.init);
    Assoc(Stored(c.steps), StillOpen(c.mux), [Labelled(s, Config(Landing(m), s.video))]);
  }

  lemma OpenedLands(m: Mux, dts: nat)
    requires Sound(m) && (m.format.avc.Some? || m.format.aac.Some?)
    ensures var o := LlHlsMux.Open(m, dts);
            && o.part.value.init == o.init == Landing(m) && o.part.value.samples == [] && !o.initDirty
               && o.enabled == m.enabled
    ensures m.part.None? ==> StillOpen(LlHlsMux.Open(m, dts)) == StillOpen(m)
    ensures m.part.Some? ==> m.part.value.init == Landing(m)
  {
  }

  function New(m: Mux, e: Event): seq<Labelled> {
    if Accepts(m, e) then [Labelled(SampleOf(e), Config(Landing(m), SampleOf(e).video))] else []
  }

  lemma EventLands(m: Mux, e: Event)
    requires Sound(m) && (e.Publish? ==> !m.enabled)
    ensures var r := Handle(m, e); Stored(r.steps) + StillOpen(r.mux) == StillOpen(m) + New(m, e) && Sound(r.mux)
  {
    hide FlushPart, Write, Stored, Label, Config, Landing;
    QuietStores([]);
    assert StillOpen(m) + [] == StillOpen(m) && [] + StillOpen(m) == StillOpen(m);
    match e
    case Publish(max, cfg) => QuietStores([L.UpdateConfig(max, cfg), L.Publish]);
    case Unpublish =>
      if m.enabled {
        var f := if m.part.Some? then FlushPart(m, m.part.value.last, true) else Effect(m, []);
        if m.part.Some? { FlushStores(m, m.part.value.last, true); }
        StoredConcat(f.steps, [L.Unpublish]);
        QuietStores([L.Unpublish]);
      }
    case Header(format) =>
      if m.enabled && IsChanged(m, format) && m.part.Some? {
        var m2 := Changed(m.(format := format), format);
        FlushStores(m2, m2.part.value.last, true);
      }
    case Damaged(format) =>
    case Audio(dts, _) => if Accepts(m, e) { WriteLands(m, dts, SampleOf(e), CanEnd(m, SampleOf(e))); }
    case Video(dts, _, _, _) => if Accepts(m, e) { WriteLands(m, dts, SampleOf(e), CanEnd(m, SampleOf(e))); }
  }

  /** Conservation with configurations: what is stored and still open is what was open before and the
      frames taken in since, each under the configuration it landed with. */
  lemma {:induction false} FramesLand(m: Mux, es: seq<Event>)
    requires Sound(m) && Orderly(m, es)
    ensures Stored(AllSteps(m, es)) + StillOpen(After(m, es)) == StillOpen(m) + LandedFrames(m, es)
            && Sound(After(m, es))
    decreases |es|
  {
    hide Handle, SampleOf, Sound, Stored, StillOpen, Config, Landing;
    if es == [] {
      QuietStores([]);
      assert StillOpen(m) + [] == [] + StillOpen(m);
    } else {
      var r, rest := Handle(m, es[0]), es[1..];
      EventLands(m, es[0]);
      FramesLand(r.mux, rest);
      StoredConcat(r.steps, AllSteps(r.mux, rest));
      Assoc(Stored(r.steps), Stored(AllSteps(r.mux, rest)), StillOpen(After(m, es)));
      Assoc(Stored(r.steps), StillOpen(r.mux), LandedFrames(r.mux, rest));
      Assoc(StillOpen(m), New(m, es[0]), LandedFrames(r.mux, rest));
    }
  }

  // ----- exactly when

  /** The guard: when a frame is taken in, the initialisation segment is about to be renewed, or it
      has the configuration the frame was sent under. */
  predicate UpToDate(m: Mux, e: Event) {
    Accepts(m, e) ==> m.initDirty || Config(m.init, e.Video?) == Sent(m.format, e.Video?)
  }

  predicate UpToDateRun(m: Mux, es: seq<Event>)
    decreases |es|
  {
    es == [] || (UpToDate(m, es[0]) && UpToDateRun(Handle(m, es[0]).mux, es[1..]))
  }

  lemma LandsAsSent(m: Mux, e: Event)
    requires Accepts(m, e)
    ensures Config(Landing(m), SampleOf(e).video) == Sent(m.format, SampleOf(e).video) <==> UpToDate(m, e)
  {
  }

  lemma {:induction false} LandedIsSent(m: Mux, es: seq<Event>)
    ensures |LandedFrames(m, es)| == |SentFrames(m, es)|
    ensures LandedFrames(m, es) == SentFrames(m, es) <==> UpToDateRun(m, es)
    decreases |es|
  {
    hide Handle, SampleOf, Accepts, Config, Landing, UpToDate;
    if es != [] {
      var m' := Handle(m, es[0]).mux;
      LandedIsSent(m', es[1..]);
      var l, t := LandedFrames(m', es[1..]), SentFrames(m', es[1..]);
      if Accepts(m, es[0]) {
        LandsAsSent(m, es[0]);
        assert LandedFrames(m, es)[1..] == l && SentFrames(m, es)[1..] == t;
      } else {
        NotAccepted(m, es[0]);
        assert [] + l == l && [] + t == t;
      }
    }
  }

  lemma NotAccepted(m: Mux, e: Event)
    requires !Accepts(m, e)
    ensures UpToDate(m, e)
  {
  }

  /** Codec isolation, exactly: over any orderly run, every frame taken in is stored, or still open,
      under the configuration it was sent with, if and only if at each frame the initialisation
      segment is up to date or due for renewal. */
  lemma IsolatedExactly(m: Mux, es: seq<Event>)
    requires Sound(m) && Orderly(m, es)
    ensures Stored(AllSteps(m, es)) + StillOpen(After(m, es)) == StillOpen(m) + SentFrames(m, es)
            <==> UpToDateRun(m, es)
  {
    hide Stored, StillOpen, LandedFrames, SentFrames, UpToDateRun, AllSteps, After, Orderly, Sound;
    FramesLand(m, es);
    LandedIsSent(m, es);
    var o, l, t := StillOpen(m), LandedFrames(m, es), SentFrames(m, es);
    assert (o + l)[|o|..] == l && (o + t)[|o|..] == t;
  }

  // ----- the weaker reading: every sample has a track

  predicate AllKnown(ls: seq<Labelled>) { forall i :: 0 <= i < |ls| ==> ls[i].config.Some? }

  /** Every part written has a track for each of its samples. */
  predicate PartsFit(steps: Steps) {
    forall i :: 0 <= i < |steps| && steps[i].Append? ==>
          TracksFit(steps[i].payload.fragment.samples, steps[i].payload.init)
  }

  predicate OpenFits(m: Mux) { m.part.Some? ==> TracksFit(m.part.value.samples, m.part.value.init) }

  /** When a frame is taken in, the initialisation segment is about to be renewed or lists its codec. */
  predicate Listed(m: Mux, e: Event) { Accepts(m, e) ==> m.initDirty || Config(m.init, e.Video?).Some? }

  predicate ListedRun(m: Mux, es: seq<Event>)
    decreases |es|
  {
    es == [] || (Listed(m, es[0]) && ListedRun(Handle(m, es[0]).mux, es[1..]))
  }

  lemma FitsIsKnown(ss: seq<Sample>, init: Option<InitSegment>)
    requires ss != []
    ensures TracksFit(ss, init) <==> AllKnown(Label(ss, init))
  {
    hide Label;
    if AllKnown(Label(ss, init)) { assert Label(ss, init)[0].config.Some?; }
  }

  lemma KnownConcat(a: seq<Labelled>, b: seq<Labelled>)
    ensures AllKnown(a + b) <==> AllKnown(a) && AllKnown(b)
  {
    var ab := a + b;
    assert forall i :: 0 <= i < |a| ==> a[i] == ab[i];
    assert forall i :: 0 <= i < |b| ==> b[i] == ab[|a| + i];
  }

  predicate NoneEmpty(steps: Steps) {
    forall i :: 0 <= i < |steps| && steps[i].Append? ==> steps[i].payload.fragment.samples != []
  }

  lemma {:induction false} PartsFitIsKnown(steps: Steps)
    requires NoneEmpty(steps)
    ensures PartsFit(steps) <==> AllKnown(Stored(steps))
  {
    hide Label, TracksFit, AllKnown;
    if steps == [] {
      NothingKnown();
    } else {
      var rest := steps[1..];
      PartsFitIsKnown(rest);
      var head := if steps[0].Append? then Label(steps[0].payload.fragment.samples, steps[0].payload.init) else [];
      NothingKnown();
      KnownConcat(head, Stored(rest));
      if steps[0].Append? { FitsIsKnown(steps[0].payload.fragment.samples, steps[0].payload.init); }
      var first := steps[0].Append? ==> TracksFit(steps[0].payload.fragment.samples, steps[0].payload.init);
      assert PartsFit(steps) <==> PartsFit(rest) && first by {
        assert forall i :: 0 <= i < |rest| ==> rest[i] == steps[i + 1];
        if PartsFit(rest) { assert forall i :: 0 < i < |steps| ==> steps[i] == rest[i - 1]; }
      }
    }
  }

  lemma NothingKnown()
    ensures AllKnown([])
  {
  }

  lemma EventNoneEmpty(m: Mux, e: Event)
    ensures NoneEmpty(Handle(m, e).steps)
  {
    hide PartFull;
  }

  lemma {:induction false} RunNoneEmpty(m: Mux, es: seq<Event>)
    ensures NoneEmpty(AllSteps(m, es))
    decreases |es|
  {
    hide Handle;
    if es != [] {
      EventNoneEmpty(m, es[0]);
      RunNoneEmpty(Handle(m, es[0]).mux, es[1..]);
    }
  }

  lemma {:induction false} LandedKnown(m: Mux, es: seq<Event>)
    ensures AllKnown(LandedFrames(m, es)) <==> ListedRun(m, es)
    decreases |es|
  {
    hide Handle, AllKnown, Config, SampleOf, Landing;
    NothingKnown();
    if es != [] {
      var m' := Handle(m, es[0]).mux;
      LandedKnown(m', es[1..]);
      KnownConcat(New(m, es[0]), LandedFrames(m', es[1..]));
      NewKnown(m, es[0]);
    }
  }

  lemma NewKnown(m: Mux, e: Event)
    ensures AllKnown(New(m, e)) <==> Listed(m, e)
  {
    if Accepts(m, e) { assert AllKnown(New(m, e)) <==> New(m, e)[0].config.Some?; }
  }

  /** Every sample has a track of its part's initialisation segment, in every part written and in the
      open one, if and only if that held at the start and each frame's codec was listed, or about to
      be, when it was taken in. */
  lemma TracksFitExactly(m: Mux, es: seq<Event>)
    requires Sound(m) && Orderly(m, es)
    ensures PartsFit(AllSteps(m, es)) && OpenFits(After(m, es)) <==> OpenFits(m) && ListedRun(m, es)
  {
    hide Stored, AllKnown, PartsFit, AllSteps, After, LandedFrames, ListedRun, Orderly, TracksFit, Label;
    FramesLand(m, es);
    RunNoneEmpty(m, es);
    PartsFitIsKnown(AllSteps(m, es));
    KnownConcat(Stored(AllSteps(m, es)), StillOpen(After(m, es)));
    KnownConcat(StillOpen(m), LandedFrames(m, es));
    LandedKnown(m, es);
    OpenKnown(m);
    OpenKnown(After(m, es));
  }

  lemma OpenKnown(m: Mux)
    requires Sound(m)
    ensures OpenFits(m) <==> AllKnown(StillOpen(m))
  {
    hide Label, TracksFit, AllKnown;
    NothingKnown();
    if m.part.Some? { FitsIsKnown(m.part.value.samples, m.part.value.init); }
  }

  // ----- one initialisation segment per segment, whatever happens

  /** The initialisation segment of the storage's open segment, if one is open. */
  type Current = Option<Option<InitSegment>>

  function CurrentAfter(cur: Current, s: L.Step<Piece>): Current {
    match s
    case Append(piece, _, _, close) => if close then None else Some(piece.init)
    case Unpublish => None
    case _ => cur
  }

  function CurrentAfterAll(cur: Current, steps: Steps): Current
    decreases |steps|
  {
    if steps == [] then cur else CurrentAfterAll(CurrentAfter(cur, steps[0]), steps[1..])
  }

  /** A part that continues a segment has the initialisation segment of the part before it. */
  predicate Uniform(cur: Current, steps: Steps)
    decreases |steps|
  {
    steps == []
    || ((steps[0].Append? && cur.Some? ==> steps[0].payload.init == cur.value)
       && Uniform(CurrentAfter(cur, steps[0]), steps[1..]))
  }

  /** An open segment has an open part, under the segment's initialisation segment. */
  predicate Follows(m: Mux, cur: Current) { cur.Some? ==> m.part.Some? && cur.value == m.init }

  lemma {:induction false} UniformConcat(cur: Current, a: Steps, b: Steps)
    ensures Uniform(cur, a + b) <==> Uniform(cur, a) && Uniform(CurrentAfterAll(cur, a), b)
    ensures CurrentAfterAll(cur, a + b) == CurrentAfterAll(CurrentAfterAll(cur, a), b)
    decreases |a|
  {
    hide CurrentAfter;
    if a == [] {
      assert a + b == b;
    } else {
      assert (a + b)[1..] == a[1..] + b;
      UniformConcat(CurrentAfter(cur, a[0]), a[1..], b);
    }
  }

  lemma UniformOne(cur: Current, s: L.Step<Piece>)
    ensures Uniform(cur, [s]) <==> (s.Append? && cur.Some? ==> s.payload.init == cur.value)
    ensures CurrentAfterAll(cur, [s]) == CurrentAfter(cur, s)
    ensures Uniform(cur, []) && CurrentAfterAll(cur, []) == cur
  {
    hide CurrentAfter;
    assert [s][1..] == [];
  }

  lemma FlushFollows(m: Mux, end: nat, close: bool, cur: Current)
    requires Sound(m) && m.part.Some? && Follows(m, cur)
    ensures var f := FlushPart(m, end, close);
            Uniform(cur, f.steps) && CurrentAfterAll(cur, f.steps) == if close then None else Some(m.init)
  {
    hide Uniform, CurrentAfterAll;
    UniformOne(cur, FlushPart(m, end, close).steps[0]);
  }

  lemma WriteFollows(m: Mux, dts: nat, s: Sample, canEnd: bool, cur: Current)
    requires Sound(m) && Follows(m, cur)
    ensures var r := Write(m, dts, s, canEnd); Uniform(cur, r.steps) && Follows(r.mux, CurrentAfterAll(cur, r.steps))
  {
    hide Uniform, CurrentAfterAll, FlushPart, PartFull;
    UniformOne(cur, L.Publish);
    if m.part.Some? {
      FlushFollows(m, dts, true, cur);
      FlushFollows(m, dts, false, cur);
      FlushStores(m, dts, true);
      FlushStores(m, dts, false);
    }
  }

  lemma UnpublishFollows(m: Mux, cur: Current)
    requires Sound(m) && Follows(m, cur)
    ensures var r := Handle(m, Unpublish); Uniform(cur, r.steps) && Follows(r.mux, CurrentAfterAll(cur, r.steps))
  {
    hide Uniform, CurrentAfterAll, FlushPart;
    UniformOne(cur, L.Unpublish);
    if m.enabled {
      var f := if m.part.Some? then FlushPart(m, m.part.value.last, true) else Effect(m, []);
      if m.part.Some? { FlushFollows(m, m.part.value.last, true, cur); }
      UniformConcat(cur, f.steps, [L.Unpublish]);
      UniformOne(CurrentAfterAll(cur, f.steps), L.Unpublish);
    }
  }

  lemma PublishFollows(m: Mux, max: int, cfg: L.Config, cur: Current)
    requires Sound(m) && Follows(m, cur) && !m.enabled
    ensures var r := Handle(m, Publish(max, cfg));
            Uniform(cur, r.steps) && Follows(r.mux, CurrentAfterAll(cur, r.steps))
  {
    hide Uniform, CurrentAfterAll;
    var a: Steps, b: Steps := [L.UpdateConfig(max, cfg)], [L.Publish];
    assert a + b == [L.UpdateConfig(max, cfg), L.Publish];
    UniformConcat(cur, a, b);
    UniformOne(cur, a[0]);
    UniformOne(cur, b[0]);
  }

  lemma EventFollows(m: Mux, e: Event, cur: Current)
    requires Sound(m) && Follows(m, cur) && (e.Publish? ==> !m.enabled)
    ensures var r := Handle(m, e); Uniform(cur, r.steps) && Follows(r.mux, CurrentAfterAll(cur, r.steps))
  {
    hide Uniform, CurrentAfterAll, FlushPart, Write;
    UniformOne(cur, L.Publish);
    match e
    case Publish(max, cfg) => PublishFollows(m, max, cfg, cur);
    case Unpublish => UnpublishFollows(m, cur);
    case Header(format) =>
      if m.enabled && IsChanged(m, format) && m.part.Some? {
        var m2 := Changed(m.(format := format), format);
        FlushFollows(m2, m2.part.value.last, true, cur);
      }
    case Damaged(_) =>
    case Audio(dts, _) => if Accepts(m, e) { WriteFollows(m, dts, SampleOf(e), CanEnd(m, SampleOf(e)), cur); }
    case Video(dts, _, _, _) => if Accepts(m, e) { WriteFollows(m, dts, SampleOf(e), CanEnd(m, SampleOf(e)), cur); }
  }

  /** Every segment is written under one initialisation segment, in every orderly run. */
  lemma {:induction false} SegmentsAreUniform(m: Mux, es: seq<Event>, cur: Current)
    requires Sound(m) && Follows(m, cur) && Orderly(m, es)
    ensures Uniform(cur, AllSteps(m, es))
    decreases |es|
  {
    hide Handle, Sound, Follows, Uniform, CurrentAfterAll;
    if es == [] {
      UniformOne(cur, L.Publish);
    } else {
      var r := Handle(m, es[0]);
      EventLands(m, es[0]);
      EventFollows(m, es[0], cur);
      SegmentsAreUniform(r.mux, es[1..], CurrentAfterAll(cur, r.steps));
      UniformConcat(cur, r.steps, AllSteps(r.mux, es[1..]));
    }
  }

  /** Both hold of the muxer as it is created. */
  lemma InitialSound()
    ensures Sound(INITIAL) && Follows(INITIAL, None) && StillOpen(INITIAL) == []
  {
  }

  // ----- what the window holds

  /** Every sample in the window has a track of its part's initialisation segment. */
  predicate WindowTracksFit(st: St) { forall i :: 0 <= i < |st.segments| ==> SegTracksFit(st.segments[i]) }

  predicate SegTracksFit(seg: Seg) {
    forall j :: 0 <= j < |seg.parts| ==> TracksFit(seg.parts[j].payload.fragment.samples, seg.parts[j].payload.init)
  }

  lemma StepTracksFit(st: St, s: L.Step<Piece>)
    requires WindowTracksFit(st) && (s.Append? ==> TracksFit(s.payload.fragment.samples, s.payload.init))
    ensures WindowTracksFit(L.Apply(st, s))
  {
    hide TracksFit, L.Generate, L.Shrink, L.Grown;
    var st' := L.Apply(st, s);
    if s.Append? {
      var k := AppendTail(st, s);
      var g := L.Grown(st, s);
      GrownTracksFit(st, s);
      assert forall i :: 0 <= i < |st'.segments| ==> st'.segments[i] == g[k + i];
    }
  }

  lemma GrownTracksFit(st: St, s: L.Step<Piece>)
    requires WindowTracksFit(st) && s.Append? && TracksFit(s.payload.fragment.samples, s.payload.init)
    ensures var g := L.Grown(st, s); forall i :: 0 <= i < |g| ==> SegTracksFit(g[i])
  {
    hide TracksFit;
  }

  lemma {:induction false} RunTracksFit(st: St, steps: Steps)
    requires WindowTracksFit(st) && PartsFit(steps)
    ensures WindowTracksFit(L.Run(st, steps))
    decreases |steps|
  {
    hide TracksFit, L.Apply, WindowTracksFit;
    if steps != [] {
      StepTracksFit(st, steps[0]);
      assert PartsFit(steps[1..]) by { assert forall i :: 0 <= i < |steps[1..]| ==> steps[1..][i] == steps[i + 1]; }
      RunTracksFit(L.Apply(st, steps[0]), steps[1..]);
    }
  }

  /** A run leaves the storage where its steps lead. */
  lemma {:induction false} PlayIsRun(m: Mux, st: St, es: seq<Event>)
    ensures Play(System(m, st), es) == System(After(m, es), L.Run(st, AllSteps(m, es)))
    decreases |es|
  {
    hide Handle, L.Run;
    RunNone(st);
    if es != [] {
      var r := Handle(m, es[0]);
      PlayIsRun(r.mux, L.Run(st, r.steps), es[1..]);
      RunConcat(st, r.steps, AllSteps(r.mux, es[1..]));
    }
  }

  /** While every codec is listed when its frames come, everything in the window has its track. */
  lemma ListedRunFits(m: Mux, st: St, es: seq<Event>)
    requires Sound(m) && Orderly(m, es) && OpenFits(m) && WindowTracksFit(st) && ListedRun(m, es)
    ensures WindowTracksFit(Play(System(m, st), es).store)
  {
    hide Sound, Orderly, OpenFits, WindowTracksFit, ListedRun, Play, PartsFit, AllSteps, After, L.Run;
    TracksFitExactly(m, es);
    RunTracksFit(st, AllSteps(m, es));
    PlayIsRun(m, st, es);
  }

  // ----- error-free input

  /** The muxer's knowledge of the codecs is up to date, or marked for renewal. */
  predicate Synced(m: Mux) {
    && (m.format.avc.Some? ==> m.format.avc.value != []) && (m.format.aac.Some? ==> m.format.aac.value != [])
    && m.lastAvc == (if m.format.avc.Some? then m.format.avc.value else [])
    && m.lastAac == (if m.format.aac.Some? then m.format.aac.value else [])
    && (!m.initDirty ==>
          m.init == if m.format == Format(None, None) then None else Some(InitSegment(m.format.avc, m.format.aac)))
  }

  /** An error-free input: sequence headers arrive while publishing, parse completely, and a codec
      once known stays known. */
  predicate Clean(m: Mux, e: Event) {
    match e
    case Publish(_, _) => !m.enabled
    case Damaged(_) => false
    case Header(f) =>
      && m.enabled
      && (f.avc.Some? ==> f.avc.value != []) && (f.aac.Some? ==> f.aac.value != [])
      && (m.format.avc.Some? ==> f.avc.Some?) && (m.format.aac.Some? ==> f.aac.Some?)
    case _ => true
  }

  predicate CleanRun(m: Mux, es: seq<Event>)
    decreases |es|
  {
    es == [] || (Clean(m, es[0]) && CleanRun(Handle(m, es[0]).mux, es[1..]))
  }

  lemma WriteSyncs(m: Mux, dts: nat, s: Sample, canEnd: bool)
    requires Sound(m) && Synced(m)
    ensures Synced(Write(m, dts, s, canEnd).mux)
  {
    hide PartFull;
  }

  lemma HeaderSyncs(m: Mux, f: Format)
    requires Sound(m) && Synced(m) && Clean(m, Header(f))
    ensures Synced(Handle(m, Header(f)).mux)
  {
    hide FlushPart, Synced, Changed, IsChanged;
    ChangedSyncs(m, f);
    var m2 := Changed(m.(format := f), f);
    if m2.part.Some? { FlushShape(m2, m2.part.value.last, true); }
    var d := Handle(m, Header(f)).mux;
    if IsChanged(m, f) { SyncedIgnores(m2.(initDirty := true), d); }
  }

  lemma ChangedSyncs(m: Mux, f: Format)
    requires Synced(m) && Clean(m, Header(f))
    ensures if IsChanged(m, f) then Synced(Changed(m.(format := f), f).(initDirty := true)) else m.(format := f) == m
    ensures Changed(m.(format := f), f).part == m.part
  {
  }

  lemma SyncedIgnores(a: Mux, b: Mux)
    requires Synced(a) && b == a.(part := b.part, segmentDuration := b.segmentDuration)
    ensures Synced(b)
  {
  }

  lemma UnpublishSyncs(m: Mux)
    requires Sound(m) && Synced(m)
    ensures Synced(Handle(m, Unpublish).mux)
  {
    hide FlushPart;
    if m.part.Some? { FlushShape(m, m.part.value.last, true); }
  }

  lemma EventSyncs(m: Mux, e: Event)
    requires Sound(m) && Synced(m) && Clean(m, e)
    ensures Synced(Handle(m, e).mux)
  {
    hide Write, FlushPart;
    match e
    case Publish(_, _) =>
    case Unpublish => UnpublishSyncs(m);
    case Header(f) => HeaderSyncs(m, f);
    case Audio(dts, _) => WriteSyncs(m, dts, SampleOf(e), CanEnd(m, SampleOf(e)));
    case Video(dts, _, _, _) => WriteSyncs(m, dts, SampleOf(e), CanEnd(m, SampleOf(e)));
  }

  /** In an error-free run the initialisation segment is always up to date, so frames are isolated. */
  lemma {:induction false} CleanIsUpToDate(m: Mux, es: seq<Event>)
    requires Sound(m) && Synced(m) && CleanRun(m, es)
    ensures UpToDateRun(m, es)
    decreases |es|
  {
    hide Sound, Synced, Handle, UpToDate;
    if es != [] {
      SyncedIsUpToDate(m, es[0]);
      CleanIsOrderly(m, es[0]);
      EventLands(m, es[0]);
      EventSyncs(m, es[0]);
      CleanIsUpToDate(Handle(m, es[0]).mux, es[1..]);
    }
  }

  lemma CleanIsOrderly(m: Mux, e: Event)
    requires Clean(m, e)
    ensures e.Publish? ==> !m.enabled
  {
  }

  lemma SyncedIsUpToDate(m: Mux, e: Event)
    requires Synced(m)
    ensures UpToDate(m, e)
  {
  }
}
