/**
 The LL-HLS muxer: where frames are cut into parts and segments, and under which initialisation
 segment they are written. Its whole effect on the storage is a sequence of storage steps. Times
 are milliseconds, durations microseconds.
 */
module LlHlsMux {
  import opened Bytes
  import opened Fmp4
  import L = LlHls

  /** The parsed codec configurations: raw sequence header data once it is usable. */
  datatype Format = Format(avc: Option<bytes>, aac: Option<bytes>)

  /** An initialisation segment: the tracks of the stream. A lone track has id 1; with both, video
      has id 1 and audio id 2. */
  datatype InitSegment = InitSegment(avc: Option<bytes>, aac: Option<bytes>) {
    function AudioId(): nat { if avc.Some? then 2 else 1 }
  }

  const VIDEO_ID := 1

  /** A stored part: its fragment, and the initialisation segment in force when it was opened. */
  datatype Piece = Piece(fragment: Fragment, init: Option<InitSegment>)

  datatype OpenPart = OpenPart(start: nat, last: nat, samples: seq<Sample>, hasVideo: bool, independent: bool,
                               aid: nat, sequence: nat, init: Option<InitSegment>)

  datatype Mux = Mux(enabled: bool, partTarget: int, segmentTarget: int, sequence: nat, part: Option<OpenPart>,
                     segmentDuration: int, initDirty: bool, videoConfigured: bool, lastAvc: bytes, lastAac: bytes,
                     format: Format, init: Option<InitSegment>)

  /** `Damaged` is a sequence header the parser gave up on after storing part of it: the message is
      dropped, the format keeps what was stored. */
  datatype Event =
    | Publish(max: int, cfg: L.Config)
    | Unpublish
    | Header(format: Format)
    | Damaged(format: Format)
    | Audio(dts: nat, data: bytes)
    | Video(dts: nat, cts: int, frameType: nat, data: bytes)

  type Steps = seq<L.Step<Piece>>

  datatype Effect = Effect(mux: Mux, steps: Steps)

  const INITIAL := Mux(false, 0, 0, 0, None, 0, false, false, [], [], Format(None, None), None)

  // ----- the muxer

  function FlushPart(m: Mux, end: nat, close: bool): Effect
    requires m.part.Some?
  {
    var p := m.part.value;
    if p.samples == [] then Effect(m, [])
    else
      var duration := (end - p.start) * 1000;
      var independent := if p.hasVideo then p.independent else !m.videoConfigured;
      var piece := Piece(Fragment(p.sequence, VIDEO_ID, p.aid, end, p.samples), p.init);
      Effect(m.(part := None, segmentDuration := if close then 0 else m.segmentDuration + duration),
             [L.Append(piece, duration, independent, close)])
  }

  /** The part is long enough: it has reached its target, or it has reached 85% of it and one more
      frame at the present spacing would overshoot. */
  predicate PartFull(m: Mux, duration: int, gap: int) {
    duration >= m.partTarget || (duration >= m.partTarget * 85 / 100 && duration + gap > m.partTarget)
  }

  function MaybeCut(m: Mux, dts: nat, canEnd: bool): Effect {
    if m.part.None? || m.part.value.samples == [] then Effect(m, [])
    else
      var p := m.part.value;
      var duration, gap := (dts - p.start) * 1000, (dts - p.last) * 1000;
      if canEnd && m.segmentDuration + duration >= m.segmentTarget then FlushPart(m, dts, true)
      else if PartFull(m, duration, gap) then FlushPart(m, dts, false)
      else Effect(m, [])
  }

  function WriteInit(m: Mux): Mux {
    if m.format.avc.None? && m.format.aac.None? then m
    else m.(init := Some(InitSegment(m.format.avc, m.format.aac)), initDirty := false,
      videoConfigured := m.format.avc.Some?)
  }

  function Open(m: Mux, dts: nat): (r: Mux)
    ensures r.part.Some?
  {
    var m1 := if m.initDirty then WriteInit(m) else m;
    m1.(sequence := m1.sequence + 1,
        part := Some(OpenPart(dts, dts, [], false, false, if m1.videoConfigured then 2 else 1, m1.sequence, m1.init)))
  }

  function AddSample(m: Mux, dts: nat, s: Sample): Mux
    requires m.part.Some?
  {
    var p := m.part.value;
    m.(part := Some(p.(last := dts, samples := p.samples + [s], hasVideo := p.hasVideo || s.video,
                       independent := if s.video && !p.hasVideo then s.frameType == KEYFRAME else p.independent)))
  }

  /** Cut if it is time to, open a part if none is open, add the frame. */
  function Write(m: Mux, dts: nat, s: Sample, canEnd: bool): Effect {
    var c := MaybeCut(m, dts, canEnd);
    var m1 := if c.mux.part.Some? then c.mux else Open(c.mux, dts);
    Effect(AddSample(m1, dts, s), c.steps)
  }

  function SampleOf(e: Event): Sample
    requires e.Audio? || e.Video?
  {
    match e
    case Audio(dts, data) => Sample(false, 0, dts % TWO32, dts % TWO32, data)
    case Video(dts, cts, frameType, data) => Sample(true, frameType, dts % TWO32, (dts + cts) % TWO32, data)
  }

  predicate Accepts(m: Mux, e: Event) {
    m.enabled && ((e.Audio? && m.format.aac.Some?) || (e.Video? && m.format.avc.Some?))
  }

  /** Frames that may start a segment: keyframes, or any frame of a stream without video. */
  predicate CanEnd(m: Mux, s: Sample) { if s.video then s.frameType == KEYFRAME else !m.videoConfigured }

  function Changed(m: Mux, f: Format): Mux {
    var m1 := if f.avc.Some? && f.avc.value != m.lastAvc then m.(lastAvc := f.avc.value) else m;
    if f.aac.Some? && f.aac.value != m.lastAac then m1.(lastAac := f.aac.value) else m1
  }

  predicate IsChanged(m: Mux, f: Format) {
    (f.avc.Some? && f.avc.value != m.lastAvc) || (f.aac.Some? && f.aac.value != m.lastAac)
  }

  function Handle(m: Mux, e: Event): Effect {
    match e
    case Publish(max, cfg) =>
      Effect(m.(enabled := true, partTarget := cfg.partTarget, segmentTarget := cfg.segmentTarget, part := None,
                segmentDuration := 0),
             [L.UpdateConfig(max, cfg), L.Publish])
    case Unpublish =>
      if !m.enabled then Effect(m, [])
      else
        var f := if m.part.Some? then FlushPart(m, m.part.value.last, true) else Effect(m, []);
        Effect(f.mux.(enabled := false), f.steps + [L.Unpublish])
    case Header(format) =>
      var m1 := m.(format := format);
      if !m.enabled || !IsChanged(m, format) then Effect(m1, [])
      else
        var m2 := Changed(m1, format);
        var f := if m2.part.Some? then FlushPart(m2, m2.part.value.last, true) else Effect(m2, []);
        Effect(f.mux.(initDirty := true), f.steps)
    case Damaged(format) => Effect(m.(format := format), [])
    case _ => if Accepts(m, e) then Write(m, e.dts, SampleOf(e), CanEnd(m, SampleOf(e))) else Effect(m, [])
  }

  // ----- muxer and storage together

  datatype System = System(mux: Mux, store: L.Store<Piece>)

  function Next(s: System, e: Event): System {
    var r := Handle(s.mux, e);
    System(r.mux, L.Run(s.store, r.steps))
  }

  function Play(s: System, es: seq<Event>): System
    decreases |es|
  {
    if es == [] then s else Play(Next(s, es[0]), es[1..])
  }

  /** The samples of the parts written by a run, in order. */
  function Written(steps: Steps): seq<Sample> {
    if steps == [] then []
    else (if steps[0].Append? then steps[0].payload.fragment.samples else []) + Written(steps[1..])
  }

  function AllSteps(m: Mux, es: seq<Event>): Steps
    decreases |es|
  {
    if es == [] then [] else Handle(m, es[0]).steps + AllSteps(Handle(m, es[0]).mux, es[1..])
  }

  function After(m: Mux, es: seq<Event>): Mux
    decreases |es|
  {
    if es == [] then m else After(Handle(m, es[0]).mux, es[1..])
  }

  /** The frames a run takes in. */
  function Taken(m: Mux, es: seq<Event>): seq<Sample>
    decreases |es|
  {
    if es == [] then []
    else (if Accepts(m, es[0]) then [SampleOf(es[0])] else []) + Taken(Handle(m, es[0]).mux, es[1..])
  }

  function Unflushed(m: Mux): seq<Sample> { if m.part.Some? then m.part.value.samples else [] }

  /** A publish comes only when the stream is not being published. */
  predicate Orderly(m: Mux, es: seq<Event>)
    decreases |es|
  {
    es == [] || ((es[0].Publish? ==> !m.enabled) && Orderly(Handle(m, es[0]).mux, es[1..]))
  }

  // ----- conservation

  predicate Shape(m: Mux) {
    && (m.part.Some? ==> m.part.value.samples != [])
    && (!m.enabled ==> m.part.None?)
  }

  lemma {:induction false} WrittenConcat(a: Steps, b: Steps)
    ensures Written(a + b) == Written(a) + Written(b)
  {
    if a == [] {
      assert a + b == b;
    } else {
      WrittenConcat(a[1..], b);
      var head := if a[0].Append? then a[0].payload.fragment.samples else [];
      assert Written(a + b) == head + Written(a[1..] + b) by { assert (a + b)[1..] == a[1..] + b; }
      Assoc(head, Written(a[1..]), Written(b));
    }
  }

  lemma WrittenOne(s: L.Step<Piece>)
    ensures Written([s]) == if s.Append? then s.payload.fragment.samples else []
  {
    assert [s][1..] == [];
  }

  lemma FlushConserves(m: Mux, end: nat, close: bool)
    requires Shape(m) && m.part.Some?
    ensures var f := FlushPart(m, end, close);
            Written(f.steps) == m.part.value.samples && f.mux.part.None? && f.mux.enabled == m.enabled
  {
    WrittenOne(FlushPart(m, end, close).steps[0]);
  }

  lemma CutConserves(m: Mux, dts: nat, canEnd: bool)
    requires Shape(m)
    ensures var c := MaybeCut(m, dts, canEnd);
            Written(c.steps) + Unflushed(c.mux) == Unflushed(m) && Shape(c.mux)
  {
    hide FlushPart;
    var c := MaybeCut(m, dts, canEnd);
    if m.part.Some? {
      FlushConserves(m, dts, true);
      FlushConserves(m, dts, false);
      assert Unflushed(m) + [] == Unflushed(m) && [] + Unflushed(m) == Unflushed(m);
    }
  }

  lemma WriteConserves(m: Mux, dts: nat, s: Sample, canEnd: bool)
    requires Shape(m) && m.enabled
    ensures var r := Write(m, dts, s, canEnd);
            Shape(r.mux) && Written(r.steps) + Unflushed(r.mux) == Unflushed(m) + [s]
  {
    hide FlushPart, MaybeCut;
    CutConserves(m, dts, canEnd);
    EnabledStays(m, dts, canEnd);
    var c := MaybeCut(m, dts, canEnd);
    Assoc(Written(c.steps), Unflushed(c.mux), [s]);
    assert c.mux.part.None? ==> Unflushed(c.mux) + [s] == [s];
  }

  lemma TableStepsWriteNothing(max: int, cfg: L.Config)
    ensures Written([L.UpdateConfig(max, cfg), L.Publish]) == []
  {
    var a: Steps, b: Steps := [L.UpdateConfig(max, cfg)], [L.Publish];
    WrittenConcat(a, b);
    WrittenOne(a[0]);
    WrittenOne(b[0]);
    assert a + b == [L.UpdateConfig(max, cfg), L.Publish];
  }

  /** One event: what was unflushed, plus the frame if it is taken, is what is written, plus what
      is unflushed now. */
  lemma EventConserves(m: Mux, e: Event)
    requires Shape(m) && (e.Publish? ==> !m.enabled)
    ensures var r := Handle(m, e);
            && Shape(r.mux)
            && Written(r.steps) + Unflushed(r.mux) == Unflushed(m) + if Accepts(m, e) then [SampleOf(e)] else []
  {
    hide FlushPart, Write, Written;
    var was := Unflushed(m);
    assert was + [] == was && [] + was == was;
    WrittenNothing();
    match e
    case Publish(max, cfg) => TableStepsWriteNothing(max, cfg);
    case Unpublish =>
      if m.enabled {
        var f := if m.part.Some? then FlushPart(m, m.part.value.last, true) else Effect(m, []);
        if m.part.Some? { FlushConserves(m, m.part.value.last, true); }
        WrittenConcat(f.steps, [L.Unpublish]);
        WrittenOne(L.Unpublish);
      }
    case Header(format) =>
      if m.enabled && IsChanged(m, format) && m.part.Some? {
        var m2 := Changed(m.(format := format), format);
        FlushConserves(m2, m2.part.value.last, true);
      }
    case Damaged(format) =>
    case _ => if Accepts(m, e) { WriteConserves(m, e.dts, SampleOf(e), CanEnd(m, SampleOf(e))); }
  }

  lemma WrittenNothing()
    ensures Written([]) == []
  {
  }

  lemma EnabledStays(m: Mux, dts: nat, canEnd: bool)
    ensures MaybeCut(m, dts, canEnd).mux.enabled == m.enabled
  {
  }

  /** Conservation: over any orderly run, the frames taken in are, in order and each exactly once,
      the samples of the parts written, followed by those still in the open part. */
  lemma {:induction false} FramesAreConserved(m: Mux, es: seq<Event>)
    requires Shape(m) && Orderly(m, es)
    ensures Unflushed(m) + Taken(m, es) == Written(AllSteps(m, es)) + Unflushed(After(m, es))
    ensures Shape(After(m, es))
    decreases |es|
  {
    hide Handle, SampleOf, Shape;
    if es == [] {
      assert Unflushed(m) + [] == [] + Unflushed(m);
    } else {
      var e, rest := es[0], es[1..];
      var r := Handle(m, e);
      EventConserves(m, e);
      FramesAreConserved(r.mux, rest);
      var one := if Accepts(m, e) then [SampleOf(e)] else [];
      WrittenConcat(r.steps, AllSteps(r.mux, rest));
      Assoc(Unflushed(m), one, Taken(r.mux, rest));
      Assoc(Written(r.steps), Unflushed(r.mux), Taken(r.mux, rest));
      Assoc(Written(r.steps), Written(AllSteps(r.mux, rest)), Unflushed(After(m, es)));
    }
  }
}
