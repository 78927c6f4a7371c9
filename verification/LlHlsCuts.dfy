/**
 Where the muxer ends segments, told on the events alone: which frames do, and what the segment
 behind such a cut starts with, whatever happens afterwards.
 */
module LlHlsCuts {
  import opened Bytes
  import opened Fmp4
  import opened LlHlsMux
  import opened LlHlsTiling
  import L = LlHls

  /** A frame that a segment can start with: a keyframe, which has frame type 1, or any audio frame
      under an initialisation segment without video. */
  predicate Leads(e: Event, init: Option<InitSegment>) {
    match e
    case Video(_, _, frameType, _) => frameType == 1
    case Audio(_, _) => init.None? || init.value.avc.None?
    case _ => false
  }

  predicate Closes(steps: Steps) { |steps| == 1 && steps[0].Append? && steps[0].close }

  /** How long the segment in progress has lasted when a frame comes. */
  function Lasted(m: Mux, st: St, dts: nat): int
    requires m.part.Some? && m.part.value.samples != []
  {
    OpenDuration(st) + 1000 * (dts - m.part.value.samples[0].dts)
  }

  /** A frame that finds an open part ends the segment if and only if one can start with it and the
      segment has reached its target; otherwise it ends a part at most. */
  lemma EndsExactly(m: Mux, st: St, e: Event)
    requires Linked(m, st) && Accepts(m, e) && m.part.Some? && m.part.value.samples != []
    ensures var r := Handle(m, e).steps;
            && (Closes(r) <==> Leads(e, m.part.value.init) && Lasted(m, st, e.dts) >= m.segmentTarget)
            && (Closes(r) || r == [] || (|r| == 1 && r[0].Append? && !r[0].close))
  {
    hide L.Ok, AllFit, L.HasOpen, PartFull;
  }

  /** A frame that does not end the segment ends the part if and only if the part has reached its target,
      or 85% of it and one more frame at the present spacing would go beyond. The part written then has all
      its samples and lasts up to the frame. */
  lemma PartEndsExactly(m: Mux, st: St, e: Event)
    requires Linked(m, st) && Accepts(m, e) && m.part.Some? && m.part.value.samples != []
    requires !Closes(Handle(m, e).steps)
    ensures var r, p := Handle(m, e).steps, m.part.value;
            var lasted, gap := 1000 * (e.dts - p.samples[0].dts), 1000 * (e.dts - L.Last(p.samples).dts);
            && (r != [] <==> || lasted >= m.partTarget
                             || (lasted >= m.partTarget * 85 / 100 && lasted + gap > m.partTarget))
            && (r != [] ==> && r[0].Append? && r[0].duration == lasted
                            && r[0].payload.fragment.samples == p.samples && r[0].payload.fragment.end == e.dts)
  {
    hide L.Ok, AllFit, L.HasOpen;
  }

  /** The first sample of a segment, if there is one. */
  function Head(seg: Seg): seq<Sample> {
    if seg.parts == [] || seg.parts[0].payload.fragment.samples == [] then []
    else [seg.parts[0].payload.fragment.samples[0]]
  }

  ghost predicate StoredStart(st: St, n: nat, s: Sample) {
    forall i :: 0 <= i < |st.segments| && st.segments[i].msn == n ==> Head(st.segments[i]) == [s]
  }

  /** The segment of number `n` starts with this frame, in the window or still in the muxer. */
  ghost predicate StartsWith(m: Mux, st: St, n: nat, s: Sample) {
    && n <= st.nextMsn && StoredStart(st, n, s)
    && (n == st.nextMsn ==>
          && !L.HasOpen(st)
          && m.part.Some? && m.part.value.samples != [] && m.part.value.samples[0] == s)
  }

  /** The part takes the newest number; every other segment in the window was there before. */
  lemma AppendNumbers(st: St, s: L.Step<Piece>)
    requires L.Ok(st) && s.Append?
    ensures var st', n := L.Apply(st, s), L.NextPosition(st).0;
            && st'.nextMsn == n + 1
            && forall i :: 0 <= i < |st'.segments| ==>
                 && st'.segments[i].msn <= n
                 && (st'.segments[i].msn == n ==> Head(st'.segments[i]) == Head(L.WithPart(Target(st), s)))
                 && (st'.segments[i].msn < n ==> st'.segments[i] in st.segments)
  {
    hide L.Generate, L.Shrink, L.Rendered, Head;
    L.GrownOk(st, s);
    var k := AppendTail(st, s);
    var g, st' := L.Grown(st, s), L.Apply(st, s);
    forall i | 0 <= i < |st'.segments|
      ensures && st'.segments[i].msn <= L.NextPosition(st).0
              && (st'.segments[i].msn == L.NextPosition(st).0 ==> st'.segments[i] == L.WithPart(Target(st), s))
              && (st'.segments[i].msn < L.NextPosition(st).0 ==> st'.segments[i] in st.segments)
    {
      assert st'.segments[i] == g[k + i];
    }
  }

  lemma AppendKeepsStart(m: Mux, st: St, p: L.Step<Piece>, n: nat, s: Sample)
    requires L.Ok(st) && p.Append? && StartsWith(m, st, n, s) && p.payload.fragment.samples != []
    requires m.part.Some? && p.payload.fragment.samples == m.part.value.samples
    ensures var st' := L.Apply(st, p); n < st'.nextMsn && StoredStart(st', n, s)
  {
    hide L.Apply, L.Rendered, L.SegmentOk;
    AppendNumbers(st, p);
    var st' := L.Apply(st, p);
    forall i | 0 <= i < |st'.segments| && st'.segments[i].msn == n ensures Head(st'.segments[i]) == [s] {
      if n == L.NextPosition(st).0 {
        if L.HasOpen(st) { assert Head(L.Last(st.segments)) == [s]; }
      } else {
        var j :| 0 <= j < |st.segments| && st.segments[j] == st'.segments[i];
      }
    }
  }

  lemma QuietKeepsStart(st: St, q: L.Step<Piece>, n: nat, s: Sample)
    requires !q.Append? && StoredStart(st, n, s)
    ensures var st' := L.Apply(st, q); StoredStart(st', n, s) && st'.nextMsn == st.nextMsn
  {
    hide L.Generate, Head;
    var st' := L.Apply(st, q);
    forall i | 0 <= i < |st'.segments| && st'.segments[i].msn == n ensures Head(st'.segments[i]) == [s] {
      SameHead(st.segments[i], st'.segments[i]);
    }
  }

  lemma SameHead(a: Seg, b: Seg)
    requires a.parts == b.parts
    ensures Head(a) == Head(b)
  {
  }

  lemma FlushKeepsStart(m: Mux, st: St, end: nat, close: bool, n: nat, s: Sample)
    requires Linked(m, st) && m.part.Some? && StartsWith(m, st, n, s)
    ensures var f := FlushPart(m, end, close); var st' := L.Run(st, f.steps); n < st'.nextMsn && StoredStart(st', n, s)
  {
    hide L.Apply, L.Ok, AllFit, StartsWith, L.Run, StoredStart;
    var f := FlushPart(m, end, close);
    RunOne(st, f.steps[0]);
    AppendKeepsStart(m, st, f.steps[0], n, s);
  }

  lemma WriteKeepsStart(m: Mux, st: St, dts: nat, x: Sample, canEnd: bool, n: nat, s: Sample)
    requires Linked(m, st) && StartsWith(m, st, n, s)
    ensures var r := Write(m, dts, x, canEnd); StartsWith(r.mux, L.Run(st, r.steps), n, s)
  {
    hide FlushPart, L.Run, PartFull, StoredStart, Linked, L.HasOpen;
    RunNone(st);
    var c := MaybeCut(m, dts, canEnd);
    if m.part.Some? && c != Effect(m, []) {
      LinkedHasSamples(m, st);
      FlushKeepsStart(m, st, dts, true, n, s);
      FlushKeepsStart(m, st, dts, false, n, s);
      FlushShape(m, dts, true);
      FlushShape(m, dts, false);
    }
  }

  lemma EventKeepsStart(m: Mux, st: St, e: Event, n: nat, s: Sample)
    requires Linked(m, st) && InRange(e) && StartsWith(m, st, n, s) && (e.Publish? ==> !m.enabled)
    ensures var r := Handle(m, e); StartsWith(r.mux, L.Run(st, r.steps), n, s)
  {
    hide FlushPart, L.Run, Linked, L.HasOpen, L.Apply, Write, StoredStart, Changed, IsChanged;
    RunNone(st);
    match e
    case Publish(max, cfg) =>
      var a: Steps, b: Steps := [L.UpdateConfig(max, cfg)], [L.Publish];
      QuietKeepsStart(st, a[0], n, s);
      QuietKeepsStart(L.Apply(st, a[0]), b[0], n, s);
      RunConcat(st, a, b);
      RunOne(st, a[0]);
      RunOne(L.Apply(st, a[0]), b[0]);
      assert a + b == [L.UpdateConfig(max, cfg), L.Publish];
      ClosedHasNoPart(m, st);
    case Unpublish =>
      if m.enabled {
        var f := if m.part.Some? then FlushPart(m, m.part.value.last, true) else Effect(m, []);
        if m.part.Some? { FlushKeepsStart(m, st, m.part.value.last, true, n, s); }
        var st1 := L.Run(st, f.steps);
        QuietKeepsStart(st1, L.Unpublish, n, s);
        RunConcat(st, f.steps, [L.Unpublish]);
        RunOne(st1, L.Unpublish);
      }
    case Header(format) =>
      var m1 := Changed(m.(format := format), format);
      FormatLinks(m, st, format);
      ChangedKeepsPart(m, format);
      if m.enabled && IsChanged(m, format) && m1.part.Some? {
        FlushKeepsStart(m1, st, m1.part.value.last, true, n, s);
      }
    case Damaged(_) =>
    case Audio(dts, _) =>
      if Accepts(m, e) { WriteKeepsStart(m, st, dts, SampleOf(e), CanEnd(m, SampleOf(e)), n, s); }
    case Video(dts, _, _, _) =>
      if Accepts(m, e) { WriteKeepsStart(m, st, dts, SampleOf(e), CanEnd(m, SampleOf(e)), n, s); }
  }

  lemma ClosedHasNoPart(m: Mux, st: St)
    requires Linked(m, st) && !m.enabled
    ensures m.part.None?
  {
  }

  lemma ChangedKeepsPart(m: Mux, f: Format)
    ensures Changed(m.(format := f), f).part == m.part
  {
  }

  lemma {:induction false} RunKeepsStart(m: Mux, st: St, es: seq<Event>, n: nat, s: Sample)
    requires Linked(m, st) && Orderly(m, es) && AllInRange(es) && StartsWith(m, st, n, s)
    ensures var r := Play(System(m, st), es); StartsWith(r.mux, r.store, n, s)
    decreases |es|
  {
    hide Linked, Handle, L.Run, InRange, StartsWith;
    if es != [] {
      EventKeepsLinked(m, st, es[0]);
      EventKeepsStart(m, st, es[0], n, s);
      var r := Handle(m, es[0]);
      RunKeepsStart(r.mux, L.Run(st, r.steps), es[1..], n, s);
    }
  }

  /** After the cut the new segment starts with the frame. */
  lemma CutStartsSegment(m: Mux, st: St, e: Event)
    requires Linked(m, st) && Accepts(m, e) && m.part.Some? && Closes(Handle(m, e).steps)
    ensures var r := Handle(m, e); var st' := L.Run(st, r.steps); StartsWith(r.mux, st', st'.nextMsn, SampleOf(e))
  {
    hide L.Ok, AllFit, PartFull, L.Generate, L.Shrink, L.Grown, L.HasOpen, Head;
    var s := SampleOf(e);
    RunOne(st, Handle(m, e).steps[0]);
    AppendNumbers(st, Handle(m, e).steps[0]);
    FlushIsReady(m, st, e.dts, true);
    assert Handle(m, e) == Write(m, e.dts, s, CanEnd(m, s));
  }

  /** The segment behind a cut of the policy, in every orderly run: the frame that made the cut can
      start a segment, and the segment starts with it, whatever happens then. */
  lemma CutSegmentsLead(max: int, es: seq<Event>, e: Event, more: seq<Event>)
    requires Orderly(INITIAL, es) && AllInRange(es) && InRange(e) && AllInRange(more)
    requires var m := Play(System(INITIAL, L.Init(max)), es).mux;
             && Accepts(m, e) && m.part.Some? && Closes(Handle(m, e).steps)
             && Orderly(Handle(m, e).mux, more)
    ensures var s1 := Play(System(INITIAL, L.Init(max)), es);
            var s2 := Next(s1, e);
            var s3 := Play(s2, more);
            Leads(e, s1.mux.part.value.init) && StartsWith(s3.mux, s3.store, s2.store.nextMsn, SampleOf(e))
  {
    hide Linked, Handle, Play, InRange, StartsWith, Accepts, SampleOf, L.Run, Orderly;
    InitialLinked(max);
    RunKeepsLinked(INITIAL, L.Init(max), es);
    var s1 := Play(System(INITIAL, L.Init(max)), es);
    LinkedHasSamples(s1.mux, s1.store);
    EndsExactly(s1.mux, s1.store, e);
    CutStartsSegment(s1.mux, s1.store, e);
    assert e.Publish? ==> !s1.mux.enabled by { Frame(s1.mux, e); }
    EventKeepsLinked(s1.mux, s1.store, e);
    var s2 := Next(s1, e);
    RunKeepsStart(s2.mux, s2.store, more, s2.store.nextMsn, SampleOf(e));
  }

  lemma Frame(m: Mux, e: Event)
    requires Accepts(m, e)
    ensures e.Audio? || e.Video?
  {
  }

  // ----- sequence headers

  /** What the headers so far have told, while the stream was on. */
  datatype Known = Known(live: bool, avc: bytes, aac: bytes)

  function Learn(k: Known, e: Event): Known {
    match e
    case Publish(_, _) => k.(live := true)
    case Unpublish => k.(live := false)
    case Header(f) =>
      if !k.live then k
      else k.(avc := if f.avc.Some? then f.avc.value else k.avc, aac := if f.aac.Some? then f.aac.value else k.aac)
    case _ => k
  }

  function LearnAll(k: Known, es: seq<Event>): Known
    decreases |es|
  {
    if es == [] then k else LearnAll(Learn(k, es[0]), es[1..])
  }

  function KnownOf(m: Mux): Known { Known(m.enabled, m.lastAvc, m.lastAac) }

  lemma CutIsNotLearned(m: Mux, dts: nat, canEnd: bool)
    ensures KnownOf(MaybeCut(m, dts, canEnd).mux) == KnownOf(m)
  {
    hide PartFull;
  }

  lemma EventIsLearned(m: Mux, e: Event)
    ensures KnownOf(Handle(m, e).mux) == Learn(KnownOf(m), e)
  {
    hide MaybeCut, SampleOf, CanEnd;
    if Accepts(m, e) { CutIsNotLearned(m, e.dts, CanEnd(m, SampleOf(e))); }
  }

  lemma {:induction false} RunIsLearned(m: Mux, es: seq<Event>)
    ensures KnownOf(After(m, es)) == LearnAll(KnownOf(m), es)
    decreases |es|
  {
    hide Handle, Learn;
    if es != [] {
      EventIsLearned(m, es[0]);
      RunIsLearned(Handle(m, es[0]).mux, es[1..]);
    }
  }

  predicate IsNews(k: Known, f: Format) {
    (f.avc.Some? && f.avc.value != k.avc) || (f.aac.Some? && f.aac.value != k.aac)
  }

  /** In every run, what a sequence header does while the stream is on: one that tells nothing new does
      nothing, however often it is repeated; one that does closes the segment in progress where its last
      frame is, and the part that the next frame opens is under the new configuration. */
  lemma HeaderExactly(es: seq<Event>, f: Format, next: Event)
    requires Orderly(INITIAL, es)
    ensures var k, m := LearnAll(Known(false, [], []), es), After(INITIAL, es);
            var r := Handle(m, Header(f));
            k.live ==>
              && (!IsNews(k, f) ==> r == Effect(m.(format := f), []))
              && (IsNews(k, f) && m.part.None? ==> r.steps == [])
              && (IsNews(k, f) && m.part.Some? ==>
                    && Closes(r.steps) && r.steps[0].payload.fragment.end == m.part.value.last
                    && r.steps[0].payload.fragment.samples == m.part.value.samples)
              && (IsNews(k, f) && Accepts(r.mux, next) ==>
                    && Handle(r.mux, next).steps == [] && Handle(r.mux, next).mux.part.Some?
                    && Handle(r.mux, next).mux.part.value.init == Some(InitSegment(f.avc, f.aac)))
  {
    hide Handle, LearnAll, After, Orderly, Shape;
    RunIsLearned(INITIAL, es);
    var m := After(INITIAL, es);
    assert Shape(INITIAL) by { NothingOpen(); }
    FramesAreConserved(INITIAL, es);
    if m.enabled { HeaderEffect(m, f, next); }
  }

  lemma NothingOpen()
    ensures Shape(INITIAL)
  {
  }

  lemma HeaderEffect(m: Mux, f: Format, next: Event)
    requires Shape(m) && m.enabled
    ensures var r, news := Handle(m, Header(f)), IsNews(KnownOf(m), f);
            && (!news ==> r == Effect(m.(format := f), []))
            && (news && m.part.None? ==> r.steps == [])
            && (news && m.part.Some? ==>
                  && Closes(r.steps) && r.steps[0].payload.fragment.end == m.part.value.last
                  && r.steps[0].payload.fragment.samples == m.part.value.samples)
            && (news && Accepts(r.mux, next) ==>
                  && Handle(r.mux, next).steps == [] && Handle(r.mux, next).mux.part.Some?
                  && Handle(r.mux, next).mux.part.value.init == Some(InitSegment(f.avc, f.aac)))
  {
    hide MaybeCut, SampleOf, CanEnd, Write;
    var r := Handle(m, Header(f));
    if IsNews(KnownOf(m), f) && Accepts(r.mux, next) { OpensUnder(r.mux, next, f); }
  }

  lemma OpensUnder(m: Mux, e: Event, f: Format)
    requires m.part.None? && m.initDirty && m.format == f && Accepts(m, e)
    ensures Handle(m, e).steps == [] && Handle(m, e).mux.part.Some?
    ensures Handle(m, e).mux.part.value.init == Some(InitSegment(f.avc, f.aac))
  {
  }
}
