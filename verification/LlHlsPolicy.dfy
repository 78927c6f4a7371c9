/**
 The cut policy: how long parts and segments get, and how the decode times of consecutive
 fragments follow each other.
 */
module LlHlsPolicy {
  import opened Bytes
  import opened Fmp4
  import opened LlHlsMux
  import opened LlHlsTiling
  import L = LlHls

  // ----- part durations

  /** Every part written lasts between `low` and `high`; closing parts only have to stay below. */
  predicate Within(steps: Steps, low: int, high: int) {
    forall i :: 0 <= i < |steps| && steps[i].Append? ==>
      0 <= steps[i].duration < high && (steps[i].close || low <= steps[i].duration)
  }

  /** The open part is still short of its target. */
  predicate Short(m: Mux) {
    m.part.Some? ==>
      var p := m.part.value;
      && p.samples != [] && p.start <= p.last && ((p.last - p.start) * 1000 < m.partTarget || p.last == p.start)
  }

  /** Decode times do not go back, and no gap between frames exceeds `gap`. */
  predicate Paced(m: Mux, e: Event, target: int, gap: nat) {
    && (e.Publish? ==> e.cfg.partTarget == target)
    && (m.part.Some? && (e.Audio? || e.Video?) ==> m.part.value.last <= e.dts <= m.part.value.last + gap)
  }

  lemma CutIsShort(m: Mux, dts: nat, canEnd: bool, gap: nat)
    requires Short(m) && m.partTarget > 0
    requires m.part.Some? ==> m.part.value.last <= dts <= m.part.value.last + gap
    ensures var c := MaybeCut(m, dts, canEnd);
            && Within(c.steps, 0, m.partTarget + gap * 1000)
            && (c.mux.part.Some? ==> c.mux == m && (dts - m.part.value.start) * 1000 < m.partTarget)
            && c.mux.partTarget == m.partTarget
  {
  }

  lemma FrameIsShort(m: Mux, dts: nat, s: Sample, canEnd: bool, gap: nat)
    requires Short(m) && m.partTarget > 0
    requires m.part.Some? ==> m.part.value.last <= dts <= m.part.value.last + gap
    ensures var r := Write(m, dts, s, canEnd);
            Within(r.steps, 0, m.partTarget + gap * 1000) && Short(r.mux) && r.mux.partTarget == m.partTarget
  {
    hide MaybeCut, Within;
    CutIsShort(m, dts, canEnd, gap);
  }

  lemma FlushIsShort(m: Mux, high: int)
    requires Short(m) && m.part.Some? && (m.part.value.last - m.part.value.start) * 1000 < high
    ensures var f := FlushPart(m, m.part.value.last, true);
            Within(f.steps, 0, high) && f.mux == m.(part := None, segmentDuration := 0)
  {
  }

  lemma WithinMore(steps: Steps, s: L.Step<Piece>, low: int, high: int)
    requires Within(steps, low, high) && !s.Append?
    ensures Within(steps + [s], low, high)
  {
  }

  lemma QuietIsShort(m: Mux, e: Event, target: int, gap: nat)
    requires Short(m) && target > 0 && (m.enabled ==> m.partTarget == target) && Paced(m, e, target, gap)
    requires !e.Audio? && !e.Video?
    requires !m.enabled ==> m.part.None?
    ensures var r := Handle(m, e);
            && Within(r.steps, 0, target + gap * 1000) && Short(r.mux) && (r.mux.enabled ==> r.mux.partTarget == target)
            && (!r.mux.enabled ==> r.mux.part.None?)
  {
    hide FlushPart, Within;
    NothingWithin(0, target + gap * 1000);
    match e
    case Publish(max, cfg) => TablesWithin(max, cfg, 0, target + gap * 1000);
    case Unpublish =>
      if m.enabled {
        if m.part.Some? { FlushIsShort(m, target + gap * 1000); }
        var f := if m.part.Some? then FlushPart(m, m.part.value.last, true) else Effect(m, []);
        WithinMore(f.steps, L.Unpublish, 0, target + gap * 1000);
      }
    case Header(format) =>
      if m.enabled && IsChanged(m, format) && m.part.Some? {
        FlushIsShort(Changed(m.(format := format), format), target + gap * 1000);
      }
    case Damaged(_) =>
  }

  lemma NothingWithin(low: int, high: int)
    ensures Within([], low, high)
  {
  }

  lemma TablesWithin(max: int, cfg: L.Config, low: int, high: int)
    ensures Within([L.UpdateConfig(max, cfg), L.Publish], low, high)
  {
  }

  lemma EventIsShort(m: Mux, e: Event, target: int, gap: nat)
    requires Short(m) && target > 0 && (m.enabled ==> m.partTarget == target) && Paced(m, e, target, gap)
    requires !m.enabled ==> m.part.None?
    ensures var r := Handle(m, e);
            && Within(r.steps, 0, target + gap * 1000) && Short(r.mux) && (r.mux.enabled ==> r.mux.partTarget == target)
            && (!r.mux.enabled ==> r.mux.part.None?)
  {
    hide Write, Short, FlushPart;
    if Accepts(m, e) {
      var s := SampleOf(e);
      FrameIsShort(m, e.dts, s, CanEnd(m, s), gap);
      WriteKeepsEnabled(m, e.dts, s, CanEnd(m, s));
    } else if !e.Audio? && !e.Video? {
      QuietIsShort(m, e, target, gap);
    }
  }

  lemma WriteKeepsEnabled(m: Mux, dts: nat, s: Sample, canEnd: bool)
    ensures Write(m, dts, s, canEnd).mux.enabled == m.enabled
  {
  }

  predicate PacedRun(m: Mux, es: seq<Event>, target: int, gap: nat)
    decreases |es|
  {
    es == [] || (Paced(m, es[0], target, gap) && PacedRun(Handle(m, es[0]).mux, es[1..], target, gap))
  }

  /** Over any run with nondecreasing decode times, every part is shorter than the part target plus
      the largest gap between frames. */
  lemma {:induction false} PartsAreShort(m: Mux, es: seq<Event>, target: int, gap: nat)
    requires Short(m) && target > 0 && (m.enabled ==> m.partTarget == target) && PacedRun(m, es, target, gap)
    requires !m.enabled ==> m.part.None?
    ensures Within(AllSteps(m, es), 0, target + gap * 1000)
    decreases |es|
  {
    if es != [] {
      hide Handle, Short, Paced;
      EventIsShort(m, es[0], target, gap);
      PartsAreShort(Handle(m, es[0]).mux, es[1..], target, gap);
    }
  }

  // ----- evenly spaced frames

  predicate Even(m: Mux, e: Event, target: int, gap: nat) {
    && (e.Publish? ==> e.cfg.partTarget == target)
    && (m.part.Some? && (e.Audio? || e.Video?) ==> e.dts == m.part.value.last + gap)
  }

  /** The open part holds one frame, or its last frame did not fill it. */
  predicate Unfilled(m: Mux, gap: nat) {
    m.part.Some? ==>
      var p := m.part.value;
      p.samples != [] && p.start <= p.last && (p.last == p.start || !PartFull(m, (p.last - p.start) * 1000, gap * 1000))
  }

  lemma EvenCut(m: Mux, dts: nat, canEnd: bool, gap: nat)
    requires Unfilled(m, gap) && m.partTarget > 0 && gap * 1000 * 100 <= 15 * m.partTarget
    requires m.part.Some? ==> dts == m.part.value.last + gap
    ensures var c := MaybeCut(m, dts, canEnd);
            && Within(c.steps, m.partTarget * 85 / 100, m.partTarget + 1)
            && (c.mux.part.Some? ==> c.mux == m && !PartFull(m, (dts - m.part.value.start) * 1000, gap * 1000))
            && c.mux.partTarget == m.partTarget
  {
  }

  lemma EvenFrame(m: Mux, dts: nat, s: Sample, canEnd: bool, gap: nat)
    requires Unfilled(m, gap) && m.partTarget > 0 && gap * 1000 * 100 <= 15 * m.partTarget
    requires m.part.Some? ==> dts == m.part.value.last + gap
    ensures var r := Write(m, dts, s, canEnd);
            Within(r.steps, m.partTarget * 85 / 100, m.partTarget + 1) && Unfilled(r.mux, gap)
                && r.mux.partTarget == m.partTarget
  {
    hide MaybeCut, Within;
    EvenCut(m, dts, canEnd, gap);
  }

  lemma EvenEvent(m: Mux, e: Event, target: int, gap: nat)
    requires Unfilled(m, gap) && target > 0 && gap * 1000 * 100 <= 15 * target
    requires (m.enabled ==> m.partTarget == target) && Even(m, e, target, gap) && Shape(m)
    ensures var r := Handle(m, e);
            && Within(r.steps, target * 85 / 100, target + 1) && Unfilled(r.mux, gap)
            && (r.mux.enabled ==> r.mux.partTarget == target) && Shape(r.mux)
  {
    hide Write, FlushPart, Within, PartFull;
    var low, high := target * 85 / 100, target + 1;
    NothingWithin(low, high);
    match e
    case Publish(max, cfg) => TablesWithin(max, cfg, low, high);
    case Unpublish =>
      if m.enabled {
        if m.part.Some? { EvenFlush(m, gap); }
        var f := if m.part.Some? then FlushPart(m, m.part.value.last, true) else Effect(m, []);
        WithinMore(f.steps, L.Unpublish, low, high);
      }
    case Header(format) =>
      EvenKeeps(m, m.(format := format), gap);
      EvenKeeps(m, Changed(m.(format := format), format), gap);
      if m.enabled && IsChanged(m, format) && m.part.Some? { EvenFlush(Changed(m.(format := format), format), gap); }
    case Damaged(format) => EvenKeeps(m, m.(format := format), gap);
    case Audio(dts, _) => if Accepts(m, e) { EvenWrite(m, e, gap); }
    case Video(dts, _, _, _) => if Accepts(m, e) { EvenWrite(m, e, gap); }
  }

  lemma EvenFlush(m: Mux, gap: nat)
    requires Unfilled(m, gap) && m.part.Some? && m.partTarget > 0 && gap * 1000 * 100 <= 15 * m.partTarget
    ensures var f := FlushPart(m, m.part.value.last, true);
            Within(f.steps, m.partTarget * 85 / 100, m.partTarget + 1)
                && f.mux == m.(part := None, segmentDuration := 0)
  {
  }

  lemma EvenKeeps(m: Mux, m': Mux, gap: nat)
    requires Unfilled(m, gap) && m'.part == m.part && m'.partTarget == m.partTarget
    ensures Unfilled(m', gap)
  {
  }

  lemma EvenWrite(m: Mux, e: Event, gap: nat)
    requires Unfilled(m, gap) && m.partTarget > 0 && gap * 1000 * 100 <= 15 * m.partTarget
    requires Accepts(m, e) && (m.part.Some? ==> e.dts == m.part.value.last + gap) && Shape(m)
    ensures var s := SampleOf(e);
            var r := Write(m, e.dts, s, CanEnd(m, s));
            && Within(r.steps, m.partTarget * 85 / 100, m.partTarget + 1) && Unfilled(r.mux, gap)
            && r.mux.partTarget == m.partTarget && r.mux.enabled && Shape(r.mux)
  {
    hide Write, Within, Unfilled, PartFull;
    var s := SampleOf(e);
    EvenFrame(m, e.dts, s, CanEnd(m, s), gap);
    WriteKeepsEnabled(m, e.dts, s, CanEnd(m, s));
    WriteConserves(m, e.dts, s, CanEnd(m, s));
  }

  predicate EvenRun(m: Mux, es: seq<Event>, target: int, gap: nat)
    decreases |es|
  {
    es == [] || (Even(m, es[0], target, gap) && EvenRun(Handle(m, es[0]).mux, es[1..], target, gap))
  }

  /** With a constant frame spacing of at most 15% of the target, every part lasts at most the
      target, and every part that does not close its segment at least 85% of it. */
  lemma {:induction false} EvenPartsFill(m: Mux, es: seq<Event>, target: int, gap: nat)
    requires Unfilled(m, gap) && target > 0 && gap * 1000 * 100 <= 15 * target && Shape(m)
    requires (m.enabled ==> m.partTarget == target) && EvenRun(m, es, target, gap)
    ensures Within(AllSteps(m, es), target * 85 / 100, target + 1)
    decreases |es|
  {
    if es != [] {
      hide Handle, Unfilled, Even, Shape;
      EvenEvent(m, es[0], target, gap);
      EvenPartsFill(Handle(m, es[0]).mux, es[1..], target, gap);
    }
  }

  // ----- segment durations

  function Samples(parts: seq<PartOf>): seq<Sample> {
    if parts == [] then [] else Samples(parts[..|parts| - 1]) + L.Last(parts).payload.fragment.samples
  }

  /** The samples of the segment in progress, stored and not yet stored. */
  function InProgress(m: Mux, st: St): seq<Sample> {
    (if L.HasOpen(st) then Samples(L.Last(st.segments).parts) else []) + Unflushed(m)
  }

  /** A frame that can end a segment: a keyframe, or any frame where the stream has no video. */
  predicate CouldEnd(m: Mux, s: Sample) { if s.video then s.frameType == 1 else !m.videoConfigured }

  /** The running duration counts from the first sample of the segment, and no frame in it could
      have ended it before. */
  predicate Young(m: Mux, st: St) {
    m.part.Some? ==>
      var all := InProgress(m, st);
      && all != []
      && m.segmentDuration == (m.part.value.start - all[0].dts) * 1000
      && forall i :: 0 <= i < |all| && CouldEnd(m, all[i]) ==> (all[i].dts - all[0].dts) * 1000 < m.segmentTarget
  }

  /** A frame closes the segment under the policy: the segment then lasts at least the segment
      target, and less than the target plus the time since any frame in it that could have ended
      it, in particular since its last keyframe. */
  lemma ClosedSegmentBounds(m: Mux, st: St, e: Event, i: nat)
    requires Linked(m, st) && Young(m, st) && Accepts(m, e) && e.dts < TWO32
    requires var r := Handle(m, e); |r.steps| == 1 && r.steps[0].Append? && r.steps[0].close
    requires i < |InProgress(m, st)| && CouldEnd(m, InProgress(m, st)[i])
    ensures var total := OpenDuration(st) + Handle(m, e).steps[0].duration;
            && m.segmentTarget <= total < m.segmentTarget + (e.dts - InProgress(m, st)[i].dts) * 1000
            && total == (e.dts - InProgress(m, st)[0].dts) * 1000
  {
    hide L.Ok, AllFit, PartOk, InProgress;
    var s := SampleOf(e);
    assert Handle(m, e) == Write(m, e.dts, s, CanEnd(m, s));
    assert m.part.Some?;
  }

  /** The duration stated above is that of the completed segment in the storage. */
  lemma ClosedSegmentIsStored(st: St, s: L.Step<Piece>)
    requires L.Ok(st) && s.Append? && s.close
    ensures var g := L.Grown(st, s);
            g != [] && L.Last(g).duration == OpenDuration(st) + s.duration && L.Last(g).completed
  {
    hide L.Ok;
    L.GrownOk(st, s);
  }

  lemma SamplesAppend(parts: seq<PartOf>, p: PartOf)
    ensures Samples(parts + [p]) == Samples(parts) + p.payload.fragment.samples
  {
    assert (parts + [p])[..|parts|] == parts;
  }

  /** The segment in progress after a part that does not close it. */
  lemma OpenEnd(st: St, s: L.Step<Piece>)
    requires s.Append? && !s.close
    ensures var st' := L.Apply(st, s);
            L.HasOpen(st') && L.Last(st'.segments).parts
                == Target(st).parts + [L.Part(|Target(st).parts|, s.duration, s.independent, s.payload)]
  {
    hide L.Generate;
  }

  /** Flushing moves samples into the storage; it loses none and keeps their order. */
  lemma FlushMoves(m: Mux, st: St, end: nat)
    requires m.part.Some? && m.part.value.samples != []
    ensures var f := FlushPart(m, end, false); InProgress(f.mux, L.Run(st, f.steps)) == InProgress(m, st)
  {
    hide L.Apply, L.Run, Samples;
    var f := FlushPart(m, end, false);
    var s := f.steps[0];
    RunOne(st, s);
    OpenEnd(st, s);
    SamplesAppend(Target(st).parts, L.Part(|Target(st).parts|, s.duration, s.independent, s.payload));
    NoSamples();
    var all := Samples(Target(st).parts) + Unflushed(m);
    assert all + [] == all;
  }

  lemma NoSamples()
    ensures Samples([]) == []
  {
  }

  lemma AddedSample(m: Mux, st: St, dts: nat, s: Sample)
    requires m.part.Some?
    ensures InProgress(AddSample(m, dts, s), st) == InProgress(m, st) + [s]
  {
    hide Samples;
    Assoc(if L.HasOpen(st) then Samples(L.Last(st.segments).parts) else [], Unflushed(m), [s]);
  }

  lemma OpenedPart(m: Mux, st: St, dts: nat)
    requires m.part.None?
    ensures InProgress(Open(m, dts), st) == InProgress(m, st)
  {
  }

  /** A frame extends the segment in progress, or starts a new one. */
  lemma FrameExtends(m: Mux, st: St, dts: nat, s: Sample, canEnd: bool)
    requires Linked(m, st) && m.enabled && s.dts == dts
    ensures var r := Write(m, dts, s, canEnd);
            var close := m.part.None? || (canEnd
                && m.segmentDuration + (dts - m.part.value.start) * 1000 >= m.segmentTarget);
            InProgress(r.mux, L.Run(st, r.steps)) == (if close then [] else InProgress(m, st)) + [s]
  {
    hide Linked, InProgress, FlushPart, L.Run, PartFull, Open, AddSample;
    RunNone(st);
    var c := MaybeCut(m, dts, canEnd);
    if m.part.None? {
      ReadyWhenClosed(m, st, dts);
      NothingInProgress(m, st);
      OpenedPart(m, st, dts);
      AddedSample(Open(m, dts), st, dts, s);
    } else {
      LinkedHasSamples(m, st);
      FlushWrites(m, dts, true);
      if c == Effect(m, []) {
        AddedSample(m, st, dts, s);
      } else {
        var close := canEnd && m.segmentDuration + (dts - m.part.value.start) * 1000 >= m.segmentTarget;
        FlushIsReady(m, st, dts, close);
        FlushShape(m, dts, close);
        var st1 := L.Run(st, c.steps);
        if close { NothingInProgress(c.mux, st1); } else { FlushMoves(m, st, dts); }
        OpenedPart(c.mux, st1, dts);
        AddedSample(Open(c.mux, dts), st1, dts, s);
      }
    }
  }

  lemma FlushWrites(m: Mux, end: nat, close: bool)
    requires m.part.Some? && m.part.value.samples != []
    ensures FlushPart(m, end, close).steps != []
  {
  }

  lemma NothingInProgress(m: Mux, st: St)
    requires m.part.None? && !L.HasOpen(st)
    ensures InProgress(m, st) == []
  {
  }

  /** Frames keep the segment in progress young. */
  lemma FrameStaysYoung(m: Mux, st: St, e: Event)
    requires Linked(m, st) && Young(m, st) && Accepts(m, e) && e.dts < TWO32 && m.segmentTarget > 0
    ensures var r := Handle(m, e); Young(r.mux, L.Run(st, r.steps))
  {
    hide Linked, InProgress, L.Run, Write;
    var s, r := SampleOf(e), Handle(m, e);
    assert r == Write(m, e.dts, s, CanEnd(m, s)) && s.dts == e.dts;
    FrameExtends(m, st, e.dts, s, CanEnd(m, s));
    FrameKeepsLinked(m, st, e.dts, s, CanEnd(m, s));
    var all, all' := InProgress(m, st), InProgress(r.mux, L.Run(st, r.steps));
    WriteBookkeeping(m, st, e.dts, s, CanEnd(m, s));
  }

  lemma WriteBookkeeping(m: Mux, st: St, dts: nat, s: Sample, canEnd: bool)
    requires Linked(m, st) && m.enabled
    ensures var m' := Write(m, dts, s, canEnd).mux;
            && m'.part.Some? && m'.segmentTarget == m.segmentTarget
            && (m.part.Some? ==> m'.videoConfigured == m.videoConfigured)
            && (m.part.None? ==> m'.segmentDuration == 0 && m'.part.value.start == dts)
            && (m.part.Some? ==>
                  var total := m.segmentDuration + (dts - m.part.value.start) * 1000;
                  if canEnd && total >= m.segmentTarget then m'.segmentDuration == 0 && m'.part.value.start == dts
                  else m'.segmentDuration + (dts - m'.part.value.start) * 1000 == total)
  {
    hide L.Ok, AllFit, PartOk, PartFull;
  }

  /** The configured segment target is positive. */
  predicate Positive(e: Event) { e.Publish? ==> e.cfg.segmentTarget > 0 }

  predicate AllPositive(es: seq<Event>) { forall i :: 0 <= i < |es| ==> Positive(es[i]) }

  lemma EventStaysYoung(m: Mux, st: St, e: Event)
    requires Linked(m, st) && Young(m, st) && InRange(e) && Positive(e) && (e.Publish? ==> !m.enabled)
    requires m.enabled ==> m.segmentTarget > 0
    ensures var r := Handle(m, e); Young(r.mux, L.Run(st, r.steps)) && (r.mux.enabled ==> r.mux.segmentTarget > 0)
  {
    hide Linked, InProgress, L.Run;
    RunNone(st);
    if Accepts(m, e) {
      FrameStaysYoung(m, st, e);
      WriteTarget(m, e);
    } else if e.Header? && m.part.Some? {
      LinkedHasSamples(m, st);
      HeaderSameOrClosed(m, e.format);
      FormatKeepsYoung(m, st, e.format);
    } else if e.Unpublish? && m.part.Some? {
      LinkedHasSamples(m, st);
    } else if e.Damaged? {
      FormatKeepsYoung(m, st, e.format);
    }
  }

  lemma WriteTarget(m: Mux, e: Event)
    requires Accepts(m, e)
    ensures Handle(m, e).mux.segmentTarget == m.segmentTarget && Handle(m, e).mux.enabled
  {
    hide MaybeCut;
    CutTarget(m, e.dts, CanEnd(m, SampleOf(e)));
  }

  lemma CutTarget(m: Mux, dts: nat, canEnd: bool)
    ensures var c := MaybeCut(m, dts, canEnd).mux; c.segmentTarget == m.segmentTarget && c.enabled == m.enabled
  {
    hide PartFull;
  }

  lemma HeaderSameOrClosed(m: Mux, f: Format)
    requires m.part.Some? && m.part.value.samples != []
    ensures var r := Handle(m, Header(f)); r == Effect(m.(format := f), []) || r.mux.part.None?
    ensures Handle(m, Header(f)).mux.segmentTarget == m.segmentTarget
  {
  }

  lemma FormatKeepsYoung(m: Mux, st: St, f: Format)
    requires Young(m, st)
    ensures Young(m.(format := f), st)
  {
    hide Samples;
    assert InProgress(m.(format := f), st) == InProgress(m, st);
  }

  /** Segment durations over every orderly run, whatever the headers: the segment in progress stays
      young, so the bounds of ClosedSegmentBounds hold at every cut. */
  lemma {:induction false} RunStaysYoung(m: Mux, st: St, es: seq<Event>)
    requires Linked(m, st) && Young(m, st) && Orderly(m, es) && AllInRange(es) && AllPositive(es)
    requires m.enabled ==> m.segmentTarget > 0
    ensures var s := Play(System(m, st), es);
            Linked(s.mux, s.store) && Young(s.mux, s.store) && (s.mux.enabled ==> s.mux.segmentTarget > 0)
    decreases |es|
  {
    hide Linked, Young, Handle, L.Run, InRange, Positive;
    if es != [] {
      EventKeepsLinked(m, st, es[0]);
      EventStaysYoung(m, st, es[0]);
      var r := Handle(m, es[0]);
      RunStaysYoung(r.mux, L.Run(st, r.steps), es[1..]);
    }
  }

  /** Every segment closed by the policy, in every orderly run: it lasts at least the segment target,
      and less than the target plus the time between the frame that closes it and any frame in it
      that could have closed it, in particular its last keyframe. */
  lemma PolicySegmentBounds(m: Mux, st: St, es: seq<Event>, e: Event, i: nat)
    requires Linked(m, st) && Young(m, st) && Orderly(m, es) && AllInRange(es) && AllPositive(es)
    requires m.enabled ==> m.segmentTarget > 0
    requires var s := Play(System(m, st), es);
             && Accepts(s.mux, e) && e.dts < TWO32
             && var r := Handle(s.mux, e);
             && |r.steps| == 1 && r.steps[0].Append? && r.steps[0].close
             && i < |InProgress(s.mux, s.store)| && CouldEnd(s.mux, InProgress(s.mux, s.store)[i])
    ensures var s := Play(System(m, st), es);
            var g := L.Grown(s.store, Handle(s.mux, e).steps[0]);
            var since := e.dts - InProgress(s.mux, s.store)[i].dts;
            && g != [] && L.Last(g).completed
            && s.mux.segmentTarget <= L.Last(g).duration < s.mux.segmentTarget + since * 1000
  {
    hide Linked, Young, Handle, Orderly, AllInRange, AllPositive, InProgress, CouldEnd, L.Grown, Play;
    RunStaysYoung(m, st, es);
    var s := Play(System(m, st), es);
    LinkedOk(s.mux, s.store);
    ClosedSegmentBounds(s.mux, s.store, e, i);
    ClosedSegmentIsStored(s.store, Handle(s.mux, e).steps[0]);
  }

  lemma LinkedOk(m: Mux, st: St)
    requires Linked(m, st)
    ensures L.Ok(st)
  {
  }

  // ----- decode times across fragments

  function Sum(ss: seq<Sample>, end: nat, previous: int): int {
    if ss == [] then 0 else Duration(ss, end, previous) + Sum(ss[1..], end, Duration(ss, end, previous))
  }

  lemma {:induction false} SumTelescopes(ss: seq<Sample>, end: nat, previous: int)
    requires ss != [] && L.Last(ss).dts < end
    ensures Sum(ss, end, previous) == end - ss[0].dts
    decreases |ss|
  {
    if |ss| > 1 {
      SumTelescopes(ss[1..], end, Duration(ss, end, previous));
    } else {
      assert Sum(ss[1..], end, Duration(ss, end, previous)) == 0;
    }
  }

  predicate OneTrack(ss: seq<Sample>, video: bool) { forall i :: 0 <= i < |ss| ==> ss[i].video == video }

  lemma {:induction false} OneTrackIsAll(ss: seq<Sample>, video: bool)
    requires OneTrack(ss, video)
    ensures OfTrack(ss, video) == ss && OfTrack(ss, !video) == []
  {
    if ss != [] {
      OneTrackIsAll(ss[1..], video);
      assert ss == [ss[0]] + ss[1..];
    }
  }

  /** The fragments of a run have one track each; the first starts at decode time `at`, each further
      one where the sample durations of the one before it end, and they leave off at `next`. */
  predicate Chained(steps: Steps, video: bool, at: int, next: int)
    decreases |steps|
  {
    if steps == [] then at == next
    else
      && steps[0].Append?
      && var f := steps[0].payload.fragment;
      && OfTrack(f.samples, !video) == [] && OfTrack(f.samples, video) != [] && OfTrack(f.samples, video)[0].dts == at
      && Chained(steps[1..], video, at + Sum(OfTrack(f.samples, video), f.end, 0), next)
  }

  /** The open part, if there is one, holds one track from `start` to `last`. */
  predicate Lone(m: Mux, video: bool) {
    m.part.Some? ==>
      var p := m.part.value;
      p.samples != [] && p.samples[0].dts == p.start && L.Last(p.samples).dts == p.last && OneTrack(p.samples, video)
  }

  /** Frames of one track, each later than the one before it. */
  predicate Rising(m: Mux, es: seq<Event>, video: bool)
    decreases |es|
  {
    es == [] || (&& Accepts(m, es[0]) && es[0].Video? == video && es[0].dts < TWO32
                 && (m.part.Some? ==> m.part.value.last < es[0].dts)
                 && Rising(Handle(m, es[0]).mux, es[1..], video))
  }

  function Start(m: Mux, e: Event): nat
    requires e.Audio? || e.Video?
  {
    if m.part.Some? then m.part.value.start else e.dts
  }

  lemma FrameChains(m: Mux, e: Event, video: bool)
    requires Accepts(m, e) && e.Video? == video && e.dts < TWO32 && Lone(m, video)
    requires m.part.Some? ==> m.part.value.last < e.dts
    ensures var r := Handle(m, e);
            && Lone(r.mux, video) && r.mux.part.Some?
            && Chained(r.steps, video, Start(m, e), r.mux.part.value.start)
  {
    hide PartFull, Chained, OneTrack;
    var r := Handle(m, e);
    var s := SampleOf(e);
    assert r == Write(m, e.dts, s, CanEnd(m, s));
    NoneChained(video, Start(m, e));
    TrackGrows([], s, video);
    if m.part.Some? {
      TrackGrows(m.part.value.samples, s, video);
      if r.steps != [] { PartChained(r.steps[0], video); }
    }
  }

  lemma TrackGrows(ss: seq<Sample>, s: Sample, video: bool)
    requires s.video == video
    ensures OneTrack(ss, video) ==> OneTrack(ss + [s], video)
    ensures ss == [] ==> OneTrack(ss, video)
  {
  }

  lemma NoneChained(video: bool, at: int)
    ensures Chained([], video, at, at)
  {
  }

  lemma PartChained(s: L.Step<Piece>, video: bool)
    requires s.Append?
    requires var f := s.payload.fragment; f.samples != [] && L.Last(f.samples).dts < f.end && OneTrack(f.samples, video)
    ensures Chained([s], video, s.payload.fragment.samples[0].dts, s.payload.fragment.end)
  {
    hide Sum, OfTrack;
    var f := s.payload.fragment;
    OneTrackIsAll(f.samples, video);
    SumTelescopes(f.samples, f.end, 0);
    assert [s][1..] == [];
  }

  lemma {:induction false} ChainedConcat(a: Steps, b: Steps, video: bool, x: int, y: int, z: int)
    requires Chained(a, video, x, y) && Chained(b, video, y, z)
    ensures Chained(a + b, video, x, z)
    decreases |a|
  {
    hide Sum, OfTrack;
    if a == [] {
      assert a + b == b;
    } else {
      var f := a[0].payload.fragment;
      ChainedConcat(a[1..], b, video, x + Sum(OfTrack(f.samples, video), f.end, 0), y, z);
      assert (a + b)[1..] == a[1..] + b;
    }
  }

  /** In a stream with one track and strictly increasing times, across every cut the policy makes,
      the decode time of each fragment is that of the one before it plus its sample durations. */
  lemma {:induction false} DecodeTimesContinue(m: Mux, es: seq<Event>, video: bool)
    requires es != [] && Lone(m, video) && Rising(m, es, video)
    ensures After(m, es).part.Some?
    ensures Chained(AllSteps(m, es), video, Start(m, es[0]), After(m, es).part.value.start)
    decreases |es|
  {
    hide Handle, Lone, Chained, Accepts;
    var r, rest := Handle(m, es[0]), es[1..];
    assert es[0].Audio? || es[0].Video? by { AcceptsFrames(m, es[0]); }
    FrameChains(m, es[0], video);
    if rest == [] {
      assert r.steps + [] == r.steps;
    } else {
      AcceptsFrames(r.mux, rest[0]);
      DecodeTimesContinue(r.mux, rest, video);
      ChainedConcat(r.steps, AllSteps(r.mux, rest), video, Start(m, es[0]), r.mux.part.value.start,
          After(m, es).part.value.start);
    }
  }

  lemma AcceptsFrames(m: Mux, e: Event)
    requires Accepts(m, e)
    ensures e.Audio? || e.Video?
  {
  }
}
