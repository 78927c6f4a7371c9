/**
 What the muxer says about its parts: which ones a player can start with, and how fragments are
 numbered. Both hold over every run, whatever the events.
 */
module LlHlsFlags {
  import opened Bytes
  import opened Fmp4
  import opened LlHlsMux
  import L = LlHls

  /** A part can be decoded on its own: its first picture is a keyframe, or it has no picture and
      neither has the stream. */
  predicate StandsAlone(samples: seq<Sample>, init: Option<InitSegment>) {
    var pictures := OfTrack(samples, true);
    if pictures != [] then pictures[0].frameType == 1 else init.None? || init.value.avc.None?
  }

  /** Parts say truly whether they stand alone, and have the track ids of their initialisation segment. */
  predicate Marked(steps: Steps) {
    forall i :: 0 <= i < |steps| && steps[i].Append? ==>
      var p := steps[i].payload;
      && (steps[i].independent <==> StandsAlone(p.fragment.samples, p.init))
      && p.fragment.vid == 1 && p.fragment.aid == if p.init.Some? && p.init.value.avc.Some? then 2 else 1
  }

  /** The muxer's tallies describe its open part and its initialisation segment. */
  predicate Tallied(m: Mux) {
    && m.videoConfigured == (m.init.Some? && m.init.value.avc.Some?)
    && (m.part.Some? ==>
          var p := m.part.value;
          var pictures := OfTrack(p.samples, true);
          && p.init == m.init && p.aid == (if m.videoConfigured then 2 else 1)
          && p.hasVideo == (pictures != [])
             && (pictures != [] ==> p.independent == (pictures[0].frameType == 1)))
  }

  lemma FlushIsMarked(m: Mux, end: nat, close: bool)
    requires Tallied(m) && m.part.Some?
    ensures var f := FlushPart(m, end, close); Tallied(f.mux) && Marked(f.steps)
  {
    hide OfTrack;
  }

  lemma OpenIsTallied(m: Mux, dts: nat)
    requires Tallied(m)
    ensures Tallied(Open(m, dts))
  {
  }

  lemma AddIsTallied(m: Mux, dts: nat, s: Sample)
    requires Tallied(m) && m.part.Some?
    ensures Tallied(AddSample(m, dts, s))
  {
    hide OfTrack;
    OfTrackAppend(m.part.value.samples, s, true);
  }

  lemma CutIsMarked(m: Mux, dts: nat, canEnd: bool)
    requires Tallied(m)
    ensures var c := MaybeCut(m, dts, canEnd); Tallied(c.mux) && Marked(c.steps)
  {
    hide FlushPart, Tallied, PartFull;
    if m.part.Some? {
      FlushIsMarked(m, dts, true);
      FlushIsMarked(m, dts, false);
    }
  }

  lemma WriteIsMarked(m: Mux, dts: nat, s: Sample, canEnd: bool)
    requires Tallied(m)
    ensures var r := Write(m, dts, s, canEnd); Tallied(r.mux) && Marked(r.steps)
  {
    hide MaybeCut, Tallied, Open, AddSample, Marked;
    CutIsMarked(m, dts, canEnd);
    var c := MaybeCut(m, dts, canEnd);
    if c.mux.part.None? { OpenIsTallied(c.mux, dts); }
    AddIsTallied(if c.mux.part.Some? then c.mux else Open(c.mux, dts), dts, s);
  }

  lemma TalliedIgnores(a: Mux, b: Mux)
    requires Tallied(a) && b.part == a.part && b.init == a.init && b.videoConfigured == a.videoConfigured
    ensures Tallied(b)
  {
  }

  lemma EventIsMarked(m: Mux, e: Event)
    requires Tallied(m)
    ensures var r := Handle(m, e); Tallied(r.mux) && Marked(r.steps)
  {
    hide FlushPart, Tallied, Write, StandsAlone;
    match e
    case Publish(_, _) => NothingTallied(m, Handle(m, e).mux);
    case Unpublish =>
      if m.enabled {
        var f := if m.part.Some? then FlushPart(m, m.part.value.last, true) else Effect(m, []);
        if m.part.Some? { FlushIsMarked(m, m.part.value.last, true); }
        TalliedIgnores(f.mux, Handle(m, e).mux);
      }
    case Header(format) =>
      var m2 := Changed(m.(format := format), format);
      TalliedIgnores(m, m.(format := format));
      TalliedIgnores(m, m2);
      if m2.part.Some? { FlushIsMarked(m2, m2.part.value.last, true); }
      var f := if m2.part.Some? then FlushPart(m2, m2.part.value.last, true) else Effect(m2, []);
      TalliedIgnores(f.mux, f.mux.(initDirty := true));
    case Damaged(format) => TalliedIgnores(m, m.(format := format));
    case Audio(dts, _) => WriteIsMarked(m, dts, SampleOf(e), CanEnd(m, SampleOf(e)));
    case Video(dts, _, _, _) => WriteIsMarked(m, dts, SampleOf(e), CanEnd(m, SampleOf(e)));
  }

  lemma NothingTallied(m: Mux, m': Mux)
    requires Tallied(m) && m'.part.None? && m'.init == m.init && m'.videoConfigured == m.videoConfigured
    ensures Tallied(m')
  {
  }

  /** INDEPENDENT is exact: over every run, a part is marked so exactly when it can be decoded on its
      own; and its tracks have the ids that its initialisation segment gives them. */
  lemma {:induction false} IndependentIsExact(m: Mux, es: seq<Event>)
    requires Tallied(m)
    ensures Marked(AllSteps(m, es)) && Tallied(After(m, es))
    decreases |es|
  {
    hide Handle, Tallied, StandsAlone;
    if es != [] {
      EventIsMarked(m, es[0]);
      IndependentIsExact(Handle(m, es[0]).mux, es[1..]);
    }
  }

  /** So it is from the creation of the muxer on. */
  lemma SessionIsMarked(es: seq<Event>)
    ensures Marked(AllSteps(INITIAL, es))
  {
    hide AllSteps, After, Marked;
    InitialTallied();
    IndependentIsExact(INITIAL, es);
  }

  lemma InitialTallied()
    ensures Tallied(INITIAL)
  {
  }

  // ----- fragment numbers

  /** The parts of `steps` are numbered from `n` up to, not including, `next`. */
  predicate Numbered(steps: Steps, n: nat, next: nat)
    decreases |steps|
  {
    if steps == [] then n == next
    else if !steps[0].Append? then Numbered(steps[1..], n, next)
    else steps[0].payload.fragment.sequence == n && Numbered(steps[1..], n + 1, next)
  }

  /** The number of the part in progress, or of the next one. */
  function Number(m: Mux): nat { if m.part.Some? then m.part.value.sequence else m.sequence }

  predicate Counting(m: Mux) {
    && (m.part.Some? ==> m.sequence == m.part.value.sequence + 1 && m.part.value.samples != [])
    && (!m.enabled ==> m.part.None?)
  }

  lemma NumberedSteps(s: L.Step<Piece>, quiet: Steps, n: nat)
    requires s.Append? && s.payload.fragment.sequence == n && forall i :: 0 <= i < |quiet| ==> !quiet[i].Append?
    ensures Numbered([s], n, n + 1) && Numbered([s] + quiet, n, n + 1) && Numbered(quiet, n, n) && Numbered([], n, n)
    decreases |quiet|
  {
    assert [s][1..] == [] && ([s] + quiet)[1..] == quiet;
    QuietIsNumbered(quiet, n);
    QuietIsNumbered(quiet, n + 1);
  }

  lemma {:induction false} QuietIsNumbered(quiet: Steps, n: nat)
    requires forall i :: 0 <= i < |quiet| ==> !quiet[i].Append?
    ensures Numbered(quiet, n, n)
    decreases |quiet|
  {
    if quiet != [] { QuietIsNumbered(quiet[1..], n); }
  }

  lemma {:induction false} NumberedConcat(a: Steps, b: Steps, x: nat, y: nat, z: nat)
    requires Numbered(a, x, y) && Numbered(b, y, z)
    ensures Numbered(a + b, x, z)
    decreases |a|
  {
    if a == [] {
      assert a + b == b;
    } else {
      assert (a + b)[1..] == a[1..] + b;
      NumberedConcat(a[1..], b, if a[0].Append? then x + 1 else x, y, z);
    }
  }

  lemma FlushCounts(m: Mux, end: nat, close: bool)
    requires Counting(m) && m.part.Some?
    ensures var f := FlushPart(m, end, close);
            && |f.steps| == 1 && f.steps[0].Append? && f.steps[0].payload.fragment.sequence == Number(m)
            && f.mux.part.None? && f.mux.sequence == Number(m) + 1 && f.mux.enabled == m.enabled
  {
  }

  lemma WriteCounts(m: Mux, dts: nat, s: Sample, canEnd: bool)
    requires Counting(m) && m.enabled
    ensures var r := Write(m, dts, s, canEnd); Counting(r.mux) && Numbered(r.steps, Number(m), Number(r.mux))
  {
    hide FlushPart, Numbered, PartFull;
    QuietIsNumbered([], Number(m));
    if m.part.Some? {
      FlushCounts(m, dts, true);
      FlushCounts(m, dts, false);
      var f := MaybeCut(m, dts, canEnd);
      if f.steps != [] { NumberedSteps(f.steps[0], [], Number(m)); assert f.steps == [f.steps[0]]; }
    }
  }

  lemma UnpublishCounts(m: Mux)
    requires Counting(m)
    ensures var r := Handle(m, Unpublish); Counting(r.mux) && Numbered(r.steps, Number(m), Number(r.mux))
  {
    hide FlushPart, Numbered;
    QuietIsNumbered([], Number(m));
    QuietIsNumbered([L.Unpublish], Number(m));
    if m.part.Some? {
      FlushCounts(m, m.part.value.last, true);
      var f := FlushPart(m, m.part.value.last, true);
      NumberedSteps(f.steps[0], [L.Unpublish], Number(m));
      assert f.steps == [f.steps[0]];
    } else {
      var none: Steps := [];
      assert none + [L.Unpublish] == [L.Unpublish];
    }
  }

  lemma HeaderCounts(m: Mux, format: Format)
    requires Counting(m)
    ensures var r := Handle(m, Header(format)); Counting(r.mux) && Numbered(r.steps, Number(m), Number(r.mux))
  {
    hide FlushPart, Numbered;
    QuietIsNumbered([], Number(m));
    var m2 := Changed(m.(format := format), format);
    if m2.part.Some? {
      FlushCounts(m2, m2.part.value.last, true);
      var f := FlushPart(m2, m2.part.value.last, true);
      NumberedSteps(f.steps[0], [], Number(m));
      assert f.steps == [f.steps[0]];
    }
  }

  lemma EventCounts(m: Mux, e: Event)
    requires Counting(m) && (e.Publish? ==> !m.enabled)
    ensures var r := Handle(m, e); Counting(r.mux) && Numbered(r.steps, Number(m), Number(r.mux))
  {
    hide Numbered, Write, FlushPart;
    QuietIsNumbered([], Number(m));
    match e
    case Publish(max, cfg) => QuietIsNumbered([L.UpdateConfig(max, cfg), L.Publish], Number(m));
    case Unpublish => UnpublishCounts(m);
    case Header(format) => HeaderCounts(m, format);
    case Damaged(_) =>
    case Audio(dts, _) => if Accepts(m, e) { WriteCounts(m, dts, SampleOf(e), CanEnd(m, SampleOf(e))); }
    case Video(dts, _, _, _) => if Accepts(m, e) { WriteCounts(m, dts, SampleOf(e), CanEnd(m, SampleOf(e))); }
  }

  /** Fragments are numbered consecutively over the whole life of the muxer, across republishing. */
  lemma {:induction false} FragmentsAreNumbered(m: Mux, es: seq<Event>)
    requires Counting(m) && Orderly(m, es)
    ensures Numbered(AllSteps(m, es), Number(m), Number(After(m, es)))
    decreases |es|
  {
    hide Handle, Counting, Numbered, Number;
    if es == [] {
      QuietIsNumbered([], Number(m));
    } else {
      var r := Handle(m, es[0]);
      EventCounts(m, es[0]);
      FragmentsAreNumbered(r.mux, es[1..]);
      NumberedConcat(r.steps, AllSteps(r.mux, es[1..]), Number(m), Number(r.mux), Number(After(m, es)));
    }
  }
}
