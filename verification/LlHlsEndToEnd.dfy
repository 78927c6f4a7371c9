/**
 From frames to bytes and back: what a player that demuxes the stored parts of a stream sees.
 */
module LlHlsEndToEnd {
  import opened Bytes
  import opened Fmp4
  import opened Fmp4Encoder
  import opened LlHlsMux
  import opened LlHlsTiling
  import opened LlHlsFlags
  import opened LlHlsIsolation
  import L = LlHls

  /** The encoder as the muxer drives it for one part: open, fix the audio track, add the samples as
      they come, flush at the end. Its bytes are those of the fragment. */
  method EncodePart(f: Fragment) returns (b: bytes)
    requires f.samples != [] && f.aid != 0
    ensures b == f.Bytes()
  {
    hide Fragment.Moof, Fragment.Mdat, Styp, OfTrack, Payload;
    var encoder := new SegmentEncoder(f.sequence, f.vid);
    encoder.SetAudioTid(f.aid);
    var i := 0;
    while i < |f.samples|
      invariant i <= |f.samples| && encoder.Valid() && encoder.samples == f.samples[..i] && encoder.written == Styp()
      invariant encoder.sequenceNumber == f.sequence && encoder.trackId == f.vid && encoder.audioTid == f.aid
    {
      encoder.WriteSample(f.samples[i]);
      i := i + 1;
    }
    assert f.samples[..i] == f.samples;
    var ok := encoder.Flush(f.end);
    assert f.Bytes() == Styp() + (f.Moof() + f.Mdat()) by { BytesAre(f); }
    return encoder.written;
  }

  lemma BytesAre(f: Fragment)
    ensures f.Bytes() == Styp() + (f.Moof() + f.Mdat())
  {
    hide Fragment.Moof, Fragment.Mdat, Styp;
    Assoc(Styp(), f.Moof(), f.Mdat());
  }

  // ----- a player

  function FramesIn(ts: seq<Track>, tid: nat): seq<Frame> {
    if ts == [] then [] else (if ts[0].tid == tid then ts[0].frames else []) + FramesIn(ts[1..], tid)
  }

  /** The frames of one media type that a player finds in a part, knowing the initialisation segment:
      a lone track has id 1, with both video has id 1 and audio id 2. */
  function Watched(p: Piece, video: bool): Option<seq<Frame>> {
    if Config(p.init, video).None? then Some([])
    else
      match Demux(p.fragment.Bytes())
      case None => None
      case Some(c) => Some(FramesIn(c.tracks, if video || p.init.value.avc.None? then 1 else 2))
  }

  function Shots(fs: seq<Frame>): seq<Shot> {
    if fs == [] then [] else [fs[0].shot] + Shots(fs[1..])
  }

  /** The same over all parts written, without the durations. */
  function WatchedAll(steps: Steps, video: bool): Option<seq<Shot>>
    decreases |steps|
  {
    if steps == [] then Some([])
    else if !steps[0].Append? then WatchedAll(steps[1..], video)
    else
      match (Watched(steps[0].payload, video), WatchedAll(steps[1..], video))
      case (Some(a), Some(b)) => Some(Shots(a) + b)
      case _ => None
  }

  function ShotsOf(ss: seq<Sample>): seq<Shot> {
    if ss == [] then [] else [ShotOf(ss[0])] + ShotsOf(ss[1..])
  }

  lemma {:induction false} ShotsAre(ss: seq<Sample>, fs: seq<Frame>)
    requires |fs| == |ss| && forall i :: 0 <= i < |ss| ==> fs[i].shot == ShotOf(ss[i])
    ensures Shots(fs) == ShotsOf(ss)
  {
    if ss != [] { ShotsAre(ss[1..], fs[1..]); }
  }

  /** The part can be written and read: sizes fit their fields, times and offsets are in range. */
  predicate Readable(f: Fragment) { f.Ok() && TrackFits(f.Video(), f.end) && TrackFits(f.Audio(), f.end) }

  predicate AllReadable(steps: Steps) {
    forall i :: 0 <= i < |steps| && steps[i].Append? ==> Readable(steps[i].payload.fragment)
  }

  lemma ExpectedFrames(f: Fragment, video: bool)
    requires f.vid != f.aid
    ensures FramesIn(Expected(f).tracks, if video then f.vid else f.aid) == FramesOf(OfTrack(f.samples, video), f.end)
  {
    hide FramesOf, OfTrack;
    var ts := Expected(f).tracks;
    var tid := if video then f.vid else f.aid;
    NoFramesIn(tid);
    if f.Video() != [] && f.Audio() != [] {
      assert ts[1..] == [ts[1]] && ts[1..][1..] == [];
      assert FramesIn(ts[1..], tid) == if video then [] else FramesOf(f.Audio(), f.end);
    } else if f.Video() != [] || f.Audio() != [] {
      assert ts == [ts[0]] && ts[1..] == [];
    }
    var fs := FramesOf(OfTrack(f.samples, video), f.end);
    assert fs + [] == fs && [] + fs == fs;
  }

  lemma NoFramesIn(tid: nat)
    ensures FramesIn([], tid) == [] && forall end :: FramesOf([], end) == []
  {
  }

  lemma ExpectedAudio(f: Fragment)
    requires f.Video() == []
    ensures FramesIn(Expected(f).tracks, f.aid) == FramesOf(f.Audio(), f.end)
  {
    hide FramesOf, OfTrack;
    var ts := Expected(f).tracks;
    NoFramesIn(f.aid);
    if f.Audio() != [] { assert ts == [ts[0]] && ts[1..] == []; }
    var fs := FramesOf(f.Audio(), f.end);
    assert fs + [] == fs;
  }

  /** One part: the player finds exactly the samples of the type, in order. */
  lemma PartIsWatched(p: Piece, video: bool)
    requires Readable(p.fragment) && TracksFit(p.fragment.samples, p.init)
    requires p.fragment.vid == VIDEO_ID && p.fragment.aid == p.init.value.AudioId()
    ensures Watched(p, video) == Some(FramesOf(OfTrack(p.fragment.samples, video), p.fragment.end))
  {
    hide Demux, FramesOf, OfTrack, TrackFits, FramesIn, Fragment.Bytes, Fragment.Ok;
    var f := p.fragment;
    FragmentRoundTrip(f);
    NoFramesIn(0);
    if Config(p.init, video).None? {
      NoneOf(f.samples, video);
    } else if p.init.value.avc.Some? {
      ExpectedFrames(f, video);
    } else {
      NoneOf(f.samples, true);
      ExpectedAudio(f);
    }
  }

  lemma {:induction false} ShotsOfConcat(a: seq<Sample>, b: seq<Sample>)
    ensures ShotsOf(a + b) == ShotsOf(a) + ShotsOf(b)
  {
    if a == [] {
      assert a + b == b;
    } else {
      ShotsOfConcat(a[1..], b);
      assert (a + b)[1..] == a[1..] + b;
      Assoc([ShotOf(a[0])], ShotsOf(a[1..]), ShotsOf(b));
    }
  }

  lemma {:induction false} OfTrackConcat(a: seq<Sample>, b: seq<Sample>, video: bool)
    ensures OfTrack(a + b, video) == OfTrack(a, video) + OfTrack(b, video)
  {
    if a == [] {
      assert a + b == b;
    } else {
      OfTrackConcat(a[1..], b, video);
      assert (a + b)[1..] == a[1..] + b;
      Assoc(if a[0].video == video then [a[0]] else [], OfTrack(a[1..], video), OfTrack(b, video));
    }
  }

  /** All parts of a run: the player finds exactly the samples written, per media type and in order. */
  lemma {:induction false} PartsAreWatched(steps: Steps, video: bool)
    requires AllReadable(steps) && PartsFit(steps) && Marked(steps)
    ensures WatchedAll(steps, video) == Some(ShotsOf(OfTrack(Written(steps), video)))
    decreases |steps|
  {
    hide Watched, FramesOf, Shots, ShotsOf, OfTrack, Readable, TracksFit, StandsAlone;
    if steps == [] {
      NothingWatched(video);
    } else {
      var rest := steps[1..];
      assert AllReadable(rest) && PartsFit(rest) && Marked(rest) by {
        assert forall i :: 0 <= i < |rest| ==> rest[i] == steps[i + 1];
      }
      PartsAreWatched(rest, video);
      if steps[0].Append? {
        var p := steps[0].payload;
        HasInit(p);
        PartIsWatched(p, video);
        var mine := OfTrack(p.fragment.samples, video);
        FramesHoldShots(mine, p.fragment.end);
        ShotsAre(mine, FramesOf(mine, p.fragment.end));
        OfTrackConcat(p.fragment.samples, Written(rest), video);
        ShotsOfConcat(mine, OfTrack(Written(rest), video));
      } else {
        assert [] + Written(rest) == Written(rest);
      }
    }
  }

  lemma FramesHoldShots(ss: seq<Sample>, end: nat)
    ensures forall i :: 0 <= i < |ss| ==> FramesOf(ss, end)[i].shot == ShotOf(ss[i])
  {
  }

  lemma HasInit(p: Piece)
    requires TracksFit(p.fragment.samples, p.init)
    ensures p.init.Some?
  {
  }

  lemma NothingWatched(video: bool)
    ensures ShotsOf(OfTrack([], video)) == [] && Written([]) == []
  {
  }

  // ----- when every part is readable

  /** Signed 32-bit composition offsets throughout. */
  predicate SmallOffsets(ss: seq<Sample>) { forall i :: 0 <= i < |ss| ==> -TWO31 <= ss[i].pts - ss[i].dts < TWO31 }

  /** Decode times per track never go back, and offsets are small. */
  predicate Steady(ss: seq<Sample>) { SmallOffsets(ss) && Ordered(OfTrack(ss, true)) && Ordered(OfTrack(ss, false)) }

  lemma MiddleIsSteady(a: seq<Sample>, b: seq<Sample>, c: seq<Sample>)
    requires Steady(a + b + c)
    ensures Steady(b) && Steady(b + c)
  {
    hide OfTrack;
    var all := a + b + c;
    assert forall i :: 0 <= i < |b + c| ==> (b + c)[i] == all[|a| + i];
    forall video ensures Ordered(OfTrack(b, video)) && Ordered(OfTrack(b + c, video)) {
      OfTrackConcat(a + b, c, video);
      OfTrackConcat(a, b, video);
      OfTrackConcat(b, c, video);
      MiddleIsOrdered(OfTrack(a, video), OfTrack(b, video), OfTrack(c, video));
      assert Ordered(OfTrack(all, video));
    }
    assert forall i :: 0 <= i < |b| ==> b[i] == (b + c)[i];
  }

  lemma MiddleIsOrdered(a: seq<Sample>, b: seq<Sample>, c: seq<Sample>)
    ensures Ordered(a + b + c) ==> Ordered(b) && Ordered(b + c)
  {
    var all := a + b + c;
    if Ordered(all) {
      assert forall i :: 0 <= i < |b + c| ==> (b + c)[i] == all[|a| + i];
      assert forall i :: 0 <= i < |b| ==> b[i] == all[|a| + i];
    }
  }

  lemma SteadyFits(ss: seq<Sample>, end: nat, video: bool)
    requires Steady(ss) && end < TWO32
    ensures TrackFits(OfTrack(ss, video), end)
  {
    hide OfTrack, Ordered;
    TrackIsSmall(ss, video);
  }

  lemma {:induction false} TrackIsSmall(ss: seq<Sample>, video: bool)
    requires SmallOffsets(ss)
    ensures SmallOffsets(OfTrack(ss, video))
  {
    if ss != [] { TrackIsSmall(ss[1..], video); }
  }

  predicate AllSized(steps: Steps) {
    forall i :: 0 <= i < |steps| && steps[i].Append? ==> steps[i].payload.fragment.Ok()
  }

  predicate AllEnd(steps: Steps) {
    forall i :: 0 <= i < |steps| && steps[i].Append? ==> steps[i].payload.fragment.end < TWO32
  }

  lemma {:induction false} SteadyIsReadable(steps: Steps, tail: seq<Sample>)
    requires AllSized(steps) && AllEnd(steps) && Steady(Written(steps) + tail)
    ensures AllReadable(steps)
    decreases |steps|
  {
    hide Steady, Fragment.Ok, TrackFits, OfTrack;
    if steps != [] {
      var rest := steps[1..];
      var head := if steps[0].Append? then steps[0].payload.fragment.samples else [];
      assert AllSized(rest) && AllEnd(rest) by { assert forall i :: 0 <= i < |rest| ==> rest[i] == steps[i + 1]; }
      Assoc(head, Written(rest), tail);
      var none: seq<Sample> := [];
      assert none + head + (Written(rest) + tail) == head + (Written(rest) + tail);
      MiddleIsSteady(none, head, Written(rest) + tail);
      assert head + (Written(rest) + tail) + none == head + (Written(rest) + tail);
      MiddleIsSteady(head, Written(rest) + tail, none);
      assert Written(rest) + tail + none == Written(rest) + tail;
      SteadyIsReadable(rest, tail);
      var end := if steps[0].Append? then steps[0].payload.fragment.end else 0;
      SteadyFits(head, end, true);
      SteadyFits(head, end, false);
      assert forall i :: 0 < i < |steps| ==> steps[i] == rest[i - 1];
    }
  }

  predicate LastInRange(m: Mux) { m.part.Some? ==> m.part.value.last < TWO32 }

  lemma EventEnds(m: Mux, e: Event)
    requires LastInRange(m) && InRange(e)
    ensures LastInRange(Handle(m, e).mux) && AllEnd(Handle(m, e).steps)
  {
    hide PartFull;
  }

  lemma {:induction false} RunEnds(m: Mux, es: seq<Event>)
    requires LastInRange(m) && AllInRange(es)
    ensures AllEnd(AllSteps(m, es))
    decreases |es|
  {
    if es != [] {
      hide Handle, InRange, LastInRange;
      EventEnds(m, es[0]);
      RunEnds(Handle(m, es[0]).mux, es[1..]);
    }
  }

  // ----- what goes in

  /** The frame of a media type that an event brings, if the stream is on and its codec is known. */
  function SentNow(e: Event, live: bool, f: Format, video: bool): seq<Shot> {
    match e
    case Audio(dts, data) => if live && f.aac.Some? && !video then [Shot(dts, 0, 0x0200_0000, data)] else []
    case Video(dts, cts, frameType, data) =>
      if live && f.avc.Some? && video then [Shot(dts, cts, if frameType == 1 then 0x0200_0000 else 0x0101_0000, data)]
      else []
    case _ => []
  }

  /** All frames of a media type that a publisher sends, told on the events alone. */
  function Sent(es: seq<Event>, live: bool, f: Format, video: bool): seq<Shot>
    decreases |es|
  {
    if es == [] then []
    else
      var on := if es[0].Publish? then true else if es[0].Unpublish? then false else live;
      var known := if es[0].Header? || es[0].Damaged? then es[0].format else f;
      SentNow(es[0], live, f, video) + Sent(es[1..], on, known, video)
  }

  /** Both times of a video frame fit 32 bits, and so does their difference with its sign. */
  predicate Narrow(e: Event) {
    InRange(e) && (e.Video? ==> -TWO31 <= e.cts < TWO31 && 0 <= e.dts + e.cts < TWO32)
  }

  predicate AllNarrow(es: seq<Event>) { forall i :: 0 <= i < |es| ==> Narrow(es[i]) }

  lemma ShotIsSent(m: Mux, e: Event, video: bool)
    requires Narrow(e)
    ensures var one := if Accepts(m, e) then [SampleOf(e)] else [];
            ShotsOf(OfTrack(one, video)) == SentNow(e, m.enabled, m.format, video) && SmallOffsets(one)
  {
    hide ShotsOf, OfTrack;
    NothingWatched(video);
    if Accepts(m, e) { OneShot(SampleOf(e), video); }
  }

  lemma CutKeepsFormat(m: Mux, dts: nat, canEnd: bool)
    ensures var c := MaybeCut(m, dts, canEnd).mux; c.format == m.format && c.enabled == m.enabled
  {
    hide PartFull;
  }

  lemma FormatAndLife(m: Mux, e: Event)
    ensures var r := Handle(m, e).mux;
            && r.enabled == (if e.Publish? then true else if e.Unpublish? then false else m.enabled)
            && r.format == if e.Header? || e.Damaged? then e.format else m.format
  {
    hide MaybeCut, SampleOf, CanEnd;
    if Accepts(m, e) { CutKeepsFormat(m, e.dts, CanEnd(m, SampleOf(e))); }
  }

  /** The muxer takes in exactly the frames sent. */
  lemma {:induction false} TakenIsSent(m: Mux, es: seq<Event>, video: bool)
    requires AllNarrow(es)
    ensures ShotsOf(OfTrack(Taken(m, es), video)) == Sent(es, m.enabled, m.format, video)
    ensures SmallOffsets(Taken(m, es))
    decreases |es|
  {
    hide Handle, ShotsOf, OfTrack, SampleOf, SentNow, Narrow;
    if es == [] {
      NothingWatched(video);
    } else {
      var e, m1 := es[0], Handle(m, es[0]).mux;
      var one := if Accepts(m, e) then [SampleOf(e)] else [];
      var rest := Taken(m1, es[1..]);
      FormatAndLife(m, e);
      TakenIsSent(m1, es[1..], video);
      ShotIsSent(m, e, video);
      OfTrackConcat(one, rest, video);
      ShotsOfConcat(OfTrack(one, video), OfTrack(rest, video));
    }
  }

  lemma OneShot(s: Sample, video: bool)
    ensures OfTrack([s], video) == if s.video == video then [s] else []
    ensures ShotsOf([s]) == [ShotOf(s)] && ShotsOf([]) == []
  {
    assert [s][1..] == [];
  }

  /** Decode times never go back. */
  predicate Forward(shots: seq<Shot>) { forall i :: 0 < i < |shots| ==> shots[i - 1].dts <= shots[i].dts }

  lemma {:induction false} ShotTimes(ss: seq<Sample>)
    ensures |ShotsOf(ss)| == |ss| && forall i :: 0 <= i < |ss| ==> ShotsOf(ss)[i].dts == ss[i].dts
  {
    if ss != [] { ShotTimes(ss[1..]); }
  }

  lemma ForwardIsSteady(es: seq<Event>)
    requires AllNarrow(es)
    requires forall video :: Forward(Sent(es, false, Format(None, None), video))
    ensures Steady(Taken(INITIAL, es))
  {
    hide Taken, OfTrack, ShotsOf, SmallOffsets, Sent;
    forall video: bool ensures Ordered(OfTrack(Taken(INITIAL, es), video)) {
      TakenIsSent(INITIAL, es, video);
      ShotTimes(OfTrack(Taken(INITIAL, es), video));
      assert Forward(Sent(es, false, Format(None, None), video));
    }
    TakenIsSent(INITIAL, es, true);
  }

  /** End to end: over any orderly run in which every codec is listed when its frames come, with
      decode times that never go back within a media type and fit their fields, demuxing the bytes of
      all parts stored gives, per media type, the frames sent, in order, each once, up to those of the
      part still open; when the stream is off, all of them. */
  lemma SessionIsWatched(es: seq<Event>, video: bool)
    requires Orderly(INITIAL, es) && ListedRun(INITIAL, es) && AllNarrow(es) && AllSized(AllSteps(INITIAL, es))
    requires forall v :: Forward(Sent(es, false, Format(None, None), v))
    ensures var open := ShotsOf(OfTrack(Unflushed(After(INITIAL, es)), video));
            var seen := WatchedAll(AllSteps(INITIAL, es), video);
            && seen.Some? && seen.value + open == Sent(es, false, Format(None, None), video)
            && (!After(INITIAL, es).enabled ==> open == [])
  {
    hide Orderly, ListedRun, Steady, Taken, AllSteps, After, AllSized, AllEnd, AllReadable, PartsFit, Marked,
         WatchedAll, ShotsOf, OfTrack, Written, Sent, Narrow, InRange;
    var steps, after, taken := AllSteps(INITIAL, es), After(INITIAL, es), Taken(INITIAL, es);
    InitialSound();
    InitialShape();
    FramesAreConserved(INITIAL, es);
    assert [] + taken == taken;
    ForwardIsSteady(es);
    RunEnds(INITIAL, es) by { assert AllInRange(es) by { NarrowIsInRange(es); } }
    SteadyIsReadable(steps, Unflushed(after));
    TracksFitExactly(INITIAL, es);
    SessionIsMarked(es);
    PartsAreWatched(steps, video);
    OfTrackConcat(Written(steps), Unflushed(after), video);
    ShotsOfConcat(OfTrack(Written(steps), video), OfTrack(Unflushed(after), video));
    TakenIsSent(INITIAL, es, video);
    NothingWatched(video);
  }

  lemma NarrowIsInRange(es: seq<Event>)
    requires AllNarrow(es)
    ensures AllInRange(es)
  {
  }

  lemma InitialShape()
    ensures Shape(INITIAL) && Unflushed(INITIAL) == [] && OpenFits(INITIAL) && LastInRange(INITIAL)
    ensures !INITIAL.enabled && INITIAL.format == Format(None, None)
  {
  }
}
