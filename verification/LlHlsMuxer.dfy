/**
 The muxer object at work on its storage. Every method moves the muxer and its storage exactly as
 the functions of LlHlsMux and LlHls say, so their theorems are about the objects.
 */
module LlHlsMuxer {
  import opened Bytes
  import opened Fmp4
  import opened LlHlsMux
  import opened LlHlsStorage
  import L = LlHls
  import T = LlHlsTiling
  import I = LlHlsIsolation
  import E = LlHlsEndToEnd

  const PACKET_HEADER := 0
  const PACKET_NALU := 1

  /** An audio or video message: whether its codec is AAC or H.264, what kind of packet it is, and how
      many samples the parser found. */
  datatype Tag =
    | AudioTag(aac: bool, header: bool, samples: nat, dts: nat, data: bytes)
    | VideoTag(avc: bool, packetType: nat, samples: nat, dts: nat, cts: int, frameType: nat, data: bytes)

  /** What a message amounts to: other codecs, other packets and empty frames are nothing. */
  function EventOf(t: Tag, parsed: Format): Option<Event> {
    match t
    case AudioTag(aac, header, samples, dts, data) =>
      if !aac || (!header && samples == 0) then None else Some(if header then Header(parsed) else Audio(dts, data))
    case VideoTag(avc, packetType, samples, dts, cts, frameType, data) =>
      if !avc then None
      else if packetType == PACKET_HEADER then Some(Header(parsed))
      else if packetType == PACKET_NALU && samples > 0 then Some(Video(dts, cts, frameType, data))
      else None
  }

  function OnTag(m: Mux, t: Tag, parsed: Format): Effect {
    match EventOf(t, parsed)
    case None => Effect(m, [])
    case Some(e) => Handle(m, e)
  }

  /** The sample that a message brings, if it is a frame: AAC that is no sequence header, or H.264 of
      packet type 1, with at least one sample, while the codec is known and the stream is on. */
  function FrameIn(m: Mux, t: Tag): seq<Sample> {
    match t
    case AudioTag(aac, header, samples, dts, data) =>
      if m.enabled && m.format.aac.Some? && aac && !header && samples > 0
      then [Sample(false, 0, dts % 0x1_0000_0000, dts % 0x1_0000_0000, data)] else []
    case VideoTag(avc, packetType, samples, dts, cts, frameType, data) =>
      if m.enabled && m.format.avc.Some? && avc && packetType == 1 && samples > 0
      then [Sample(true, frameType, dts % 0x1_0000_0000, (dts + cts) % 0x1_0000_0000, data)] else []
  }

  predicate IsHeader(t: Tag) { if t.AudioTag? then t.aac && t.header else t.avc && t.packetType == 0 }

  /** A message adds its frame, once, behind what the muxer holds, or nothing; only a sequence header
      changes what the muxer knows of the codecs. */
  lemma MessageIsTaken(m: Mux, t: Tag, parsed: Format)
    requires Shape(m)
    ensures var r := OnTag(m, t, parsed);
            && Written(r.steps) + Unflushed(r.mux) == Unflushed(m) + FrameIn(m, t)
            && r.mux.format == (if IsHeader(t) then parsed else m.format)
            && r.mux.enabled == m.enabled
  {
    hide Handle, Shape, Written;
    WrittenNothing();
    assert [] + Unflushed(m) == Unflushed(m) + [];
    var e := EventOf(t, parsed);
    if e.Some? {
      EventConserves(m, e.value);
      E.FormatAndLife(m, e.value);
    }
  }

  class Muxer {
    const storage: Storage<Piece>

    var enabled: bool
    var partTarget: int
    var segmentTarget: int
    var sequence: nat

    /** The part in progress: its encoder and its tallies. */
    var part: Option<OpenPart>

    var segmentDuration: int
    var initDirty: bool
    var videoConfigured: bool
    var lastAvc: bytes
    var lastAac: bytes
    var format: Format
    var init: Option<InitSegment>

    function View(): Mux
      reads this
    {
      Mux(enabled, partTarget, segmentTarget, sequence, part, segmentDuration, initDirty, videoConfigured, lastAvc,
          lastAac, format, init)
    }

    ghost predicate Valid()
      reads this, storage
    {
      L.Ok(storage.View())
    }

    /** Muxer and storage have moved from (m, st) as `e` says. */
    ghost predicate Did(m: Mux, st: L.Store<Piece>, e: Effect)
      reads this, storage
    {
      View() == e.mux && storage.View() == L.Run(st, e.steps)
    }

    constructor (max: int)
      ensures Valid() && fresh(storage) && View() == INITIAL && storage.View() == L.Init(max)
    {
      storage := new Storage(max);
      enabled, partTarget, segmentTarget, sequence := false, 0, 0, 0;
      part, segmentDuration, initDirty, videoConfigured, lastAvc, lastAac := None, 0, false, false, [], [];
      format, init := Format(None, None), None;
    }

    /** Nothing without samples; else the fragment goes to the storage and the part is cleared. */
    method Flush(end: nat, close: bool)
      requires Valid()
      modifies this, storage
      ensures Valid()
      ensures Did(old(View()), old(storage.View()),
                  if old(View()).part.Some? then FlushPart(old(View()), end, close) else Effect(old(View()), []))
    {
      hide L.Ok, L.Apply;
      ghost var st := storage.View();
      T.RunNone(st);
      if part.None? || part.value.samples == [] { return; }
      var p := part.value;
      var standalone := if p.hasVideo then p.independent else !videoConfigured;
      var duration := (end - p.start) * 1000;
      var piece := Piece(Fragment(p.sequence, VIDEO_ID, p.aid, end, p.samples), p.init);
      T.RunOne(st, L.Append(piece, duration, standalone, close));
      storage.AppendPart(piece, duration, standalone, close);
      segmentDuration := if close then 0 else segmentDuration + duration;
      part := None;
    }

    method Cut(dts: nat, canEnd: bool)
      requires Valid()
      modifies this, storage
      ensures Valid() && Did(old(View()), old(storage.View()), MaybeCut(old(View()), dts, canEnd))
    {
      hide L.Ok, L.Run, FlushPart;
      T.RunNone(storage.View());
      if part.None? || part.value.samples == [] { return; }
      var duration := (dts - part.value.start) * 1000;
      if canEnd && segmentDuration + duration >= segmentTarget {
        Flush(dts, true);
        return;
      }
      var gap := (dts - part.value.last) * 1000;
      if duration >= partTarget || (duration >= partTarget * 85 / 100 && duration + gap > partTarget) {
        Flush(dts, false);
      }
    }

    method RenewInit()
      modifies this`init, this`initDirty, this`videoConfigured
      ensures View() == WriteInit(old(View()))
    {
      if format.avc.None? && format.aac.None? { return; }
      init := Some(InitSegment(format.avc, format.aac));
      initDirty, videoConfigured := false, format.avc.Some?;
    }

    /** The audio track id follows the stream's tracks, not the content of the part. */
    method Begin(dts: nat)
      modifies this
      ensures View() == Open(old(View()), dts)
    {
      if initDirty { RenewInit(); }
      part := Some(OpenPart(dts, dts, [], false, false, if videoConfigured then 2 else 1, sequence, init));
      sequence := sequence + 1;
    }

    method AddFrame(s: Sample, dts: nat, canEnd: bool)
      requires Valid()
      modifies this, storage
      ensures Valid() && Did(old(View()), old(storage.View()), Write(old(View()), dts, s, canEnd))
    {
      hide L.Ok, L.Run, MaybeCut, Open;
      Cut(dts, canEnd);
      if part.None? { Begin(dts); }
      var p := part.value.(samples := part.value.samples + [s], last := dts);
      if s.video && !p.hasVideo { p := p.(hasVideo := true, independent := s.frameType == KEYFRAME); }
      part := Some(p);
    }

    method OnAudio(dts: nat, data: bytes)
      requires Valid()
      modifies this, storage
      ensures Valid() && Did(old(View()), old(storage.View()), Handle(old(View()), Audio(dts, data)))
    {
      hide L.Ok, L.Run, Write;
      T.RunNone(storage.View());
      if !enabled || format.aac.None? { return; }
      AddFrame(Sample(false, 0, dts % TWO32, dts % TWO32, data), dts, !videoConfigured);
    }

    method OnVideo(dts: nat, cts: int, frameType: nat, data: bytes)
      requires Valid()
      modifies this, storage
      ensures Valid() && Did(old(View()), old(storage.View()), Handle(old(View()), Video(dts, cts, frameType, data)))
    {
      hide L.Ok, L.Run, Write;
      T.RunNone(storage.View());
      if !enabled || format.avc.None? { return; }
      AddFrame(Sample(true, frameType, dts % TWO32, (dts + cts) % TWO32, data), dts, frameType == KEYFRAME);
    }

    /** A header that repeats the known configuration changes nothing; a new one closes the segment. */
    method OnSequenceHeader(parsed: Format)
      requires Valid()
      modifies this, storage
      ensures Valid() && Did(old(View()), old(storage.View()), Handle(old(View()), Header(parsed)))
    {
      hide L.Ok, L.Run, FlushPart;
      T.RunNone(storage.View());
      format := parsed;
      if !enabled { return; }
      var changed := false;
      if format.avc.Some? && format.avc.value != lastAvc { lastAvc, changed := format.avc.value, true; }
      if format.aac.Some? && format.aac.value != lastAac { lastAac, changed := format.aac.value, true; }
      if !changed { return; }
      assert View() == Changed(old(View()).(format := parsed), parsed);
      if part.Some? { Flush(part.value.last, true); }
      initDirty := true;
    }

    /** A message as the parser left it: dropped, a sequence header, or a frame. */
    method OnMessage(t: Tag, parsed: Format)
      requires Valid()
      modifies this, storage
      ensures Valid() && Did(old(View()), old(storage.View()), OnTag(old(View()), t, parsed))
    {
      hide L.Ok, L.Run, Handle;
      T.RunNone(storage.View());
      match t {
        case AudioTag(aac, header, samples, dts, data) =>
          if !aac { return; }
          if header {
            OnSequenceHeader(parsed);
            return;
          }
          if samples == 0 { return; }
          OnAudio(dts, data);
        case VideoTag(avc, packetType, samples, dts, cts, frameType, data) =>
          if !avc { return; }
          if packetType == PACKET_HEADER {
            OnSequenceHeader(parsed);
            return;
          }
          if packetType != PACKET_NALU || samples == 0 { return; }
          OnVideo(dts, cts, frameType, data);
      }
    }

    /** The parser's error path: the message is dropped. */
    method OnDamagedHeader(parsed: Format)
      requires Valid()
      modifies this
      ensures Valid() && Did(old(View()), old(storage.View()), Handle(old(View()), Damaged(parsed)))
    {
      hide L.Ok, L.Run;
      T.RunNone(storage.View());
      format := parsed;
    }

    method OnPublish(max: int, cfg: L.Config)
      requires Valid()
      modifies this, storage
      ensures Valid() && Did(old(View()), old(storage.View()), Handle(old(View()), Publish(max, cfg)))
    {
      hide L.Ok, L.Apply, L.Run;
      ghost var st := storage.View();
      partTarget, segmentTarget := cfg.partTarget, cfg.segmentTarget;
      storage.UpdateConfig(max, cfg);
      part, segmentDuration := None, 0;
      storage.OnPublish();
      enabled := true;
      TwoSteps(st, L.UpdateConfig(max, cfg), L.Publish);
    }

    /** Repeated calls are harmless. */
    method OnUnpublish()
      requires Valid()
      modifies this, storage
      ensures Valid() && Did(old(View()), old(storage.View()), Handle(old(View()), Unpublish))
    {
      hide L.Ok, L.Apply, L.Run, FlushPart;
      ghost var m, st := View(), storage.View();
      T.RunNone(st);
      if !enabled { return; }
      ghost var f := if m.part.Some? then FlushPart(m, m.part.value.last, true) else Effect(m, []);
      if part.Some? { Flush(part.value.last, true); }
      T.RunConcat(st, f.steps, [L.Unpublish]);
      T.RunOne(storage.View(), L.Unpublish);
      storage.OnUnpublish();
      enabled := false;
    }

    method On(e: Event)
      requires Valid()
      modifies this, storage
      ensures Valid() && Did(old(View()), old(storage.View()), Handle(old(View()), e))
    {
      hide L.Ok, L.Run, Handle;
      match e {
        case Publish(max, cfg) => OnPublish(max, cfg);
        case Unpublish => OnUnpublish();
        case Header(parsed) => OnSequenceHeader(parsed);
        case Damaged(parsed) => OnDamagedHeader(parsed);
        case Audio(dts, data) => OnAudio(dts, data);
        case Video(dts, cts, frameType, data) => OnVideo(dts, cts, frameType, data);
      }
    }
  }

  lemma TwoSteps(st: L.Store<Piece>, a: L.Step<Piece>, b: L.Step<Piece>)
    ensures L.Run(st, [a, b]) == L.Apply(L.Apply(st, a), b)
  {
    hide L.Apply;
    assert [a, b] == [a] + [b];
    T.RunConcat(st, [a], [b]);
    T.RunOne(st, a);
    T.RunOne(L.Apply(st, a), b);
  }

  /** A whole session: publisher events from an empty server. Whatever the events, the objects end
      in the state the model plays to. After an orderly run the frames taken in are those of the
      parts appended to the storage and of the muxer's open part; with 32-bit times every part in the
      window joins on to the next, under one initialisation segment per segment, and the running
      duration is exact; and if every codec was listed when its frames came, all have their track. */
  method Session(max: int, es: seq<Event>) returns (mux: Mux, store: L.Store<Piece>)
    ensures System(mux, store) == Play(System(INITIAL, L.Init(max)), es) && L.Ok(store)
    ensures mux == After(INITIAL, es) && store == L.Run(L.Init(max), AllSteps(INITIAL, es))
    ensures Orderly(INITIAL, es) ==> Taken(INITIAL, es) == Written(AllSteps(INITIAL, es)) + Unflushed(mux)
    ensures Orderly(INITIAL, es) && T.AllInRange(es) ==> T.AllFit(store) && mux.segmentDuration == T.OpenDuration(store)
    ensures Orderly(INITIAL, es) && I.ListedRun(INITIAL, es) ==> I.WindowTracksFit(store)
  {
    hide Handle, L.Ok, L.Run, T.AllFit, Orderly, Taken, Written, AllSteps, After, I.ListedRun, I.WindowTracksFit;
    var muxer := new Muxer(max);
    ghost var start := System(muxer.View(), muxer.storage.View());
    var i := 0;
    assert es[0..] == es;
    while i < |es|
      invariant i <= |es| && muxer.Valid() && fresh(muxer) && fresh(muxer.storage)
      invariant Play(System(muxer.View(), muxer.storage.View()), es[i..]) == Play(start, es)
    {
      assert es[i..][1..] == es[i + 1..];
      muxer.On(es[i]);
      i := i + 1;
    }
    assert es[i..] == [];
    mux, store := muxer.View(), muxer.storage.View();
    I.PlayIsRun(INITIAL, L.Init(max), es);
    SessionTiles(max, es);
    SessionConserves(es);
    SessionFits(max, es);
  }

  lemma SessionTiles(max: int, es: seq<Event>)
    ensures Orderly(INITIAL, es) && T.AllInRange(es) ==>
              var s := Play(System(INITIAL, L.Init(max)), es);
              T.AllFit(s.store) && s.mux.segmentDuration == T.OpenDuration(s.store)
  {
    hide T.Linked, Play, T.AllFit, Orderly, T.AllInRange;
    T.InitialLinked(max);
    if Orderly(INITIAL, es) && T.AllInRange(es) { T.RunKeepsLinked(INITIAL, L.Init(max), es); }
  }

  lemma SessionFits(max: int, es: seq<Event>)
    ensures Orderly(INITIAL, es) && I.ListedRun(INITIAL, es) ==>
              I.WindowTracksFit(Play(System(INITIAL, L.Init(max)), es).store)
  {
    hide Play, Orderly, I.ListedRun;
    I.InitialSound();
    if Orderly(INITIAL, es) && I.ListedRun(INITIAL, es) { I.ListedRunFits(INITIAL, L.Init(max), es); }
  }

  lemma SessionConserves(es: seq<Event>)
    ensures Orderly(INITIAL, es) ==>
              Taken(INITIAL, es) == Written(AllSteps(INITIAL, es)) + Unflushed(After(INITIAL, es))
  {
    hide Taken, Written, AllSteps, After, Orderly;
    if Orderly(INITIAL, es) {
      FramesAreConserved(INITIAL, es);
      assert Unflushed(INITIAL) == [];
      assert [] + Taken(INITIAL, es) == Taken(INITIAL, es);
    }
  }
}
