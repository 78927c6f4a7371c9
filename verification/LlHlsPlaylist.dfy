/**
 The storage as a player sees it, over whole runs. The history notes what the steps say and drops
 nothing; the window is its tail. A player reads the playlist line by line and numbers the segments
 from the media sequence on (section 6.2.1 of RFC 8216); what it reads is that tail.
 */
module LlHlsPlaylist {
  import opened Bytes
  import opened LlHls

  // ----- the history

  datatype Piece<P> = Piece(payload: P, duration: int, independent: bool)

  /** All segments ever begun, by number; the window starts at `first`. `shown` is whether the stream
      was live, and how it was configured, when the playlist was last renewed. */
  datatype History<P> = History(groups: seq<seq<Piece<P>>>, open: bool, first: nat, max: int, live: bool,
                                config: Config, shown: (bool, Config))

  function Blank<P>(max: int): History<P> {
    History([], false, 0, max, false, Config(0, 0), (false, Config(0, 0)))
  }

  function Begun<P>(h: History<P>, piece: Piece<P>): seq<seq<Piece<P>>> {
    if h.open && h.groups != []
    then h.groups[|h.groups| - 1 := Last(h.groups) + [piece]]
    else h.groups + [[piece]]
  }

  function Note<P>(h: History<P>, s: Step<P>): History<P> {
    match s
    case UpdateConfig(max, cfg) => h.(max := max, config := cfg)
    case Publish => h.(live := true)
    case Unpublish => h.(live := false, open := false, shown := (false, h.config))
    case Append(payload, duration, independent, close) =>
      var groups := Begun(h, Piece(payload, duration, independent));
      var first := if close && |groups| - h.first > h.max then Min(|groups| - h.max, |groups|) else h.first;
      h.(groups := groups, open := !close, first := first, shown := (h.live, h.config))
  }

  function Notes<P>(h: History<P>, steps: seq<Step<P>>): History<P>
    decreases |steps|
  {
    if steps == [] then h else Notes(Note(h, steps[0]), steps[1..])
  }

  ghost predicate PartIs<P>(p: Part<P>, j: nat, piece: Piece<P>) {
    p.psn == j && p.payload == piece.payload && p.duration == piece.duration && p.independent == piece.independent
  }

  ghost predicate SegmentIs<P>(seg: Segment<P>, msn: nat, pieces: seq<Piece<P>>, open: bool) {
    && seg.msn == msn && seg.completed == !open && |seg.parts| == |pieces| > 0
    && forall j :: 0 <= j < |pieces| ==> PartIs(seg.parts[j], j, pieces[j])
  }

  /** The window is the tail of the history from `first` on; only its newest segment can be open. */
  ghost predicate Shows<P>(st: Store<P>, h: History<P>) {
    && st.active == h.live && st.config == h.config && st.maxSegments == h.max
    && h.first <= |h.groups| && (h.open ==> h.first < |h.groups|)
    && st.nextMsn == |h.groups| && |st.segments| == |h.groups| - h.first
    && (h.groups == [] ==> st.latest == None)
    && (h.groups != [] ==> Last(h.groups) != [] && st.latest == Some((|h.groups| - 1, |Last(h.groups)| - 1)))
    && forall i :: 0 <= i < |st.segments| ==>
         SegmentIs(st.segments[i], h.first + i, h.groups[h.first + i], h.open && h.first + i == |h.groups| - 1)
  }

  lemma ClosingCut<P(!new)>(st: Store<P>, h: History<P>, s: Step<P>)
    requires Ok(st) && Shows(st, h) && s.Append? && s.close
    requires |Grown(st, s)| == |Note(h, s).groups| - h.first
    ensures var f := Note(h, s).first - h.first;
            0 <= f <= |Grown(st, s)| && Apply(st, s).segments == Grown(st, s)[f..]
  {
    hide SegmentIs, Rendered, SegmentOk, Generate, Grown, Shrink, Begun, Consecutive;
    GrownOk(st, s);
    var g := Grown(st, s);
    assert forall i :: 0 <= i < |g| ==> g[i].completed;
    ShrinkExactly(g, st.maxSegments);
    assert g[0..] == g;
  }

  /** Of complete segments, as many old ones are dropped as there are too many. */
  lemma {:induction false} ShrinkExactly<P>(segments: seq<Segment<P>>, max: int)
    requires forall i :: 0 <= i < |segments| ==> segments[i].completed
    ensures var k := if |segments| > max then Min(|segments| - max, |segments|) else 0;
            Shrink(segments, max) == segments[k..]
    decreases |segments|
  {
    if |segments| > max && segments != [] {
      ShrinkExactly(segments[1..], max);
    }
  }

  lemma GrownShows<P(!new)>(st: Store<P>, h: History<P>, s: Step<P>)
    requires Ok(st) && Shows(st, h) && s.Append?
    ensures var g, n := Grown(st, s), Note(h, s).groups;
            && |g| == |n| - h.first && NextPosition(st) == (|n| - 1, |Last(n)| - 1)
            && (HasOpen(st) <==> |n| == |h.groups|)
            && forall i :: 0 <= i < |g| ==> SegmentIs(g[i], h.first + i, n[h.first + i],
                                                       !s.close && h.first + i == |n| - 1)
  {
    hide Rendered, SegmentOk, Apply;
    var g, n := Grown(st, s), Note(h, s).groups;
    if st.segments != [] { assert SegmentIs(Last(st.segments), |h.groups| - 1, Last(h.groups), h.open); }
    forall i | 0 <= i < |g|
      ensures SegmentIs(g[i], h.first + i, n[h.first + i], !s.close && h.first + i == |n| - 1)
    {
      if i < |g| - 1 { assert SegmentIs(st.segments[i], h.first + i, h.groups[h.first + i], false); }
    }
  }

  lemma UnpublishShows<P(!new)>(st: Store<P>, h: History<P>)
    requires Ok(st) && Shows(st, h)
    ensures Shows(Apply(st, Unpublish), Note(h, Unpublish))
  {
    hide Rendered, SegmentOk, Generate;
    var r := Apply(st, Unpublish);
    if st.segments != [] { assert SegmentIs(Last(st.segments), |h.groups| - 1, Last(h.groups), h.open); }
    forall i | 0 <= i < |r.segments| ensures SegmentIs(r.segments[i], h.first + i, h.groups[h.first + i], false) {
      assert SegmentIs(st.segments[i], h.first + i, h.groups[h.first + i], h.open && h.first + i == |h.groups| - 1);
    }
  }

  lemma AppendShows<P(!new)>(st: Store<P>, h: History<P>, s: Step<P>)
    requires Ok(st) && Shows(st, h) && s.Append?
    ensures Shows(Apply(st, s), Note(h, s))
  {
    hide SegmentIs, Rendered, SegmentOk, Generate, Shrink, Grown, Consecutive, OnlyLastOpen;
    var r, n, g := Apply(st, s), Note(h, s), Grown(st, s);
    GrownShows(st, h, s);
    var f := 0;
    if s.close {
      ClosingCut(st, h, s);
      f := n.first - h.first;
    }
    assert r.segments == g[f..];
    forall i | 0 <= i < |r.segments|
      ensures SegmentIs(r.segments[i], n.first + i, n.groups[n.first + i], n.open && n.first + i == |n.groups| - 1)
    {
      assert r.segments[i] == g[f + i];
    }
  }

  lemma StepShows<P(!new)>(st: Store<P>, h: History<P>, s: Step<P>)
    requires Ok(st) && Shows(st, h)
    ensures Shows(Apply(st, s), Note(h, s))
  {
    match s
    case UpdateConfig(_, _) => hide Ok, SegmentIs;
    case Publish => hide Ok, SegmentIs;
    case Unpublish => UnpublishShows(st, h);
    case Append(_, _, _, _) => AppendShows(st, h, s);
  }

  // ----- the reader

  datatype SeenPart = SeenPart(msn: nat, psn: nat, duration: int, independent: bool)

  datatype SeenSegment = SeenSegment(number: int, uri: nat, duration: int, parts: seq<SeenPart>)

  /** `next` is the number of the next segment, `open` the parts that no segment line has closed yet. */
  datatype Media = Media(target: int, holdBack: int, partTarget: int, mapped: bool, next: int,
                         segments: seq<SeenSegment>, open: seq<SeenPart>, hint: Option<(nat, nat)>)

  /** Media that comes before the map cannot be played and is skipped. */
  function Take(m: Media, l: Line): Media {
    match l
    case TargetDuration(seconds) => m.(target := seconds)
    case ServerControl(holdBack) => m.(holdBack := holdBack)
    case PartInf(target) => m.(partTarget := target)
    case MediaSequence(msn) => m.(next := msn)
    case InitMap => m.(mapped := true)
    case PartLine(duration, msn, psn, independent) =>
      if !m.mapped then m else m.(open := m.open + [SeenPart(msn, psn, duration, independent)])
    case ExtInf(duration, msn) =>
      if !m.mapped then m
      else m.(next := m.next + 1, segments := m.segments + [SeenSegment(m.next, msn, duration, m.open)], open := [])
    case PreloadHint(msn, psn) => m.(hint := Some((msn, psn)))
  }

  function ReadOn(m: Media, lines: seq<Line>): Media
    decreases |lines|
  {
    if lines == [] then m else ReadOn(Take(m, lines[0]), lines[1..])
  }

  function Read(lines: seq<Line>): Media { ReadOn(Media(0, 0, 0, false, 0, [], [], None), lines) }

  // ----- what it should find

  /** `ms` is the time in whole milliseconds, the rest left off. */
  predicate Printed(ms: int, us: int) {
    if us >= 0 then 1000 * ms <= us < 1000 * ms + 1000 else 1000 * ms - 1000 < us <= 1000 * ms
  }

  /** So many seconds cover the time, up to less than a millisecond. */
  predicate Covers(seconds: int, us: int) {
    if seconds >= 0 then us < 1_000_000 * seconds + 1000 else us <= 1_000_000 * seconds
  }

  ghost predicate CoversAll<P>(seconds: int, segments: seq<Segment<P>>, cfg: Config) {
    Covers(seconds, cfg.segmentTarget) && forall i :: 0 <= i < |segments| ==> Covers(seconds, segments[i].duration)
  }

  predicate PartSeen<P>(s: SeenPart, msn: nat, j: nat, p: Part<P>) {
    s.msn == msn && s.psn == j && Printed(s.duration, p.duration) && s.independent == p.independent
  }

  ghost predicate PartsSeen<P>(seen: seq<SeenPart>, seg: Segment<P>) {
    |seen| == |seg.parts| && forall j :: 0 <= j < |seen| ==> PartSeen(seen[j], seg.msn, j, seg.parts[j])
  }

  /** Parts are listed for the newest three segments. */
  ghost predicate RecentSeen<P>(seen: seq<SeenPart>, seg: Segment<P>, newest: nat) {
    if newest - seg.msn < 3 then PartsSeen(seen, seg) else seen == []
  }

  ghost predicate SegmentSeen<P>(s: SeenSegment, seg: Segment<P>, newest: nat) {
    s.number == s.uri == seg.msn && Printed(s.duration, seg.duration) && RecentSeen(s.parts, seg, newest)
  }

  /** One line for each complete segment, behind its parts; the parts of an open one come last. */
  ghost predicate WindowSeen<P>(m: Media, segments: seq<Segment<P>>, newest: nat)
    requires segments != []
  {
    var last := Last(segments);
    && |m.segments| == (if last.completed then |segments| else |segments| - 1)
    && (forall i :: 0 <= i < |m.segments| ==> SegmentSeen(m.segments[i], segments[i], newest))
    && (if last.completed then m.open == [] else RecentSeen(m.open, last, newest))
    && m.next == segments[0].msn + |m.segments|
  }

  /** The hint names the part that comes next, on a live stream only. */
  predicate HintSeen<P>(m: Media, segments: seq<Segment<P>>, live: bool)
    requires segments != []
  {
    var last := Last(segments);
    if !live then m.hint == None
    else if last.completed then m.hint == Some((last.msn + 1, 0))
    else m.hint == Some((last.msn, |last.parts|))
  }

  ghost predicate TimesSeen<P>(m: Media, segments: seq<Segment<P>>, cfg: Config) {
    && CoversAll(m.target, segments, cfg) && !CoversAll(m.target - 1, segments, cfg)
    && Printed(m.holdBack, 3 * cfg.partTarget) && Printed(m.partTarget, cfg.partTarget)
  }

  ghost predicate Seen<P>(m: Media, segments: seq<Segment<P>>, live: bool, cfg: Config)
    requires segments != []
  {
    WindowSeen(m, segments, Last(segments).msn) && HintSeen(m, segments, live) && TimesSeen(m, segments, cfg)
  }

  // ----- what it finds

  lemma {:induction false} ReadConcat(m: Media, a: seq<Line>, b: seq<Line>)
    ensures ReadOn(m, a + b) == ReadOn(ReadOn(m, a), b)
    decreases |a|
  {
    hide Take;
    if a == [] {
      assert a + b == b;
    } else {
      assert (a + b)[1..] == a[1..] + b;
      ReadConcat(Take(m, a[0]), a[1..], b);
    }
  }

  lemma ReadSnoc(m: Media, a: seq<Line>, l: Line)
    ensures ReadOn(m, a + [l]) == Take(ReadOn(m, a), l)
  {
    hide Take;
    ReadConcat(m, a, [l]);
    assert [l][1..] == [];
  }

  lemma MsPrinted(us: int)
    ensures Printed(Ms(us), us)
  {
  }

  lemma {:induction false} ReadParts<P>(m: Media, seg: Segment<P>, parts: seq<Part<P>>)
    requires m.mapped && m.open == [] && parts <= seg.parts
    requires forall j :: 0 <= j < |seg.parts| ==> seg.parts[j].psn == j
    ensures var r := ReadOn(m, PartLines(seg.msn, parts));
            && r == m.(open := r.open) && |r.open| == |parts|
            && forall j :: 0 <= j < |parts| ==> PartSeen(r.open[j], seg.msn, j, parts[j])
    decreases |parts|
  {
    hide Printed, Ms;
    if parts != [] {
      var rest, p := parts[..|parts| - 1], Last(parts);
      ReadParts(m, seg, rest);
      ReadSnoc(m, PartLines(seg.msn, rest), PartLine(Ms(p.duration), seg.msn, p.psn, p.independent));
      MsPrinted(p.duration);
    }
  }

  lemma ReadSegment<P>(m: Media, seg: Segment<P>, newest: nat)
    requires m.mapped && m.open == [] && m.next == seg.msn && SegmentOk(seg)
    ensures var r := ReadOn(m, SegmentLines(seg, newest));
            if seg.completed
            then r == m.(segments := r.segments, next := m.next + 1) && |r.segments| == |m.segments| + 1
                 && r.segments[..|m.segments|] == m.segments && SegmentSeen(Last(r.segments), seg, newest)
            else r == m.(open := r.open) && RecentSeen(r.open, seg, newest)
  {
    hide PartLines, Ms, Printed, PartSeen;
    var ps := if seg.msn + PART_SEGMENTS > newest then PartLines(seg.msn, seg.parts) else [];
    var mid := ReadOn(m, ps);
    ReadParts(m, seg, seg.parts);
    assert mid == m.(open := mid.open) && RecentSeen(mid.open, seg, newest);
    if seg.completed {
      ReadSnoc(m, ps, ExtInf(Ms(seg.duration), seg.msn));
      MsPrinted(seg.duration);
    } else {
      assert ps + [] == ps;
    }
  }

  lemma {:induction false} ReadWindow<P>(m: Media, segments: seq<Segment<P>>, newest: nat)
    requires segments != [] && Consecutive(segments) && OnlyLastOpen(segments)
    requires forall i :: 0 <= i < |segments| ==> SegmentOk(segments[i])
    requires m.mapped && m.open == [] && m.segments == [] && m.next == segments[0].msn
    ensures var r := ReadOn(m, WindowLines(segments, newest));
            r == m.(segments := r.segments, open := r.open, next := r.next) && WindowSeen(r, segments, newest)
    decreases |segments|
  {
    hide SegmentLines, SegmentSeen, RecentSeen, SegmentOk;
    var rest, last := segments[..|segments| - 1], Last(segments);
    ReadConcat(m, WindowLines(rest, newest), SegmentLines(last, newest));
    var mid := ReadOn(m, WindowLines(rest, newest));
    if rest != [] {
      ReadWindow(m, rest, newest);
    }
    ReadSegment(mid, last, newest);
    var r := ReadOn(mid, SegmentLines(last, newest));
    forall i | 0 <= i < |r.segments| ensures SegmentSeen(r.segments[i], segments[i], newest) {
      if i < |mid.segments| { assert r.segments[i] == r.segments[..|mid.segments|][i]; }
    }
  }

  lemma CoversExactly(seconds: int, us: int)
    ensures Covers(seconds, us) <==> Ms(us) <= seconds * 1000
  {
  }

  lemma TargetExactly<P>(segments: seq<Segment<P>>, active: bool, cfg: Config, n: int)
    requires segments != []
    ensures HeaderLines(segments, cfg)[0].TargetDuration?
    ensures HeaderLines(segments, cfg)[0].seconds <= n <==> CoversAll(n, segments, cfg)
  {
    hide WindowLines, HintLines, Longest, Ms, Covers;
    TargetIsLeast(segments, active, cfg, n);
    CoversExactly(n, cfg.segmentTarget);
    forall i | 0 <= i < |segments| ensures Covers(n, segments[i].duration) <==> Ms(segments[i].duration) <= n * 1000 {
      CoversExactly(n, segments[i].duration);
    }
  }

  lemma ReadFive(m: Media, a: Line, b: Line, c: Line, d: Line, e: Line)
    ensures ReadOn(m, [a, b, c, d, e]) == Take(Take(Take(Take(Take(m, a), b), c), d), e)
  {
    hide Take;
    ReadSnoc(m, [a, b, c, d], e);
    ReadSnoc(m, [a, b, c], d);
    ReadSnoc(m, [a, b], c);
    ReadSnoc(m, [a], b);
    ReadSnoc(m, [], a);
    assert [a, b, c, d] + [e] == [a, b, c, d, e] && [a, b, c] + [d] == [a, b, c, d];
    assert [a, b] + [c] == [a, b, c] && [a] + [b] == [a, b] && [] + [a] == [a];
  }

  lemma ReadHeader<P>(segments: seq<Segment<P>>, cfg: Config)
    requires segments != []
    ensures var m := Read(HeaderLines(segments, cfg));
            && m.mapped && m.open == [] && m.segments == [] && m.hint == None && m.next == segments[0].msn
            && TimesSeen(m, segments, cfg)
  {
    hide ReadOn, CoversAll, Printed, Ms, Longest;
    var l := HeaderLines(segments, cfg);
    ReadFive(Media(0, 0, 0, false, 0, [], [], None), l[0], l[1], l[2], l[3], l[4]);
    assert l == [l[0], l[1], l[2], l[3], l[4]];
    TargetExactly(segments, false, cfg, l[0].seconds);
    TargetExactly(segments, false, cfg, l[0].seconds - 1);
    MsPrinted(3 * cfg.partTarget);
    MsPrinted(cfg.partTarget);
  }

  lemma ReadPlaylist<P>(segments: seq<Segment<P>>, live: bool, cfg: Config)
    requires segments != [] && Consecutive(segments) && OnlyLastOpen(segments)
    requires forall i :: 0 <= i < |segments| ==> SegmentOk(segments[i])
    ensures Seen(Read(Generate(segments, live, cfg)), segments, live, cfg)
  {
    hide HeaderLines, WindowLines, SegmentSeen, RecentSeen, CoversAll, Printed, SegmentOk;
    var newest := Last(segments).msn;
    var h, w, t := HeaderLines(segments, cfg), WindowLines(segments, newest), HintLines(segments, live);
    ReadHeader(segments, cfg);
    ReadWindow(Read(h), segments, newest);
    var blank := Media(0, 0, 0, false, 0, [], [], None);
    ReadConcat(blank, h, w);
    ReadConcat(blank, h + w, t);
    if live {
      ReadSnoc(blank, h + w, t[0]);
      assert t == [t[0]];
    } else {
      assert h + w + t == h + w;
    }
  }

  // ----- the theorems

  ghost predicate PlaylistSeen<P>(st: Store<P>, live: bool, cfg: Config) {
    if st.segments == [] then st.playlist == []
    else st.playlist != [] && Seen(Read(st.playlist), st.segments, live, cfg)
  }

  /** After an append or an unpublish a player that reads the playlist finds the window, the times of
      the configuration in force and, exactly after an append to a live stream, the part to come. */
  lemma RenewedIsSeen<P(!new)>(st: Store<P>, s: Step<P>)
    requires Ok(st) && (s.Append? || s.Unpublish?)
    ensures PlaylistSeen(Apply(st, s), s.Append? && st.active, st.config)
  {
    hide Read, Seen, HeaderLines, WindowLines, HintLines, SegmentOk, Rendered, Shrink, Grown;
    var r, live := Apply(st, s), s.Append? && st.active;
    StepKeepsOk(st, s);
    assert r.playlist == Generate(r.segments, live, st.config);
    if r.segments != [] {
      ReadPlaylist(r.segments, live, st.config);
      StartsBehind(r.segments, live, st.config);
    }
  }

  lemma StepIsSeen<P(!new)>(st: Store<P>, h: History<P>, s: Step<P>)
    requires Ok(st) && PlaylistSeen(st, h.shown.0, h.shown.1) && st.active == h.live && st.config == h.config
    ensures PlaylistSeen(Apply(st, s), Note(h, s).shown.0, Note(h, s).shown.1)
  {
    hide Ok, Seen, Read, Generate, Grown, Shrink, Begun;
    if s.Append? || s.Unpublish? { RenewedIsSeen(st, s); }
  }

  /** Over every run: the window is the tail of the history, and the playlist is what was to be seen
      of it when the newest part came or the stream ended. */
  lemma {:induction false} PlaylistIsTheHistory<P(!new)>(st: Store<P>, h: History<P>, steps: seq<Step<P>>)
    requires Ok(st) && Shows(st, h) && PlaylistSeen(st, h.shown.0, h.shown.1)
    ensures var r, n := Run(st, steps), Notes(h, steps);
            Shows(r, n) && PlaylistSeen(r, n.shown.0, n.shown.1)
    decreases |steps|
  {
    if steps != [] {
      hide Ok, PlaylistSeen, Apply, Note, SegmentIs;
      StepKeepsOk(st, steps[0]);
      StepShows(st, h, steps[0]);
      StepIsSeen(st, h, steps[0]);
      PlaylistIsTheHistory(Apply(st, steps[0]), Note(h, steps[0]), steps[1..]);
    }
  }

  /** The same from the start of the storage. */
  lemma StorageIsHistory<P(!new)>(max: int, steps: seq<Step<P>>)
    ensures var r, n := Run(Init<P>(max), steps), Notes(Blank<P>(max), steps);
            Shows(r, n) && PlaylistSeen(r, n.shown.0, n.shown.1)
  {
    hide Read, Seen;
    InitOk<P>(max);
    PlaylistIsTheHistory(Init<P>(max), Blank<P>(max), steps);
  }
}
