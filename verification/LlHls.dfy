/**
 The in-memory LL-HLS window: segments made of parts, the cached playlist and the position up to
 which requests can be answered. Each operation of the storage is one atomic step; the theorems
 are about every run of steps. The playlist is a list of typed lines.
 */
module LlHls {
  import opened Bytes

  const PART_SEGMENTS := 3

  datatype Part<P> = Part(psn: nat, duration: int, independent: bool, payload: P)

  datatype Segment<P> = Segment(msn: nat, duration: int, completed: bool, parts: seq<Part<P>>)

  /** Durations are microseconds. */
  datatype Config = Config(partTarget: int, segmentTarget: int)

  /** Playlist lines; durations in milliseconds as printed. */
  datatype Line =
    | TargetDuration(seconds: int)
    | ServerControl(holdBack: int)
    | PartInf(target: int)
    | MediaSequence(msn: nat)
    | InitMap
    | PartLine(duration: int, msn: nat, psn: nat, independent: bool)
    | ExtInf(duration: int, msn: nat)
    | PreloadHint(msn: nat, psn: nat)

  /** `latest` is the position of the newest part, `None` before the first one. */
  datatype Store<P> = Store(active: bool, segments: seq<Segment<P>>, maxSegments: int, nextMsn: nat,
                            latest: Option<(nat, nat)>, config: Config, playlist: seq<Line>)

  function Last<T>(s: seq<T>): T
    requires s != []
  {
    s[|s| - 1]
  }

  // ----- the playlist

  function Longest<P>(segments: seq<Segment<P>>, start: int): int {
    if segments == [] then start else Longest(segments[1..], Max(start, segments[0].duration))
  }

  function PartLines<P>(msn: nat, parts: seq<Part<P>>): seq<Line> {
    if parts == [] then []
    else
      var p := Last(parts);
      PartLines(msn, parts[..|parts| - 1]) + [PartLine(Ms(p.duration), msn, p.psn, p.independent)]
  }

  /** Parts only near the live edge; the segment line once it is complete. */
  function SegmentLines<P>(seg: Segment<P>, newest: nat): seq<Line> {
    (if seg.msn + PART_SEGMENTS > newest then PartLines(seg.msn, seg.parts) else [])
    + (if seg.completed then [ExtInf(Ms(seg.duration), seg.msn)] else [])
  }

  function WindowLines<P>(segments: seq<Segment<P>>, newest: nat): seq<Line> {
    if segments == [] then []
    else WindowLines(segments[..|segments| - 1], newest) + SegmentLines(Last(segments), newest)
  }

  function HeaderLines<P>(segments: seq<Segment<P>>, cfg: Config): seq<Line>
    requires segments != []
  {
    var longest := Ms(Longest(segments, cfg.segmentTarget));
    [TargetDuration((longest + 999) / 1000), ServerControl(Ms(3 * cfg.partTarget)), PartInf(Ms(cfg.partTarget)),
     MediaSequence(segments[0].msn), InitMap]
  }

  function HintLines<P>(segments: seq<Segment<P>>, active: bool): seq<Line>
    requires segments != []
  {
    var last := Last(segments);
    if !active then []
    else if last.completed then [PreloadHint(last.msn + 1, 0)]
    else [PreloadHint(last.msn, |last.parts|)]
  }

  function Generate<P>(segments: seq<Segment<P>>, active: bool, cfg: Config): seq<Line> {
    if segments == [] then []
    else HeaderLines(segments, cfg) + WindowLines(segments, Last(segments).msn) + HintLines(segments, active)
  }

  // ----- the operations

  datatype Step<P> =
    | UpdateConfig(max: int, cfg: Config)
    | Publish
    | Unpublish
    | Append(payload: P, duration: int, independent: bool, close: bool)

  function Init<P>(max: int): Store<P> { Store(false, [], max, 0, None, Config(0, 0), []) }

  predicate HasOpen<P>(st: Store<P>) { st.segments != [] && !Last(st.segments).completed }

  /** The position that the next part will get. */
  function NextPosition<P>(st: Store<P>): (nat, nat) {
    if HasOpen(st) then (Last(st.segments).msn, |Last(st.segments).parts|) else (st.nextMsn, 0)
  }

  function Shrink<P>(segments: seq<Segment<P>>, max: int): (r: seq<Segment<P>>) {
    if |segments| > max && segments != [] && segments[0].completed then Shrink(segments[1..], max) else segments
  }

  function WithPart<P>(seg: Segment<P>, s: Step<P>): Segment<P>
    requires s.Append?
  {
    Segment(seg.msn, seg.duration + s.duration, s.close,
            seg.parts + [Part(|seg.parts|, s.duration, s.independent, s.payload)])
  }

  /** The segments once the part is in, before old ones are dropped. */
  function Grown<P>(st: Store<P>, s: Step<P>): seq<Segment<P>>
    requires s.Append?
  {
    if HasOpen(st) then st.segments[..|st.segments| - 1] + [WithPart(Last(st.segments), s)]
    else st.segments + [WithPart(Segment(st.nextMsn, 0, false, []), s)]
  }

  function Apply<P>(st: Store<P>, s: Step<P>): (r: Store<P>) {
    match s
    case UpdateConfig(max, cfg) => st.(maxSegments := max, config := cfg)
    case Publish => st.(active := true)
    case Unpublish =>
      var segments := if HasOpen(st) && Last(st.segments).parts != []
                      then st.segments[|st.segments| - 1 := Last(st.segments).(completed := true)] else st.segments;
      st.(active := false, segments := segments, playlist := Generate(segments, false, st.config))
    case Append(_, _, _, close) =>
      var segments := if close then Shrink(Grown(st, s), st.maxSegments) else Grown(st, s);
      st.(segments := segments, nextMsn := if HasOpen(st) then st.nextMsn else st.nextMsn + 1,
          latest := Some(NextPosition(st)), playlist := Generate(segments, st.active, st.config))
  }

  function Run<P>(st: Store<P>, steps: seq<Step<P>>): Store<P>
    decreases |steps|
  {
    if steps == [] then st else Run(Apply(st, steps[0]), steps[1..])
  }

  // ----- the window invariant

  function Total<P>(parts: seq<Part<P>>): int {
    if parts == [] then 0 else Total(parts[..|parts| - 1]) + Last(parts).duration
  }

  /** Parts are numbered from zero and add up to the segment. */
  predicate SegmentOk<P>(seg: Segment<P>) {
    && seg.parts != []
    && (forall j :: 0 <= j < |seg.parts| ==> seg.parts[j].psn == j)
    && seg.duration == Total(seg.parts)
  }

  predicate Consecutive<P>(segments: seq<Segment<P>>) {
    forall i :: 0 <= i < |segments| ==> segments[i].msn == segments[0].msn + i
  }

  predicate OnlyLastOpen<P>(segments: seq<Segment<P>>) {
    forall i :: 0 <= i < |segments| - 1 ==> segments[i].completed
  }

  ghost predicate Rendered<P(!new)>(playlist: seq<Line>, segments: seq<Segment<P>>) {
    exists active: bool, cfg: Config :: playlist == Generate(segments, active, cfg)
  }

  ghost predicate Ok<P(!new)>(st: Store<P>) {
    && Consecutive(st.segments) && OnlyLastOpen(st.segments)
    && (forall i :: 0 <= i < |st.segments| ==> SegmentOk(st.segments[i]))
    && (st.latest.None? ==> st.nextMsn == 0 && st.segments == [])
    && (st.latest.Some? ==> st.nextMsn == st.latest.value.0 + 1)
    && (st.segments != [] ==> st.latest == Some((Last(st.segments).msn, |Last(st.segments).parts| - 1)))
    && Rendered(st.playlist, st.segments)
  }

  lemma InitOk<P(!new)>(max: int)
    ensures Ok(Init<P>(max))
  {
    assert Init<P>(max).playlist == Generate(Init<P>(max).segments, false, Config(0, 0));
  }

  lemma TotalAppend<P>(parts: seq<Part<P>>, p: Part<P>)
    ensures Total(parts + [p]) == Total(parts) + p.duration
  {
    assert (parts + [p])[..|parts|] == parts;
  }

  lemma WithPartOk<P>(seg: Segment<P>, s: Step<P>)
    requires s.Append? && seg.duration == Total(seg.parts)
    requires forall j :: 0 <= j < |seg.parts| ==> seg.parts[j].psn == j
    ensures SegmentOk(WithPart(seg, s))
  {
    TotalAppend(seg.parts, Part(|seg.parts|, s.duration, s.independent, s.payload));
  }

  lemma GrownOk<P(!new)>(st: Store<P>, s: Step<P>)
    requires Ok(st) && s.Append?
    ensures var g := Grown(st, s);
            && g != [] && Consecutive(g) && OnlyLastOpen(g)
            && (forall i :: 0 <= i < |g| ==> SegmentOk(g[i]))
            && (Last(g).msn, |Last(g).parts| - 1) == NextPosition(st) && Last(g).completed == s.close
            && (st.segments != [] ==> g[0].msn == st.segments[0].msn)
  {
    hide Rendered, SegmentOk;
    var g := Grown(st, s);
    if HasOpen(st) {
      SegmentOkIs(Last(st.segments));
      WithPartOk(Last(st.segments), s);
    } else {
      WithPartOk(Segment(st.nextMsn, 0, false, []), s);
    }
  }

  lemma SegmentOkIs<P>(seg: Segment<P>)
    requires SegmentOk(seg)
    ensures seg.duration == Total(seg.parts) && seg.parts != [] && forall j :: 0 <= j < |seg.parts| ==>
              seg.parts[j].psn == j
  {
  }

  /** Dropping old segments keeps a tail of the window, at most `max` long if all are complete. */
  lemma {:induction false} ShrinkIsTail<P>(segments: seq<Segment<P>>, max: int) returns (k: nat)
    ensures k <= |segments| && Shrink(segments, max) == segments[k..]
    ensures (forall i :: 0 <= i < |segments| ==> segments[i].completed) ==> |segments| - k <= Max(max, 0)
    ensures max >= 1 && segments != [] ==> k < |segments|
    decreases |segments|
  {
    if |segments| > max && segments != [] && segments[0].completed {
      var k' := ShrinkIsTail(segments[1..], max);
      k := k' + 1;
      assert segments[1..][k'..] == segments[k..];
      assert forall i :: 0 <= i < |segments[1..]| ==> segments[1..][i] == segments[i + 1];
    } else {
      k := 0;
    }
  }

  lemma TailOk<P>(g: seq<Segment<P>>, k: nat)
    requires k <= |g| && Consecutive(g) && OnlyLastOpen(g) && forall i :: 0 <= i < |g| ==> SegmentOk(g[i])
    ensures var t := g[k..];
            && Consecutive(t) && OnlyLastOpen(t) && (forall i :: 0 <= i < |t| ==> SegmentOk(t[i]))
            && (t != [] ==> Last(t) == Last(g) && t[0].msn == g[0].msn + k)
  {
    hide SegmentOk;
    var t := g[k..];
    assert forall i :: 0 <= i < |t| ==> t[i] == g[k + i];
  }

  /** Every operation keeps the window invariant. */
  lemma StepKeepsOk<P(!new)>(st: Store<P>, s: Step<P>)
    requires Ok(st)
    ensures Ok(Apply(st, s))
  {
    hide SegmentOk, Generate, Shrink, Grown;
    var r := Apply(st, s);
    match s
    case UpdateConfig(_, _) =>
    case Publish =>
    case Unpublish =>
      assert r.playlist == Generate(r.segments, false, st.config);
      if HasOpen(st) {
        SegmentOkIs(Last(st.segments));
        CompleteOk(Last(st.segments));
      }
    case Append(_, _, _, close) =>
      assert r.playlist == Generate(r.segments, st.active, st.config);
      GrownOk(st, s);
      var k := 0;
      if close { k := ShrinkIsTail(Grown(st, s), st.maxSegments); } else { assert Grown(st, s)[0..] == Grown(st, s); }
      TailOk(Grown(st, s), k);
  }

  lemma CompleteOk<P>(seg: Segment<P>)
    requires SegmentOk(seg)
    ensures SegmentOk(seg.(completed := true))
  {
  }

  lemma {:induction false} RunKeepsOk<P(!new)>(st: Store<P>, steps: seq<Step<P>>)
    requires Ok(st)
    ensures Ok(Run(st, steps))
    decreases |steps|
  {
    if steps != [] {
      StepKeepsOk(st, steps[0]);
      RunKeepsOk(Apply(st, steps[0]), steps[1..]);
    }
  }

  /** A closing append leaves at most the window size. */
  lemma ClosingFits<P(!new)>(st: Store<P>, s: Step<P>)
    requires Ok(st) && s.Append? && s.close
    ensures |Apply(st, s).segments| <= Max(st.maxSegments, 0)
    ensures st.maxSegments >= 1 ==> Apply(st, s).segments != []
  {
    hide SegmentOk, Generate, Rendered;
    GrownOk(st, s);
    var g := Grown(st, s);
    var k := ShrinkIsTail(g, st.maxSegments);
    assert forall i :: 0 <= i < |g| ==> g[i].completed;
  }

  // ----- lookups

  /** The index into the window, from the distance to its first number. */
  function Find<P>(segments: seq<Segment<P>>, msn: int): Option<nat> {
    if segments == [] || msn < segments[0].msn || msn - segments[0].msn >= |segments| then None
    else Some(msn - segments[0].msn)
  }

  /** The distance finds a segment exactly when a search through the window would. */
  lemma FindIsSearch<P(!new)>(st: Store<P>, msn: int)
    requires Ok(st)
    ensures Find(st.segments, msn).Some? ==> st.segments[Find(st.segments, msn).value].msn == msn
    ensures Find(st.segments, msn).None? ==> forall i :: 0 <= i < |st.segments| ==> st.segments[i].msn != msn
    ensures forall i :: 0 <= i < |st.segments| && st.segments[i].msn == msn ==> Find(st.segments, msn) == Some(i)
  {
    hide SegmentOk, Rendered;
  }

  // ----- reached positions

  function Wanted(psn: int): nat { if psn < 0 then 0 else psn }

  predicate Reached<P>(st: Store<P>, msn: int, psn: int) {
    && st.latest.Some?
    && (|| (st.segments != [] && msn < st.segments[0].msn)
        || (if st.latest.value.0 != msn then st.latest.value.0 > msn else st.latest.value.1 >= Wanted(psn)))
  }

  /** A position is reached when the newest part is at or behind it in the order of positions. */
  predicate AtOrBefore(msn: int, psn: nat, at: (nat, nat)) { msn < at.0 || (msn == at.0 && psn <= at.1) }

  lemma ReachedIsOrder<P(!new)>(st: Store<P>, msn: int, psn: int)
    requires Ok(st)
    ensures Reached(st, msn, psn) <==> st.latest.Some? && AtOrBefore(msn, Max(psn, 0), st.latest.value)
  {
    hide SegmentOk, Rendered;
    if st.segments != [] { assert st.segments[|st.segments| - 1].msn == st.segments[0].msn + (|st.segments| - 1); }
  }

  lemma NextIsLater<P(!new)>(st: Store<P>)
    requires Ok(st) && st.latest.Some?
    ensures AtOrBefore(st.latest.value.0, st.latest.value.1, NextPosition(st))
  {
    hide SegmentOk, Rendered;
  }

  /** Once reached, always reached: across publishing, unpublishing and window moves. */
  lemma {:induction false} ReachedStays<P(!new)>(st: Store<P>, steps: seq<Step<P>>, msn: int, psn: int)
    requires Ok(st) && Reached(st, msn, psn)
    ensures Reached(Run(st, steps), msn, psn)
    decreases |steps|
  {
    if steps != [] {
      hide Reached, Generate, Shrink, Grown, Ok;
      var st1 := Apply(st, steps[0]);
      StepKeepsOk(st, steps[0]);
      ReachedIsOrder(st, msn, psn);
      ReachedIsOrder(st1, msn, psn);
      NextIsLater(st);
      assert st1.latest == st.latest || st1.latest == Some(NextPosition(st));
      ReachedStays(st1, steps[1..], msn, psn);
    }
  }

  // ----- what a served playlist says

  /** The playlist lists the part, or its segment as complete, or starts behind it. */
  predicate Answers(playlist: seq<Line>, msn: int, psn: nat) {
    || (exists i :: 0 <= i < |playlist| && playlist[i].PartLine? && playlist[i].msn == msn && playlist[i].psn == psn)
    || (exists i :: 0 <= i < |playlist| && playlist[i].ExtInf? && playlist[i].msn == msn)
    || (exists i :: 0 <= i < |playlist| && playlist[i].MediaSequence? && playlist[i].msn > msn)
  }

  lemma {:induction false} PartLinesAt<P>(msn: nat, parts: seq<Part<P>>, j: nat)
    requires j < |parts|
    ensures |PartLines(msn, parts)| == |parts|
    ensures PartLines(msn, parts)[j] == PartLine(Ms(parts[j].duration), msn, parts[j].psn, parts[j].independent)
  {
    var rest := parts[..|parts| - 1];
    if rest != [] { PartLinesAt(msn, rest, if j < |rest| then j else 0); }
  }

  lemma {:induction false} WindowHolds<P>(segments: seq<Segment<P>>, newest: nat, i: nat) returns (at: nat)
    requires i < |segments|
    ensures at + |SegmentLines(segments[i], newest)| <= |WindowLines(segments, newest)|
    ensures WindowLines(segments, newest)[at..at + |SegmentLines(segments[i], newest)|]
            == SegmentLines(segments[i], newest)
    decreases |segments|
  {
    hide SegmentLines;
    var rest, all := segments[..|segments| - 1], WindowLines(segments, newest);
    var before := WindowLines(rest, newest);
    if i == |segments| - 1 {
      at := |before|;
      assert all[at..] == SegmentLines(segments[i], newest);
    } else {
      at := WindowHolds(rest, newest, i);
      assert all[..|before|] == before;
      assert all[at..at + |SegmentLines(segments[i], newest)|] == before[at..at + |SegmentLines(segments[i], newest)|];
    }
  }

  /** A line of a segment in the window is a line of the playlist. */
  lemma LineIsListed<P>(segments: seq<Segment<P>>, active: bool, cfg: Config, i: nat, j: nat) returns (at: nat)
    requires i < |segments| && j < |SegmentLines(segments[i], Last(segments).msn)|
    ensures at < |Generate(segments, active, cfg)|
    ensures Generate(segments, active, cfg)[at] == SegmentLines(segments[i], Last(segments).msn)[j]
  {
    hide SegmentLines, WindowLines, HeaderLines, HintLines;
    var newest := Last(segments).msn;
    var h, w := HeaderLines(segments, cfg), WindowLines(segments, newest);
    var k := WindowHolds(segments, newest, i);
    var lines := SegmentLines(segments[i], newest);
    assert w[k..k + |lines|][j] == lines[j];
    at := |h| + k + j;
  }

  /** Whatever playlist is cached while a position is reached answers a request for it. */
  lemma ReachedIsAnswered<P(!new)>(st: Store<P>, msn: nat, psn: int)
    requires Ok(st) && Reached(st, msn, psn) && st.segments != []
    ensures st.playlist != [] && Answers(st.playlist, msn, Max(psn, 0))
  {
    hide Generate, SegmentOk;
    var active, cfg :| st.playlist == Generate(st.segments, active, cfg);
    var segs := st.segments;
    ReachedIsOrder(st, msn, psn);
    if msn < segs[0].msn {
      StartsBehind(segs, active, cfg);
    } else {
      var i := msn - segs[0].msn;
      var seg, newest := segs[i], Last(segs).msn;
      if seg.completed {
        var lines := SegmentLines(seg, newest);
        assert lines[|lines| - 1] == ExtInf(Ms(seg.duration), msn);
        var at := LineIsListed(segs, active, cfg, i, |lines| - 1);
      } else {
        assert i == |segs| - 1;
        SegmentOkIs(seg);
        PartLinesAt(msn, seg.parts, Wanted(psn));
        var lines := SegmentLines(seg, newest);
        assert lines[Wanted(psn)] == PartLines(msn, seg.parts)[Wanted(psn)];
        var at := LineIsListed(segs, active, cfg, i, Wanted(psn));
      }
    }
  }

  lemma StartsBehind<P>(segments: seq<Segment<P>>, active: bool, cfg: Config)
    requires segments != []
    ensures var p := Generate(segments, active, cfg); |p| > 3 && p[3] == MediaSequence(segments[0].msn)
  {
  }

  /** Blocking reload: once the awaited position is reached, any playlist served then or after any
      further steps, including unpublish and republish, answers the request. */
  lemma LaterPlaylistAnswers<P(!new)>(st: Store<P>, steps: seq<Step<P>>, msn: nat, psn: int)
    requires Ok(st) && Reached(st, msn, psn)
    ensures var later := Run(st, steps); later.playlist != [] ==> Answers(later.playlist, msn, Max(psn, 0))
  {
    hide Generate, SegmentOk, Reached;
    RunKeepsOk(st, steps);
    ReachedStays(st, steps, msn, psn);
    var later := Run(st, steps);
    if later.segments == [] {
      EmptyWindow(later);
    } else {
      ReachedIsAnswered(later, msn, psn);
    }
  }

  lemma EmptyWindow<P(!new)>(st: Store<P>)
    requires Ok(st) && st.segments == []
    ensures st.playlist == []
  {
  }

  // ----- the times in a playlist

  lemma {:induction false} LongestCovers<P>(segments: seq<Segment<P>>, start: int)
    ensures Longest(segments, start) >= start
    ensures forall i :: 0 <= i < |segments| ==> Longest(segments, start) >= segments[i].duration
    decreases |segments|
  {
    if segments != [] {
      LongestCovers(segments[1..], Max(start, segments[0].duration));
      assert forall i :: 0 < i < |segments| ==> segments[i] == segments[1..][i - 1];
    }
  }

  /** TARGETDURATION is the least whole number of seconds that covers the configured target and
      every segment duration, as the playlist rounds them. */
  lemma TargetIsLeast<P>(segments: seq<Segment<P>>, active: bool, cfg: Config, n: int)
    requires segments != []
    ensures var p := Generate(segments, active, cfg);
            && |p| > 0 && p[0].TargetDuration?
            && (p[0].seconds <= n <==> Ms(cfg.segmentTarget) <= n * 1000 && forall i :: 0 <= i < |segments| ==>
                 Ms(segments[i].duration) <= n * 1000)
  {
    hide WindowLines, HintLines, Longest;
    var longest := Longest(segments, cfg.segmentTarget);
    LongestCovers(segments, cfg.segmentTarget);
    forall d: int | d <= longest ensures Ms(d) <= Ms(longest) { MsGrows(d, longest); }
    if Ms(cfg.segmentTarget) <= n * 1000 && forall i :: 0 <= i < |segments| ==> Ms(segments[i].duration) <= n * 1000 {
      LongestIsOne(segments, cfg.segmentTarget);
    }
    CeilIsLeast(Ms(longest), n);
  }

  lemma {:induction false} LongestIsOne<P>(segments: seq<Segment<P>>, start: int)
    ensures || Longest(segments, start) == start
            || exists i :: 0 <= i < |segments| && Longest(segments, start) == segments[i].duration
    decreases |segments|
  {
    if segments != [] { LongestIsOne(segments[1..], Max(start, segments[0].duration)); }
  }

  lemma CeilIsLeast(ms: int, n: int)
    ensures (ms + 999) / 1000 <= n <==> ms <= n * 1000
  {
  }

  /** TARGETDURATION, in seconds, covers every segment duration listed. */
  lemma TargetCovers<P(!new)>(st: Store<P>, i: nat)
    requires Ok(st) && i < |st.segments|
    ensures st.playlist != [] && st.playlist[0].TargetDuration?
    ensures st.playlist[0].seconds * 1000 >= Ms(st.segments[i].duration)
  {
    hide Generate, SegmentOk;
    var active, cfg :| st.playlist == Generate(st.segments, active, cfg);
    TargetIsLeast(st.segments, active, cfg, 0);
    TargetIsLeast(st.segments, active, cfg, st.playlist[0].seconds);
  }

  /** The advertised hold-back is at least three times the advertised part target. */
  lemma HoldBackCoversThreeParts<P>(segments: seq<Segment<P>>, active: bool, cfg: Config)
    requires segments != [] && cfg.partTarget >= 0
    ensures var p := Generate(segments, active, cfg);
            |p| > 2 && p[1].ServerControl? && p[2].PartInf? && 3 * p[2].target <= p[1].holdBack < 3 * p[2].target + 3
  {
    hide WindowLines, HintLines, Longest;
  }

  lemma MsGrows(a: int, b: int)
    requires a <= b
    ensures Ms(a) <= Ms(b) <= (Ms(b) + 999) / 1000 * 1000
  {
  }
}
