/**
 The storage object, and the HTTP requests that wait on it. A request holds no lock between its
 steps: `schedule[i]` is what the publisher does before the i-th time the request takes the lock.
 */
module LlHlsStorage {
  import opened Bytes
  import opened LlHls

  const MSN_AHEAD_MAX := 2
  const SLICE := 100_000

  class Storage<P(!new)> {
    var active: bool
    var segments: seq<Segment<P>>
    var maxSegments: int
    var nextMsn: nat
    var latest: Option<(nat, nat)>
    var config: Config
    var playlist: seq<Line>

    function View(): Store<P>
      reads this
    {
      Store(active, segments, maxSegments, nextMsn, latest, config, playlist)
    }

    constructor (max: int)
      ensures View() == Init(max) && Ok(View())
    {
      active, segments, maxSegments, nextMsn, latest, config, playlist := false, [], max, 0, None, Config(0, 0), [];
      new;
      InitOk<P>(max);
    }

    method UpdateConfig(max: int, cfg: Config)
      requires Ok(View())
      modifies this
      ensures View() == Apply(old(View()), Step.UpdateConfig(max, cfg)) && Ok(View())
    {
      StepKeepsOk(View(), Step.UpdateConfig(max, cfg));
      maxSegments, config := max, cfg;
    }

    method OnPublish()
      requires Ok(View())
      modifies this
      ensures View() == Apply(old(View()), Publish) && Ok(View())
    {
      StepKeepsOk(View(), Publish);
      active := true;
    }

    /** A tail left open is closed here. */
    method OnUnpublish()
      requires Ok(View())
      modifies this
      ensures View() == Apply(old(View()), Unpublish) && Ok(View())
    {
      StepKeepsOk(View(), Unpublish);
      active := false;
      if segments != [] && !Last(segments).completed && Last(segments).parts != [] {
        segments := segments[|segments| - 1 := Last(segments).(completed := true)];
      }
      playlist := GenerateLines(segments, false, config);
    }

    /** The part joins the open segment or opens one; a closing part drops what falls out of the
        window; the playlist is renewed last. */
    method AppendPart(payload: P, duration: int, independent: bool, close: bool)
      requires Ok(View())
      modifies this
      ensures View() == Apply(old(View()), Append(payload, duration, independent, close)) && Ok(View())
    {
      hide Generate, Shrink, Ok;
      ghost var s := Append(payload, duration, independent, close);
      StepKeepsOk(View(), s);
      ghost var st := View();
      var seg: Segment<P>;
      var front: seq<Segment<P>>;
      if segments == [] || Last(segments).completed {
        seg := Segment(nextMsn, 0, false, []);
        nextMsn := nextMsn + 1;
        front := segments;
      } else {
        seg := Last(segments);
        front := segments[..|segments| - 1];
      }
      var psn := |seg.parts|;
      seg := seg.(parts := seg.parts + [Part(psn, duration, independent, payload)],
                  duration := seg.duration + duration);
      latest := Some((seg.msn, psn));
      if close { seg := seg.(completed := true); }
      segments := front + [seg];
      assert segments == Grown(st, s);
      if close { segments := ShrinkWindow(segments, maxSegments); }
      playlist := GenerateLines(segments, active, config);
    }

    method GetPart(msn: int, psn: int) returns (part: Option<Part<P>>)
      requires Ok(View())
      ensures part.Some? <==> exists p :: StoredAt(View(), msn, psn, p)
      ensures part.Some? ==> StoredAt(View(), msn, psn, part.value)
    {
      hide Ok;
      FindIsSearch(View(), msn);
      var i := Find(segments, msn);
      if i.None? || psn < 0 || psn >= |segments[i.value].parts| { return None; }
      assert StoredAt(View(), msn, psn, segments[i.value].parts[psn]);
      return Some(segments[i.value].parts[psn]);
    }

    /** The parts of a complete segment, whose concatenation is the segment. */
    method GetSegment(msn: int) returns (parts: Option<seq<Part<P>>>)
      requires Ok(View())
      ensures parts.Some? <==> exists ps :: CompleteAt(View(), msn, ps)
      ensures parts.Some? ==> CompleteAt(View(), msn, parts.value)
    {
      hide Ok;
      FindIsSearch(View(), msn);
      var i := Find(segments, msn);
      if i.None? || !segments[i.value].completed { return None; }
      assert CompleteAt(View(), msn, segments[i.value].parts);
      return Some(segments[i.value].parts);
    }

    function LatestMsn(): int
      reads this
    {
      if latest.None? then -1 else latest.value.0
    }

    /** The publisher runs while nobody else holds the lock. */
    method Publisher(steps: seq<Step<P>>)
      requires Ok(View())
      modifies this
      ensures Ok(View()) && View() == Run(old(View()), steps)
    {
      hide Ok, Apply;
      var i := 0;
      assert steps[0..] == steps;
      while i < |steps|
        invariant i <= |steps| && Ok(View())
        invariant Run(View(), steps[i..]) == Run(old(View()), steps)
      {
        assert steps[i..][1..] == steps[i + 1..];
        match steps[i] {
          case UpdateConfig(max, cfg) => UpdateConfig(max, cfg);
          case Publish => OnPublish();
          case Unpublish => OnUnpublish();
          case Append(payload, duration, independent, close) => AppendPart(payload, duration, independent, close);
        }
        i := i + 1;
      }
    }
  }

  method ShrinkWindow<P>(window: seq<Segment<P>>, max: int) returns (segments: seq<Segment<P>>)
    ensures segments == Shrink(window, max)
  {
    segments := window;
    while |segments| > max && segments != [] && segments[0].completed
      invariant Shrink(segments, max) == Shrink(window, max)
      decreases |segments|
    {
      segments := segments[1..];
    }
  }

  /** The playlist, line by line. */
  method GenerateLines<P>(segments: seq<Segment<P>>, active: bool, cfg: Config) returns (lines: seq<Line>)
    ensures lines == Generate(segments, active, cfg)
  {
    if segments == [] { return []; }
    hide Longest, Ms, SegmentLines, WindowLines;
    var last := Last(segments);
    var longest := LongestDuration(segments, cfg.segmentTarget);
    lines := [TargetDuration((Ms(longest) + 999) / 1000), ServerControl(Ms(3 * cfg.partTarget)),
              PartInf(Ms(cfg.partTarget)), MediaSequence(segments[0].msn), InitMap];
    ghost var head := lines;
    assert head == HeaderLines(segments, cfg);
    WindowStart(segments, head, last.msn);
    var i := 0;
    while i < |segments|
      invariant i <= |segments| && lines == head + WindowLines(segments[..i], last.msn)
    {
      var body := GenerateSegment(segments[i], last.msn);
      WindowStep(segments, i, head, last.msn);
      lines := lines + body;
      i := i + 1;
    }
    assert segments[..i] == segments;
    if active {
      lines := lines + [if last.completed then PreloadHint(last.msn + 1, 0) else PreloadHint(last.msn, |last.parts|)];
    }
  }

  lemma WindowStart<P>(segments: seq<Segment<P>>, head: seq<Line>, newest: nat)
    ensures head + WindowLines(segments[..0], newest) == head
  {
  }

  lemma WindowStep<P>(segments: seq<Segment<P>>, i: nat, head: seq<Line>, newest: nat)
    requires i < |segments|
    ensures head + WindowLines(segments[..i + 1], newest)
            == head + WindowLines(segments[..i], newest) + SegmentLines(segments[i], newest)
  {
    hide SegmentLines;
    assert segments[..i + 1][..i] == segments[..i];
    Assoc(head, WindowLines(segments[..i], newest), SegmentLines(segments[i], newest));
  }

  method LongestDuration<P>(segments: seq<Segment<P>>, start: int) returns (longest: int)
    ensures longest == Longest(segments, start)
  {
    longest := start;
    var i := 0;
    assert segments[0..] == segments;
    while i < |segments|
      invariant i <= |segments| && Longest(segments[i..], longest) == Longest(segments, start)
    {
      assert segments[i..][1..] == segments[i + 1..];
      longest := Max(longest, segments[i].duration);
      i := i + 1;
    }
  }

  method GenerateSegment<P>(seg: Segment<P>, newest: nat) returns (lines: seq<Line>)
    ensures lines == SegmentLines(seg, newest)
  {
    lines := [];
    if seg.msn + PART_SEGMENTS > newest {
      var j := 0;
      while j < |seg.parts|
        invariant j <= |seg.parts| && lines == PartLines(seg.msn, seg.parts[..j])
      {
        var p := seg.parts[j];
        assert seg.parts[..j + 1][..j] == seg.parts[..j];
        lines := lines + [PartLine(Ms(p.duration), seg.msn, p.psn, p.independent)];
        j := j + 1;
      }
      assert seg.parts[..j] == seg.parts;
    }
    if seg.completed { lines := lines + [ExtInf(Ms(seg.duration), seg.msn)]; }
  }

  // ----- requests

  datatype Response<+T> = BadRequest | NotFound | Found(value: T)

  function Slices(timeout: int): nat { if timeout <= 0 then 0 else (timeout + SLICE - 1) / SLICE }

  /** `used` lock sections, two for each slice of 100 ms, are as many as the time takes. */
  predicate Covers(used: int, timeout: int) {
    if timeout <= 0 then used == 0 else used % 2 == 0 && used / 2 * 100_000 - 100_000 < timeout <= used / 2 * 100_000
  }

  lemma SlicesCover(timeout: int)
    ensures Covers(2 * Slices(timeout), timeout)
  {
  }

  /** Waits in slices until the position is reached, the publisher stops, or time runs out.
      `used` counts the lock sections taken. */
  method Hold<P(!new)>(storage: Storage<P>, msn: int, psn: int, timeout: int, schedule: seq<seq<Step<P>>>, from: nat)
    returns (used: nat, reached: bool)
    requires Ok(storage.View())
    modifies storage
    ensures Ok(storage.View()) && used >= from
    ensures reached ==> Reached(storage.View(), msn, psn)
    ensures timeout > 0 && Reached(old(storage.View()), msn, psn) ==> reached
    ensures !reached ==> !storage.active || used == from + 2 * Slices(timeout)
  {
    hide Ok, Apply, Reached;
    used, reached := from, false;
    var elapsed := 0;
    while elapsed < timeout
      invariant Ok(storage.View()) && used >= from
      invariant elapsed == 0 ==> storage.View() == old(storage.View())
      invariant elapsed > 0 ==> !Reached(old(storage.View()), msn, psn)
      invariant elapsed >= 0 && elapsed % SLICE == 0 && used == from + 2 * (elapsed / SLICE)
                && (elapsed > 0 ==> elapsed < timeout + SLICE)
      decreases timeout - elapsed
    {
      ghost var st := storage.View();
      var steps := At(schedule, used);
      storage.Publisher(steps);
      used := used + 1;
      if elapsed == 0 && Reached(old(storage.View()), msn, psn) { ReachedStays(st, steps, msn, psn); }
      if IsReached(storage, msn, psn) { return used, true; }
      storage.Publisher(At(schedule, used));
      used := used + 1;
      if !storage.active { return; }
      elapsed := elapsed + SLICE;
    }
  }

  function IsReached<P(!new)>(storage: Storage<P>, msn: int, psn: int): (r: bool)
    reads storage
    ensures r == Reached(storage.View(), msn, psn)
  {
    Reached(storage.View(), msn, psn)
  }

  function At<P>(schedule: seq<seq<Step<P>>>, i: nat): seq<Step<P>> { if i < |schedule| then schedule[i] else [] }

  function LatestOf<P>(st: Store<P>): int { if st.latest.None? then -1 else st.latest.value.0 }

  /** The part number of a request as the server keeps it: the low 32 bits, signed. */
  function Cut(n: nat): int { S32(n % TWO32) }

  /** The same, as the number congruent to it between -2^31 and 2^31. */
  function Signed32(n: nat): int { (n + 0x8000_0000) % 0x1_0000_0000 - 0x8000_0000 }

  lemma CutIsSigned(n: nat)
    ensures Cut(n) == Signed32(n)
  {
  }

  /** A playlist request; `msn` and `psn` are the blocking reload directives. It is refused exactly
      when the part comes without the segment or the segment is too far ahead. Otherwise it waits,
      until the position is reached, the publisher stops or the time is used up; `held` is the state
      at that moment. If the position was reached, the playlist served answers the request. */
  method ServePlaylist<P(!new)>(storage: Storage<P>, msn: Option<nat>, psn: Option<nat>, timeout: int,
      schedule: seq<seq<Step<P>>>)
    returns (r: Response<seq<Line>>, reached: bool, used: nat, ghost held: Store<P>)
    requires Ok(storage.View())
    modifies storage
    ensures Ok(storage.View())
    ensures msn.None? ==> (r.BadRequest? <==> psn.Some?)
    ensures msn.Some? ==>
              var latest := LatestOf(Run(old(storage.View()), At(schedule, 0)));
              r.BadRequest? <==> msn.value > latest + 2
    ensures r.Found? ==> r.value == storage.playlist && r.value != []
    ensures reached ==> msn.Some? && !r.BadRequest?
    ensures reached && r.Found? ==> Answers(r.value, msn.value, if psn.Some? then Max(Signed32(psn.value), 0) else 0)
    ensures reached && r.NotFound? ==> storage.segments == []
    ensures msn.Some? && !r.BadRequest? && !reached ==> !held.active || Covers(used - 1, timeout)
  {
    hide Ok, Apply, Answers, Reached, Slices, Cut, Signed32, Covers;
    reached, used, held := false, 0, storage.View();
    SlicesCover(timeout);
    if psn.Some? { CutIsSigned(psn.value); }
    if msn.Some? {
      storage.Publisher(At(schedule, 0));
      used := 1;
      if msn.value > storage.LatestMsn() + MSN_AHEAD_MAX { return BadRequest, false, used, held; }
      used, reached := Hold(storage, msn.value, if psn.Some? then Cut(psn.value) else -1, timeout, schedule, used);
      held := storage.View();
    } else if psn.Some? {
      return BadRequest, false, used, held;
    }
    var steps := At(schedule, used);
    storage.Publisher(steps);
    if reached {
      ghost var p := if psn.Some? then Cut(psn.value) else -1;
      LaterPlaylistAnswers(held, steps, msn.value, p);
      if storage.playlist == [] && storage.segments != [] {
        RunKeepsOk(held, steps);
        ReachedStays(held, steps, msn.value, p);
        ReachedIsAnswered(storage.View(), msn.value, p);
      }
    }
    if storage.playlist == [] { return NotFound, reached, used, held; }
    return Found(storage.playlist), reached, used, held;
  }

  /** A part request; `psn` is the number as parsed. A part that is served was stored at the position
      the server makes of the request, which is the one asked for below 2^31; if that position was
      reached and the part is not served, its segment has left the window or was closed short, or the
      number became negative; if it was not reached, it was too far ahead, the publisher stopped or
      the time is used up. */
  method ServePart<P(!new)>(storage: Storage<P>, msn: nat, psn: nat, timeout: int, schedule: seq<seq<Step<P>>>)
    returns (r: Response<Part<P>>, reached: bool, used: nat, ghost held: Store<P>)
    requires Ok(storage.View())
    modifies storage
    ensures Ok(storage.View()) && !r.BadRequest?
    ensures r.Found? ==> StoredAt(storage.View(), msn, Signed32(psn), r.value)
    ensures reached && r.NotFound? ==> Signed32(psn) < 0 || Missing(storage.View(), msn, Signed32(psn))
    ensures r.NotFound? && !reached ==>
              msn > LatestOf(held) + 2 || !held.active || Covers(used - 2, timeout)
  {
    hide Ok, Apply, Reached, Slices, Cut, Signed32, Covers;
    var wanted := Cut(psn);
    CutIsSigned(psn);
    SlicesCover(timeout);
    reached, used := false, 1;
    storage.Publisher(At(schedule, 0));
    held := storage.View();
    var part := storage.GetPart(msn, wanted);
    if part.Some? { return Found(part.value), false, used, held; }
    storage.Publisher(At(schedule, 1));
    used, held := 2, storage.View();
    if msn <= storage.LatestMsn() + MSN_AHEAD_MAX {
      used, reached := Hold(storage, msn, wanted, timeout, schedule, 2);
      held := storage.View();
      var steps := At(schedule, used);
      storage.Publisher(steps);
      part := storage.GetPart(msn, wanted);
      if part.Some? { return Found(part.value), reached, used, held; }
      if reached && wanted >= 0 {
        ReachedStays(held, steps, msn, wanted);
        ReachedIsStored(storage.View(), msn, wanted);
      }
    }
    return NotFound, reached, used, held;
  }

  /** The window holds a complete segment with these parts. */
  ghost predicate CompleteAt<P>(st: Store<P>, msn: int, parts: seq<Part<P>>) {
    exists i :: 0 <= i < |st.segments| && st.segments[i].msn == msn && st.segments[i].completed
                && st.segments[i].parts == parts
  }

  /** The window holds this part at a position. */
  ghost predicate StoredAt<P>(st: Store<P>, msn: int, psn: int, part: Part<P>) {
    exists i :: 0 <= i < |st.segments| && st.segments[i].msn == msn && 0 <= psn < |st.segments[i].parts|
                && st.segments[i].parts[psn] == part
  }

  /** Below 2^31 the number is kept; from there on another part is meant. */
  lemma CutKeepsExactly(n: nat)
    ensures Cut(n) == n <==> n < TWO31
  {
  }

  /** A complete segment is its parts, one after the other. */
  method ServeSegment<P(!new)>(storage: Storage<P>, msn: nat) returns (r: Response<seq<Part<P>>>)
    requires Ok(storage.View())
    ensures !r.BadRequest?
    ensures r.Found? <==> exists parts :: CompleteAt(storage.View(), msn, parts)
    ensures r.Found? ==> CompleteAt(storage.View(), msn, r.value)
  {
    hide Ok;
    var parts := storage.GetSegment(msn);
    if parts.None? { return NotFound; }
    return Found(parts.value);
  }

  /** The window starts behind the segment, is empty, or holds the segment completed with fewer parts. */
  ghost predicate Missing<P>(st: Store<P>, msn: nat, psn: nat) {
    || st.segments == []
    || msn < st.segments[0].msn
    || exists i :: 0 <= i < |st.segments| && st.segments[i].msn == msn
                   && st.segments[i].completed && |st.segments[i].parts| <= psn
  }

  lemma ReachedIsStored<P(!new)>(st: Store<P>, msn: nat, psn: nat)
    requires Ok(st) && Reached(st, msn, psn)
    ensures Missing(st, msn, psn) || exists part :: StoredAt(st, msn, psn, part)
  {
    hide Rendered, SegmentOk;
    ReachedIsOrder(st, msn, psn);
    if st.segments != [] && st.segments[0].msn <= msn {
      var i := msn - st.segments[0].msn;
      assert st.segments[i].msn == msn;
      if psn < |st.segments[i].parts| { assert StoredAt(st, msn, psn, st.segments[i].parts[psn]); }
    }
  }
}
