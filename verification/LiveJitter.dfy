/**
 Messages of a live stream, and the corrector that gives every player a timeline of its own.
 */
module LiveJitter {
  import opened Bytes

  datatype Kind = Audio | Video | Data

  /** A message on its way to the players; the payload starts with the FLV tag header. */
  datatype Msg = Msg(kind: Kind, timestamp: int, payload: bytes) {
    predicate IsAv() { kind == Audio || kind == Video }

    predicate IsH264() { |payload| >= 1 && payload[0] % 16 == 7 }

    predicate IsKeyframe() { |payload| >= 1 && payload[0] % 128 / 16 == 1 }

    predicate IsVideoHeader() { kind == Video && IsH264() && |payload| >= 2 && payload[0] / 16 == 1 && payload[1] == 0 }

    predicate IsAudioHeader() { kind == Audio && |payload| >= 2 && payload[0] / 16 == 10 && payload[1] == 0 }

    predicate IsHeader() { IsVideoHeader() || IsAudioHeader() }
  }

  datatype Algorithm = Full | Zero | Off

  const MAX_JITTER := 250
  const DEFAULT_FRAME := 10

  /** `correct` is the last time given out, -1 before the first; `last` the last time seen. */
  datatype State = State(correct: int, last: int)

  const START := State(-1, 0)

  /** How far the corrected time is to move. */
  function Step(last: int, time: int): int {
    if time - last < -MAX_JITTER || time - last > MAX_JITTER then DEFAULT_FRAME else time - last
  }

  function Corrected(j: State, m: Msg, ag: Algorithm): (State, Msg) {
    match ag
    case Off => (j, m)
    case Zero =>
      var base := if j.correct == -1 then m.timestamp else j.correct;
      (j.(correct := base), m.(timestamp := m.timestamp - base))
    case Full =>
      if !m.IsAv() then (j, m.(timestamp := 0))
      else
        var t := Max(0, j.correct + Step(j.last, m.timestamp));
        (State(t, m.timestamp), m.(timestamp := t))
  }

  function CorrectAll(j: State, ms: seq<Msg>, ag: Algorithm): (State, seq<Msg>)
    decreases |ms|
  {
    if ms == [] then (j, [])
    else
      var (j1, m1) := Corrected(j, ms[0], ag);
      var (j2, rest) := CorrectAll(j1, ms[1..], ag);
      (j2, [m1] + rest)
  }

  class Corrector {
    var correct: int
    var last: int

    function View(): State
      reads this
    {
      State(correct, last)
    }

    constructor ()
      ensures View() == START
    {
      correct, last := -1, 0;
    }

    method Correct(m: Msg, ag: Algorithm) returns (r: Msg)
      modifies this
      ensures (View(), r) == Corrected(old(View()), m, ag)
    {
      if ag != Full {
        if ag == Off { return m; }
        if correct == -1 { correct := m.timestamp; }
        return m.(timestamp := m.timestamp - correct);
      }
      if !m.IsAv() { return m.(timestamp := 0); }
      var delta := m.timestamp - last;
      if delta < -MAX_JITTER || delta > MAX_JITTER { delta := DEFAULT_FRAME; }
      correct := Max(0, correct + delta);
      last := m.timestamp;
      return m.(timestamp := correct);
    }
  }

  // ----- what the corrected timeline looks like

  function AvTimes(ms: seq<Msg>): seq<int> {
    if ms == [] then [] else (if ms[0].IsAv() then [ms[0].timestamp] else []) + AvTimes(ms[1..])
  }

  /** Full correction works on the audio and video times alone. */
  function Timeline(j: State, times: seq<int>): seq<int>
    decreases |times|
  {
    if times == [] then []
    else
      var t := Max(0, j.correct + Step(j.last, times[0]));
      [t] + Timeline(State(t, times[0]), times[1..])
  }

  lemma {:induction false} TimelineIsCorrection(j: State, ms: seq<Msg>)
    ensures AvTimes(CorrectAll(j, ms, Full).1) == Timeline(j, AvTimes(ms))
    decreases |ms|
  {
    if ms != [] {
      var (j1, m1) := Corrected(j, ms[0], Full);
      var rest := CorrectAll(j1, ms[1..], Full).1;
      TimelineIsCorrection(j1, ms[1..]);
      assert ([m1] + rest)[1..] == rest;
      if ms[0].IsAv() {
        var times := [ms[0].timestamp] + AvTimes(ms[1..]);
        assert times[1..] == AvTimes(ms[1..]);
      } else {
        assert [] + AvTimes(rest) == AvTimes(rest) && [] + AvTimes(ms[1..]) == AvTimes(ms[1..]);
      }
    }
  }

  /** Correction changes times only: payloads, kinds and order stay, and what is not audio or
      video gets time zero. */
  lemma {:induction false} OnlyTimesChange(j: State, ms: seq<Msg>, ag: Algorithm, i: nat)
    requires i < |ms|
    ensures var r := CorrectAll(j, ms, ag).1;
            && |r| == |ms| && r[i].kind == ms[i].kind && r[i].payload == ms[i].payload
            && (ag == Full && !ms[i].IsAv() ==> r[i].timestamp == 0)
    decreases |ms|
  {
    var j1 := Corrected(j, ms[0], ag).0;
    if i > 0 {
      OnlyTimesChange(j1, ms[1..], ag, i - 1);
    } else if |ms| > 1 {
      OnlyTimesChange(j1, ms[1..], ag, 0);
    } else {
      assert CorrectAll(j1, ms[1..], ag).1 == [];
    }
  }

  /** The zero algorithm moves the whole stream so that it starts at time zero; off leaves it alone. */
  lemma {:induction false} ZeroIsShift(j: State, ms: seq<Msg>, i: nat)
    requires i < |ms| && (j.correct == -1 ==> ms[0].timestamp != -1)
    ensures var r := CorrectAll(j, ms, Zero).1;
            && |r| == |ms| && r[i].timestamp == ms[i].timestamp - if j.correct == -1 then ms[0].timestamp else j.correct
    decreases |ms|
  {
    var j1 := Corrected(j, ms[0], Zero).0;
    if |ms| > 1 { ZeroIsShift(j1, ms[1..], if i > 0 then i - 1 else 0); }
  }

  lemma {:induction false} OffIsIdentity(j: State, ms: seq<Msg>)
    ensures CorrectAll(j, ms, Off) == (j, ms)
    decreases |ms|
  {
    if ms != [] {
      OffIsIdentity(j, ms[1..]);
      assert ms == [ms[0]] + ms[1..];
    }
  }

  /** The corrected time before position i of a run. */
  function Before(j: State, out: seq<int>, i: nat): int
    requires i <= |out|
  {
    if i == 0 then j.correct else out[i - 1]
  }

  function Seen(j: State, times: seq<int>, i: nat): int
    requires i <= |times|
  {
    if i == 0 then j.last else times[i - 1]
  }

  lemma {:induction false} TimelineAt(j: State, times: seq<int>, i: nat)
    requires i < |times|
    ensures var out := Timeline(j, times);
            && |out| == |times|
            && out[i] == Max(0, Before(j, out, i) + Step(Seen(j, times, i), times[i]))
    decreases |times|
  {
    var t := Max(0, j.correct + Step(j.last, times[0]));
    var j1, rest := State(t, times[0]), times[1..];
    var tail := Timeline(j1, rest);
    if i > 0 {
      TimelineAt(j1, rest, i - 1);
      assert Before(j1, tail, i - 1) == Before(j, [t] + tail, i);
      assert Seen(j1, rest, i - 1) == Seen(j, times, i);
    } else if rest != [] {
      TimelineAt(j1, rest, 0);
    }
  }

  /** Over any run, every corrected time is nonnegative and at most 250 ms from the one before. */
  lemma TimelineIsSteady(j: State, times: seq<int>, i: nat)
    requires j.correct >= -1 && i < |times|
    ensures var out := Timeline(j, times);
            |out| == |times| && out[i] >= 0 && -250 <= out[i] - Before(j, out, i) <= 250
  {
    hide Timeline;
    TimelineAt(j, times, i);
    if i > 0 { TimelineAt(j, times, i - 1); }
  }

  /** Each corrected time, from the one before: a step of at most 250 ms either way is taken over, any
      other counts as 10 ms, and nothing goes below zero. The first message counts from time zero, one
      millisecond early. */
  lemma TimelineExactly(times: seq<int>, i: nat)
    requires i < |times|
    ensures var out := Timeline(START, times);
            && |out| == |times|
            && var before, step := if i == 0 then -1 else out[i - 1], times[i] - if i == 0 then 0 else times[i - 1];
            out[i] == Max(0, before + if -250 <= step <= 250 then step else 10)
  {
    hide Timeline;
    TimelineAt(START, times, i);
  }

  /** The input spacing is kept exactly when the step is at most 250 ms either way and does not lead
      below zero. */
  lemma SpacingKeptExactly(j: State, times: seq<int>, i: nat)
    requires 0 < i < |times|
    ensures var out := Timeline(j, times);
            var step := times[i] - times[i - 1];
            && |out| == |times|
            && (out[i] - out[i - 1] == step <==> -250 <= step <= 250 && out[i - 1] + step >= 0)
  {
    hide Timeline;
    TimelineAt(j, times, i);
    TimelineAt(j, times, i - 1);
  }

  /** While input steps are between 0 and 250 ms, the whole timeline is the input's, moved by a constant. */
  lemma {:induction false} SmoothInputIsShifted(j: State, times: seq<int>, i: nat)
    requires i < |times| && forall k :: 0 < k < |times| ==> 0 <= times[k] - times[k - 1] <= 250
    ensures var out := Timeline(j, times); |out| == |times| && out[i] - out[0] == times[i] - times[0]
  {
    hide Timeline;
    TimelineAt(j, times, i);
    if i > 0 {
      TimelineAt(j, times, i - 1);
      SmoothInputIsShifted(j, times, i - 1);
    }
  }

  /** Corrected time goes back exactly when the input goes back by at most 250 ms and there is room
      above zero. So the corrector does not make times monotonic, although it says so. */
  lemma GoesBackExactly(j: State, times: seq<int>, i: nat)
    requires 0 < i < |times|
    ensures var out := Timeline(j, times);
            var step := times[i] - times[i - 1];
            |out| == |times| && (out[i] < out[i - 1] <==> -250 <= step < 0 && out[i - 1] > 0)
  {
    hide Timeline;
    TimelineAt(j, times, i);
    TimelineAt(j, times, i - 1);
  }

  lemma NotMonotonic()
    ensures Timeline(START, [100, 50]) == [99, 49]
  {
    assert [100, 50][1..] == [50] && [50][1..] == [];
    assert Timeline(State(99, 100), [50]) == [49] + Timeline(State(49, 50), []);
  }
}
