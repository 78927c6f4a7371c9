/**
 The message queue of one player. Its length is limited in time; on overflow only the newest
 sequence headers stay.
 */
module LiveQueue {
  import opened Bytes
  import opened LiveJitter

  /** Times in microseconds, -1 when none was seen; a limit of zero or less is no limit. */
  datatype Queue = Queue(msgs: seq<Msg>, avStart: int, avEnd: int, limit: int)

  const EMPTY := Queue([], -1, -1, 0)

  /** The newest message that satisfies a header test. */
  function Newest(ms: seq<Msg>, video: bool): Option<Msg> {
    if ms == [] then None
    else
      var last := ms[|ms| - 1];
      if (if video then last.IsVideoHeader() else last.IsAudioHeader()) then Some(last)
          else Newest(ms[..|ms| - 1], video)
  }

  function At(m: Option<Msg>, time: int): seq<Msg> { if m.Some? then [m.value.(timestamp := time)] else [] }

  /** The message is in, its time is noted. Time zero and data messages do not count. */
  function Pushed(q: Queue, m: Msg): Queue {
    var counts := m.IsAv() && m.timestamp != 0;
    Queue(q.msgs + [m], if counts && q.avStart == -1 then m.timestamp * 1000 else q.avStart,
          if counts then m.timestamp * 1000 else q.avEnd, q.limit)
  }

  predicate Overflows(q: Queue, m: Msg) {
    var p := Pushed(q, m);
    q.limit > 0 && p.avEnd - p.avStart > q.limit
  }

  function Shrunk(q: Queue): Queue {
    q.(msgs := At(Newest(q.msgs, true), Ms(q.avEnd)) + At(Newest(q.msgs, false), Ms(q.avEnd)), avStart := q.avEnd)
  }

  /** One shrink is always enough. */
  function Enqueued(q: Queue, m: Msg): Queue { if Overflows(q, m) then Shrunk(Pushed(q, m)) else Pushed(q, m) }

  /** The queue and what it hands out: at most `max` messages from the front. */
  function Taken(q: Queue, max: nat): (Queue, seq<Msg>)
    requires max > 0
  {
    if q.msgs == [] then (q, [])
    else
      var count := Min(max, |q.msgs|);
      (q.(msgs := q.msgs[count..], avStart := q.msgs[count - 1].timestamp * 1000), q.msgs[..count])
  }

  class MessageQueue {
    var msgs: seq<Msg>
    var avStart: int
    var avEnd: int
    var limit: int

    function View(): Queue
      reads this
    {
      Queue(msgs, avStart, avEnd, limit)
    }

    constructor ()
      ensures View() == EMPTY
    {
      msgs, avStart, avEnd, limit := [], -1, -1, 0;
    }

    method SetQueueSize(size: int)
      modifies this`limit
      ensures View() == old(View()).(limit := size)
    {
      limit := size;
    }

    method Enqueue(m: Msg) returns (overflow: bool)
      modifies this
      ensures View() == Enqueued(old(View()), m) && overflow == Overflows(old(View()), m)
    {
      overflow := false;
      msgs := msgs + [m];
      if m.IsAv() && m.timestamp != 0 {
        if avStart == -1 { avStart := m.timestamp * 1000; }
        avEnd := m.timestamp * 1000;
      }
      ghost var pushed := View();
      assert pushed == Pushed(old(View()), m);
      if limit <= 0 { return; }
      while avEnd - avStart > limit
        invariant limit == old(limit) > 0
        invariant if overflow then View() == Shrunk(pushed) && Overflows(old(View()), m) else View() == pushed
        decreases avEnd - avStart
      {
        overflow := true;
        Shrink();
      }
    }

    /** Drops everything but the newest headers, which get the time of the newest message. */
    method Shrink()
      modifies this
      ensures View() == Shrunk(old(View()))
    {
      var videoHeader, audioHeader := None, None;
      var i := 0;
      while i < |msgs|
        invariant i <= |msgs| && View() == old(View())
        invariant videoHeader == Newest(msgs[..i], true) && audioHeader == Newest(msgs[..i], false)
      {
        assert msgs[..i + 1][..i] == msgs[..i];
        var m := msgs[i];
        if m.IsVideoHeader() {
          videoHeader := Some(m);
        } else if m.IsAudioHeader() {
          audioHeader := Some(m);
        }
        i := i + 1;
      }
      assert msgs[..i] == msgs;
      msgs := [];
      avStart := avEnd;
      if videoHeader.Some? { msgs := msgs + [videoHeader.value.(timestamp := Ms(avEnd))]; }
      if audioHeader.Some? { msgs := msgs + [audioHeader.value.(timestamp := Ms(avEnd))]; }
    }

    method DumpPackets(max: nat) returns (out: seq<Msg>)
      requires max > 0
      modifies this
      ensures (View(), out) == Taken(old(View()), max)
    {
      if msgs == [] { return []; }
      var count := Min(max, |msgs|);
      out := msgs[..count];
      avStart := out[count - 1].timestamp * 1000;
      msgs := msgs[count..];
    }
  }

  // ----- what the limit guarantees

  lemma SpanWithinLimit(q: Queue, m: Msg)
    requires q.limit > 0
    ensures var r := Enqueued(q, m); r.avEnd - r.avStart <= q.limit
  {
  }

  /** The newest header is a header, and none comes after it. */
  lemma {:induction false} NewestIsNewest(ms: seq<Msg>, video: bool) returns (at: nat)
    ensures Newest(ms, video).Some? ==>
              && at < |ms| && Newest(ms, video).value == ms[at]
              && (if video then ms[at].IsVideoHeader() else ms[at].IsAudioHeader())
    ensures forall i :: (if Newest(ms, video).Some? then at < i else 0 <= i) && i < |ms| ==>
              !(if video then ms[i].IsVideoHeader() else ms[i].IsAudioHeader())
  {
    if ms == [] {
      at := 0;
    } else {
      var last := ms[|ms| - 1];
      if (if video then last.IsVideoHeader() else last.IsAudioHeader()) {
        at := |ms| - 1;
      } else {
        at := NewestIsNewest(ms[..|ms| - 1], video);
      }
    }
  }

  /** After an overflow the queue holds at most one header of each kind, video before audio, and the
      span starts anew. */
  lemma OverflowLeavesHeaders(q: Queue, m: Msg)
    requires Overflows(q, m)
    ensures var r := Enqueued(q, m);
            && r.avStart == r.avEnd && |r.msgs| <= 2
            && (forall i :: 0 <= i < |r.msgs| ==> r.msgs[i].IsHeader() && r.msgs[i].timestamp == Ms(r.avEnd))
            && (|r.msgs| == 2 ==> r.msgs[0].kind == Video && r.msgs[1].kind == Audio)
            && ((exists i :: 0 <= i < |q.msgs| && q.msgs[i].IsVideoHeader()) ==>
                  |r.msgs| > 0 && r.msgs[0].kind == Video)
            && ((exists i :: 0 <= i < |q.msgs| && q.msgs[i].IsAudioHeader()) ==>
                  |r.msgs| > 0 && r.msgs[|r.msgs| - 1].kind == Audio)
  {
    hide Newest;
    var all := q.msgs + [m];
    var v := NewestIsNewest(all, true);
    var a := NewestIsNewest(all, false);
    assert forall i :: 0 <= i < |q.msgs| ==> q.msgs[i] == all[i];
  }

  // ----- a run of one queue

  datatype Op = Put(m: Msg) | Take(max: nat) | Limit(size: int)

  function Did(q: Queue, op: Op): Queue {
    match op
    case Put(m) => Enqueued(q, m)
    case Take(max) => if max > 0 then Taken(q, max).0 else q
    case Limit(size) => q.(limit := size)
  }

  function Ran(q: Queue, ops: seq<Op>): Queue
    decreases |ops|
  {
    if ops == [] then q else Ran(Did(q, ops[0]), ops[1..])
  }

  function Out(q: Queue, ops: seq<Op>): seq<Msg>
    decreases |ops|
  {
    if ops == [] then []
    else (if ops[0].Take? && ops[0].max > 0 then Taken(q, ops[0].max).1 else []) + Out(Did(q, ops[0]), ops[1..])
  }

  function In(ops: seq<Op>): seq<Msg> {
    if ops == [] then [] else (if ops[0].Put? then [ops[0].m] else []) + In(ops[1..])
  }

  predicate NeverOverflows(q: Queue, ops: seq<Op>)
    decreases |ops|
  {
    ops == [] || ((ops[0].Put? ==> !Overflows(q, ops[0].m)) && NeverOverflows(Did(q, ops[0]), ops[1..]))
  }

  /** A queue that does not overflow hands out what was put in: all of it, in order, each once. */
  lemma {:induction false} QueueIsFifo(q: Queue, ops: seq<Op>)
    requires NeverOverflows(q, ops)
    ensures Out(q, ops) + Ran(q, ops).msgs == q.msgs + In(ops)
    decreases |ops|
  {
    if ops == [] {
      assert [] + q.msgs == q.msgs + [];
    } else {
      hide Did, Taken;
      var op, rest := ops[0], ops[1..];
      var q1 := Did(q, op);
      QueueIsFifo(q1, rest);
      OpIsFifo(q, op);
      Regroup(TakenBy(q, op), Out(q1, rest), Ran(q, ops).msgs, q1.msgs, In(rest), q.msgs, PutBy(op));
    }
  }

  lemma OpIsFifo(q: Queue, op: Op)
    requires op.Put? ==> !Overflows(q, op.m)
    ensures TakenBy(q, op) + Did(q, op).msgs == q.msgs + PutBy(op)
  {
    hide Overflows;
  }

  /** Until it gets a limit, a new queue keeps everything. */
  lemma NewQueueKeepsAll(ops: seq<Op>)
    requires forall i :: 0 <= i < |ops| ==> !ops[i].Limit?
    ensures Out(EMPTY, ops) + Ran(EMPTY, ops).msgs == In(ops)
  {
    hide Out, Ran, In;
    NoLimitNoOverflow(EMPTY, ops);
    QueueIsFifo(EMPTY, ops);
    assert [] + In(ops) == In(ops);
  }

  lemma {:induction false} NoLimitNoOverflow(q: Queue, ops: seq<Op>)
    requires q.limit <= 0 && forall i :: 0 <= i < |ops| ==> !ops[i].Limit?
    ensures NeverOverflows(q, ops)
    decreases |ops|
  {
    if ops != [] { NoLimitNoOverflow(Did(q, ops[0]), ops[1..]); }
  }

  // ----- exactly what a run loses

  /** The messages that are not sequence headers: frames, and with `data` metadata too. */
  function Kept(ms: seq<Msg>, data: bool): seq<Msg> {
    if ms == [] then []
    else (if !ms[0].IsHeader() && (data || ms[0].IsAv()) then [ms[0]] else []) + Kept(ms[1..], data)
  }

  lemma {:induction false} KeptConcat(a: seq<Msg>, b: seq<Msg>, data: bool)
    ensures Kept(a + b, data) == Kept(a, data) + Kept(b, data)
  {
    hide Msg.IsHeader, Msg.IsAv;
    if a == [] {
      assert a + b == b;
    } else {
      KeptConcat(a[1..], b, data);
      var head := if !a[0].IsHeader() && (data || a[0].IsAv()) then [a[0]] else [];
      assert Kept(a + b, data) == head + Kept(a[1..] + b, data) by { assert (a + b)[1..] == a[1..] + b; }
      Assoc(head, Kept(a[1..], data), Kept(b, data));
    }
  }

  lemma {:induction false} HeadersAreNotKept(ms: seq<Msg>, data: bool)
    requires forall i :: 0 <= i < |ms| ==> ms[i].IsHeader()
    ensures Kept(ms, data) == []
  {
    if ms != [] { HeadersAreNotKept(ms[1..], data); }
  }

  /** An overflow does no harm when there is nothing but headers to drop. */
  predicate Harmless(q: Queue, op: Op, data: bool) {
    op.Put? && Overflows(q, op.m) ==> Kept(q.msgs + [op.m], data) == []
  }

  predicate HarmlessRun(q: Queue, ops: seq<Op>, data: bool)
    decreases |ops|
  {
    ops == [] || (Harmless(q, ops[0], data) && HarmlessRun(Did(q, ops[0]), ops[1..], data))
  }

  function TakenBy(q: Queue, op: Op): seq<Msg> { if op.Take? && op.max > 0 then Taken(q, op.max).1 else [] }

  function PutBy(op: Op): seq<Msg> { if op.Put? then [op.m] else [] }

  /** One operation keeps all frames, or, if it does harm, fewer. */
  lemma OpKeeps(q: Queue, op: Op, data: bool)
    ensures var before, after := Kept(q.msgs + PutBy(op), data), Kept(TakenBy(q, op) + Did(q, op).msgs, data);
            if Harmless(q, op, data) then after == before else |after| < |before|
  {
    hide Kept, Shrunk, Overflows;
    var q1 := Did(q, op);
    assert q.msgs + [] == q.msgs && [] + q1.msgs == q1.msgs;
    match op
    case Put(m) =>
      if Overflows(q, m) {
        OverflowLeavesHeaders(q, m);
        HeadersAreNotKept(q1.msgs, data);
      }
    case Take(max) => if max > 0 && q.msgs != [] { assert TakenBy(q, op) + q1.msgs == q.msgs; }
    case Limit(_) =>
  }

  lemma {:induction false} RunKeepsAtMost(q: Queue, ops: seq<Op>, data: bool)
    ensures |Kept(Out(q, ops), data)| + |Kept(Ran(q, ops).msgs, data)| <= |Kept(q.msgs, data)| + |Kept(In(ops), data)|
    decreases |ops|
  {
    hide Kept, Did, Taken;
    NothingKept(data);
    if ops != [] {
      var op, rest := ops[0], ops[1..];
      var q1 := Did(q, op);
      RunKeepsAtMost(q1, rest, data);
      OpKeeps(q, op, data);
      KeptConcat(q.msgs, PutBy(op), data);
      KeptConcat(TakenBy(q, op), q1.msgs, data);
      KeptConcat(TakenBy(q, op), Out(q1, rest), data);
      KeptConcat(PutBy(op), In(rest), data);
    }
  }

  lemma NothingKept(data: bool)
    ensures Kept([], data) == []
  {
  }

  /** Exactly when nothing is lost: over any run of puts, takes and limits, the frames handed out and
      still held are all frames put in, in order and once each, if and only if no overflow met
      anything but headers. With `data` the same of frames and metadata together. */
  lemma {:induction false} NothingLostExactly(q: Queue, ops: seq<Op>, data: bool)
    ensures Kept(Out(q, ops), data) + Kept(Ran(q, ops).msgs, data) == Kept(q.msgs, data) + Kept(In(ops), data)
            <==> HarmlessRun(q, ops, data)
    decreases |ops|
  {
    hide Kept, Did, Taken, Harmless;
    NothingKept(data);
    if ops == [] {
      assert [] + Kept(q.msgs, data) == Kept(q.msgs, data) + [];
    } else {
      var op, rest := ops[0], ops[1..];
      var q1 := Did(q, op);
      OpKeeps(q, op, data);
      NothingLostExactly(q1, rest, data);
      RunKeepsAtMost(q1, rest, data);
      KeptConcat(q.msgs, PutBy(op), data);
      KeptConcat(TakenBy(q, op), q1.msgs, data);
      KeptConcat(TakenBy(q, op), Out(q1, rest), data);
      KeptConcat(PutBy(op), In(rest), data);
      Regroup(Kept(TakenBy(q, op), data), Kept(Out(q1, rest), data), Kept(Ran(q, ops).msgs, data), Kept(q1.msgs, data),
              Kept(In(rest), data), Kept(q.msgs, data), Kept(PutBy(op), data));
    }
  }

  /** The rest of a run adds the same to both sides. */
  lemma Regroup(t: seq<Msg>, out: seq<Msg>, left: seq<Msg>, now: seq<Msg>, more: seq<Msg>, q: seq<Msg>, put: seq<Msg>)
    ensures t + now == q + put ==> (out + left == now + more <==> (t + out) + left == q + (put + more))
  {
    Assoc(t, out, left);
    Assoc(t, now, more);
    Assoc(q, put, more);
    assert (t + (out + left))[|t|..] == out + left && (t + (now + more))[|t|..] == now + more;
  }

  // ----- what the span is

  /** The time that counts, in microseconds: that of audio and video, unless zero. */
  function TimeOf(m: Msg): seq<int> { if m.IsAv() && m.timestamp != 0 then [m.timestamp * 1000] else [] }

  function Times(ms: seq<Msg>): seq<int> {
    if ms == [] then [] else Times(ms[..|ms| - 1]) + TimeOf(ms[|ms| - 1])
  }

  /** The messages are put in, one after the other. */
  function Filled(q: Queue, ms: seq<Msg>): Queue {
    if ms == [] then q else Enqueued(Filled(q, ms[..|ms| - 1]), ms[|ms| - 1])
  }

  predicate Fits(q: Queue, ms: seq<Msg>) {
    ms == [] || (Fits(q, ms[..|ms| - 1]) && !Overflows(Filled(q, ms[..|ms| - 1]), ms[|ms| - 1]))
  }

  lemma {:induction false} FilledSpan(limit: int, ms: seq<Msg>)
    requires Fits(EMPTY.(limit := limit), ms)
    ensures var q, ts := Filled(EMPTY.(limit := limit), ms), Times(ms);
            && q.msgs == ms && q.limit == limit
            && (if ts == [] then q.avStart == -1 else q.avStart == ts[0] && ts[0] != -1)
            && q.avEnd == if ts == [] then -1 else ts[|ts| - 1]
    decreases |ms|
  {
    hide Overflows, Enqueued, TimeOf;
    if ms != [] {
      var rest, m := ms[..|ms| - 1], ms[|ms| - 1];
      FilledSpan(limit, rest);
      OnePush(Filled(EMPTY.(limit := limit), rest), m);
      assert rest + [m] == ms;
      if Times(rest) != [] { assert Times(ms)[0] == Times(rest)[0]; }
    }
  }

  lemma OnePush(q: Queue, m: Msg)
    requires !Overflows(q, m)
    ensures var r, t := Enqueued(q, m), TimeOf(m);
            && r.msgs == q.msgs + [m] && r.limit == q.limit && |t| <= 1
            && (if t == [] then r.avStart == q.avStart && r.avEnd == q.avEnd
                else t[0] != -1 && r.avStart == (if q.avStart == -1 then t[0] else q.avStart) && r.avEnd == t[0])
  {
    hide Shrunk;
  }

  /** A new queue with a limit overflows exactly when the newest time in it is later than the oldest by
      more than the limit; times of zero and metadata do not count. */
  lemma NewQueueOverflowsExactly(limit: int, ms: seq<Msg>, m: Msg)
    requires Fits(EMPTY.(limit := limit), ms)
    ensures var ts := Times(ms + [m]);
            Overflows(Filled(EMPTY.(limit := limit), ms), m)
            <==> limit > 0 && ts != [] && ts[|ts| - 1] - ts[0] > limit
  {
    hide Fits, Filled, Msg.IsAv;
    FilledSpan(limit, ms);
    assert (ms + [m])[..|ms|] == ms && (ms + [m])[|ms|] == m;
    assert Times(ms + [m]) == Times(ms) + TimeOf(m);
    assert m.timestamp * 1000 != -1;
  }

  /** After any take, full or partial, the queue measures from the last message handed out,
      whatever its kind. So the next message makes it overflow exactly when the newest time then
      known is later than that message by more than the limit. */
  lemma TakenQueueOverflowsExactly(q: Queue, max: nat, m: Msg)
    requires max > 0 && q.msgs != []
    ensures var last := q.msgs[Min(max, |q.msgs|) - 1];
            var end := if m.IsAv() && m.timestamp != 0 then m.timestamp * 1000 else q.avEnd;
            Overflows(Taken(q, max).0, m) <==> q.limit > 0 && end - last.timestamp * 1000 > q.limit
  {
  }

  /** What the next message finds and leaves: every frame that was left, and the new one if it is a
      frame, is lost exactly in that case; otherwise all messages left are still there, in order. */
  lemma TakenQueueDropsExactly(q: Queue, max: nat, m: Msg, x: Msg)
    requires max > 0 && q.msgs != [] && q.limit > 0 && m.IsAv() && m.timestamp != 0
    requires !x.IsHeader() && x in q.msgs[Min(max, |q.msgs|)..] + [m]
    ensures var last := q.msgs[Min(max, |q.msgs|) - 1];
            var r := Enqueued(Taken(q, max).0, m);
            && (x !in r.msgs <==> (m.timestamp - last.timestamp) * 1000 > q.limit)
            && (x in r.msgs <==> r.msgs == q.msgs[Min(max, |q.msgs|)..] + [m])
  {
    hide Overflows, Shrunk;
    var t := Taken(q, max).0;
    TakenQueueOverflowsExactly(q, max, m);
    if Overflows(t, m) {
      OverflowLeavesHeaders(t, m);
    }
  }

  /** A drained queue: the frame put in next is dropped at once exactly when it is later than the
      last message by more than the limit. */
  lemma DrainedQueueDropsExactly(q: Queue, max: nat, m: Msg)
    requires q.limit > 0 && q.msgs != [] && max >= |q.msgs| && m.IsAv() && !m.IsHeader() && m.timestamp != 0
    ensures var last := q.msgs[|q.msgs| - 1];
            var r := Enqueued(Taken(q, max).0, m);
            && (r.msgs == [] <==> (m.timestamp - last.timestamp) * 1000 > q.limit)
            && (r.msgs != [] <==> r.msgs == [m])
  {
    hide Newest;
    TakenQueueOverflowsExactly(q, max, m);
    assert q.msgs[|q.msgs|..] + [m] == [m];
    NewestOfOne(m, true);
    NewestOfOne(m, false);
  }

  lemma NewestIsNone(ms: seq<Msg>)
    requires forall i :: 0 <= i < |ms| ==> !ms[i].IsHeader()
    ensures Newest(ms, true) == None && Newest(ms, false) == None
  {
    var v := NewestIsNewest(ms, true);
    var a := NewestIsNewest(ms, false);
  }

  lemma NewestOfOne(m: Msg, video: bool)
    ensures Newest([m], video) == if (if video then m.IsVideoHeader() else m.IsAudioHeader()) then Some(m) else None
  {
    var one := [m];
    assert one[..|one| - 1] == [];
    assert Newest([], video) == None;
  }

  /** So metadata, whose corrected time is zero, makes the next keyframe vanish once the stream is
      older than the limit. */
  lemma MetadataLosesKeyframe(meta: bytes, key: bytes)
    requires |key| >= 2 && key[0] == 0x17 && key[1] == 1
    ensures var q := Enqueued(Queue([], 60_000_000, 60_000_000, 10_000_000), Msg(Data, 0, meta));
            Enqueued(Taken(q, 128).0, Msg(Video, 60_040, key)).msgs == []
  {
    var q := Enqueued(Queue([], 60_000_000, 60_000_000, 10_000_000), Msg(Data, 0, meta));
    assert q.msgs == [Msg(Data, 0, meta)];
    DrainedQueueDropsExactly(q, 128, Msg(Video, 60_040, key));
  }
}
