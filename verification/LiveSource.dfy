/**
 One live source: its caches, its players and who may publish. Every locked method is one atomic
 step; publisher and players take steps in any order. The theorems are about every run.
 */
module LiveSource {
  import opened Bytes
  import opened LiveJitter
  import G = LiveGop
  import Q = LiveQueue

  type Av = m: Msg | m.IsAv() witness Msg(Audio, 0, [])
  type Script = m: Msg | !m.IsAv() witness Msg(Data, 0, [])

  datatype Consumer = Consumer(jitter: State, queue: Q.Queue)

  const NEW := Consumer(START, Q.EMPTY)

  /** `active` is the hub's flag; the three options are the metadata cache. */
  datatype Source = Source(canPublish: bool, active: bool, gop: G.Gop, meta: Option<Msg>, audio: Option<Msg>,
                           video: Option<Msg>, ag: Algorithm, consumers: map<nat, Consumer>)

  const IDLE := Source(true, false, G.EMPTY, None, None, None, Full, map[])

  datatype Step =
    | Media(m: Av)
    | Metadata(data: Script)
    | Publish(hubOk: bool)
    | Unpublish
    | Create(id: nat)
    | Dumps(id: nat, ds: bool, dm: bool, dg: bool, limit: int)
    | Destroy(id: nat)
    | SetCache(enabled: bool)
    | SetMaxFrames(frames: int)
    | Take(id: nat, max: nat)

  // ----- players

  function Fed(c: Consumer, m: Msg, ag: Algorithm): Consumer {
    var (j, m1) := Corrected(c.jitter, m, ag);
    Consumer(j, Q.Enqueued(c.queue, m1))
  }

  function FedAll(c: Consumer, ms: seq<Msg>, ag: Algorithm): Consumer
    decreases |ms|
  {
    if ms == [] then c else FedAll(Fed(c, ms[0], ag), ms[1..], ag)
  }

  function Opt(m: Option<Msg>): seq<Msg> { if m.Some? then [m.value] else [] }

  /** What a player gets to start with: metadata, audio header, video header, cached media. */
  function Prefill(s: Source, ds: bool, dm: bool, dg: bool): seq<Msg> {
    if !s.active then []
    else
      (if dm then Opt(s.meta) else [])
      + (if ds then Opt(s.audio) + Opt(s.video) else [])
      + (if dg then s.gop.msgs else [])
  }

  /** The message that a step publishes. */
  function Carried(step: Step): seq<Msg> {
    match step
    case Media(m) => [m]
    case Metadata(data) => [data]
    case _ => []
  }

  /** The messages a step passes to a player. */
  function Input(s: Source, step: Step, id: nat): seq<Msg> {
    match step
    case Dumps(i, ds, dm, dg, _) => if i == id then Prefill(s, ds, dm, dg) else []
    case _ => Carried(step)
  }

  /** A step as one player sees it. */
  function Moved(s: Source, step: Step, id: nat, c: Consumer): Consumer {
    match step
    case Dumps(i, _, _, _, limit) =>
      if i == id then FedAll(c.(queue := c.queue.(limit := limit)), Input(s, step, id), s.ag) else c
    case Take(i, max) => if i == id && max > 0 then c.(queue := Q.Taken(c.queue, max).0) else c
    case _ => FedAll(c, Input(s, step, id), s.ag)
  }

  function Players(s: Source, step: Step): map<nat, Consumer> {
    var moved := map id | id in s.consumers :: Moved(s, step, id, s.consumers[id]);
    match step
    case Create(id) => if id in s.consumers then moved else moved[id := NEW]
    case Destroy(id) => moved - {id}
    case _ => moved
  }

  // ----- the source

  /** A codec without sequence headers leaves its first audio message in the header's place. */
  function OnMedia(s: Source, m: Av): Source {
    var video := if m.IsVideoHeader() then Some(m) else s.video;
    var audio := if m.kind == Audio && (m.IsAudioHeader() || s.audio.None?) then Some(m) else s.audio;
    s.(video := video, audio := audio, gop := if m.IsHeader() then s.gop else G.Cached(s.gop, m))
  }

  function OnPublish(s: Source, hubOk: bool): Source {
    if !s.canPublish || !hubOk then s
    else s.(canPublish := false, active := true, meta := None, audio := None, video := None)
  }

  function Caches(s: Source, step: Step): Source {
    match step
    case Media(m) => OnMedia(s, m)
    case Metadata(data) => s.(meta := Some(data))
    case Publish(hubOk) => OnPublish(s, hubOk)
    case Unpublish => if s.canPublish then s else s.(canPublish := true, active := false, gop := G.Cleared(s.gop))
    case SetCache(enabled) => s.(gop := G.SetEnabled(s.gop, enabled))
    case SetMaxFrames(frames) => s.(gop := s.gop.(limit := frames))
    case _ => s
  }

  function Apply(s: Source, step: Step): Source { Caches(s, step).(consumers := Players(s, step)) }

  function Run(s: Source, steps: seq<Step>): Source
    decreases |steps|
  {
    if steps == [] then s else Run(Apply(s, steps[0]), steps[1..])
  }

  // ----- what was published

  /** All messages, headers and metadata included. */
  function Published(steps: seq<Step>): seq<Msg> {
    if steps == [] then []
    else Carried(steps[0]) + Published(steps[1..])
  }

  /** Audio and video that is not a sequence header. */
  function Frames(ms: seq<Msg>): seq<Msg> { Q.Kept(ms, false) }

  predicate AllFrames(ms: seq<Msg>) { forall i :: 0 <= i < |ms| ==> ms[i].IsAv() && !ms[i].IsHeader() }

  lemma FramesConcat(a: seq<Msg>, b: seq<Msg>)
    ensures Frames(a + b) == Frames(a) + Frames(b)
  {
    Q.KeptConcat(a, b, false);
  }

  // ----- the caches over a run

  /** Publishing is refused exactly while the hub is active. */
  predicate Ok(s: Source) { G.Ok(s.gop) && s.active == !s.canPublish }

  lemma StepKeepsOk(s: Source, step: Step)
    requires Ok(s)
    ensures Ok(Apply(s, step))
  {
    hide Players, G.Cached, G.Playable, G.Trailing, G.Videos, Msg.IsHeader;
    G.ClearedOk(s.gop);
    if step.Media? { G.CachedOk(s.gop, step.m); }
  }

  lemma {:induction false} RunKeepsOk(s: Source, steps: seq<Step>)
    requires Ok(s)
    ensures Ok(Run(s, steps))
    decreases |steps|
  {
    hide Ok, Apply;
    if steps != [] {
      StepKeepsOk(s, steps[0]);
      RunKeepsOk(Apply(s, steps[0]), steps[1..]);
    }
  }

  /** The frames that a step publishes and the cache would take. */
  function NewFrames(step: Step): seq<Msg> {
    if step.Media? && !step.m.IsHeader() && G.Cacheable(step.m) then [step.m] else []
  }

  function CacheableFrames(steps: seq<Step>): seq<Msg> {
    if steps == [] then [] else NewFrames(steps[0]) + CacheableFrames(steps[1..])
  }

  lemma StepKeepsSuffix(s: Source, step: Step, h: seq<Msg>)
    requires Ok(s) && G.Suffix(s.gop.msgs, h)
    ensures G.Suffix(Apply(s, step).gop.msgs, h + NewFrames(step))
  {
    hide Players, G.Cached, G.Ok, G.Cacheable, Msg.IsHeader;
    assert h + [] == h;
    assert G.Suffix([], h);
    if step.Media? { G.CachedIsSuffix(s.gop, step.m, h); }
  }

  /** The cache is at all times an unbroken end of the audio and H.264 frames published. */
  lemma {:induction false} CacheIsSuffix(s: Source, steps: seq<Step>, h: seq<Msg>)
    requires Ok(s) && G.Suffix(s.gop.msgs, h)
    ensures G.Suffix(Run(s, steps).gop.msgs, h + CacheableFrames(steps))
    decreases |steps|
  {
    hide Ok, Apply, G.Suffix, NewFrames;
    if steps == [] {
      assert h + [] == h;
    } else {
      StepKeepsSuffix(s, steps[0], h);
      StepKeepsOk(s, steps[0]);
      CacheIsSuffix(Apply(s, steps[0]), steps[1..], h + NewFrames(steps[0]));
      Assoc(h, NewFrames(steps[0]), CacheableFrames(steps[1..]));
    }
  }

  /** The frames that could be cached since the cache was last cleared: by its limit, by the end of a
      publication or by being switched off. */
  function PastStep(s: Source, step: Step, h: seq<Msg>): seq<Msg> {
    match step
    case Media(m) => if m.IsHeader() then h else if s.gop.enabled then G.Past(s.gop, m, h) else []
    case Unpublish => if s.canPublish then h else []
    case SetCache(enabled) => if enabled then h else []
    case _ => h
  }

  function PastRun(s: Source, steps: seq<Step>, h: seq<Msg>): seq<Msg>
    decreases |steps|
  {
    if steps == [] then h else PastRun(Apply(s, steps[0]), steps[1..], PastStep(s, steps[0], h))
  }

  lemma StepKeepsLongest(s: Source, step: Step, h: seq<Msg>)
    requires Ok(s) && G.Longest(s.gop.msgs, h)
    ensures G.Longest(Apply(s, step).gop.msgs, PastStep(s, step, h))
  {
    hide Players, G.Cached, G.Ok, G.Longest, G.Past, Msg.IsHeader;
    G.NothingIsLongest();
    if step.Media? {
      if s.gop.enabled { G.CacheIsLongest(s.gop, step.m, h); } else { DisabledIsEmpty(s.gop, step.m); }
    }
  }

  lemma DisabledIsEmpty(g: G.Gop, m: Msg)
    requires G.Ok(g) && !g.enabled
    ensures g.msgs == [] && G.Cached(g, m) == g
  {
  }

  /** Over any run, with whatever limits and switches, the cache is the longest playable end of the
      frames that could be cached since it was last cleared, and it starts with a keyframe exactly
      when one of them is still followed by a playable stretch. */
  lemma {:induction false} CacheIsLongestEnd(s: Source, steps: seq<Step>, h: seq<Msg>)
    requires Ok(s) && G.Longest(s.gop.msgs, h)
    ensures var c, past := Run(s, steps).gop.msgs, PastRun(s, steps, h);
            && G.Longest(c, past)
            && (c != [] && G.Key(c[0]) <==> exists j :: 0 <= j < |past| && G.Key(past[j]) && G.Playable(past[j..]))
    decreases |steps|
  {
    hide Ok, Apply, G.Longest, G.Key, G.Playable, PastStep;
    if steps == [] {
      G.LongestStartsWithKey(s.gop.msgs, h);
    } else {
      StepKeepsLongest(s, steps[0], h);
      StepKeepsOk(s, steps[0]);
      CacheIsLongestEnd(Apply(s, steps[0]), steps[1..], PastStep(s, steps[0], h));
    }
  }

  /** They are those among the published frames that can be cached. */
  lemma {:induction false} CacheableFramesAre(steps: seq<Step>)
    ensures CacheableFrames(steps) == G.CacheableOf(Frames(Published(steps)))
  {
    hide G.Cacheable, Msg.IsHeader, Msg.IsAv;
    if steps != [] {
      CacheableFramesAre(steps[1..]);
      var c := Carried(steps[0]);
      FramesConcat(c, Published(steps[1..]));
      G.CacheableConcat(Frames(c), Frames(Published(steps[1..])));
      NoFrames();
      if c != [] {
        OneFrame(c[0]);
        OneCacheable(c[0]);
      }
    }
  }

  lemma OneCacheable(m: Msg)
    ensures G.CacheableOf([m]) == if G.Cacheable(m) then [m] else []
  {
    assert [m][1..] == [];
  }

  lemma OneFrame(m: Msg)
    ensures Frames([m]) == if m.IsAv() && !m.IsHeader() then [m] else []
  {
    assert [m][1..] == [];
    assert Q.Kept([], false) == [];
  }

  lemma NoFrames()
    ensures Frames([]) == [] && G.CacheableOf([]) == []
  {
  }

  // ----- the metadata cache over a run

  /** The messages since the stream was last published, with those before in `h`. */
  function Since(s: Source, steps: seq<Step>, h: seq<Msg>): seq<Msg>
    decreases |steps|
  {
    if steps == [] then h
    else
      var h1 := if steps[0].Publish? && s.canPublish && steps[0].hubOk then [] else h + Carried(steps[0]);
      Since(Apply(s, steps[0]), steps[1..], h1)
  }

  /** The newest message of a kind. */
  function NewestData(h: seq<Msg>): Option<Msg> {
    if h == [] then None else if !h[|h| - 1].IsAv() then Some(h[|h| - 1]) else NewestData(h[..|h| - 1])
  }

  function FirstAudio(h: seq<Msg>): Option<Msg> {
    if h == [] then None else if h[0].kind == Audio then Some(h[0]) else FirstAudio(h[1..])
  }

  /** The caches hold the newest metadata and headers since publishing; in the place of an audio
      header that never came, the first audio message. */
  predicate Current(s: Source, h: seq<Msg>) {
    && s.meta == NewestData(h) && s.video == Q.Newest(h, true)
    && s.audio == if Q.Newest(h, false).Some? then Q.Newest(h, false) else FirstAudio(h)
  }

  lemma NewestAppend(h: seq<Msg>, m: Msg)
    ensures Q.Newest(h + [m], true) == if m.IsVideoHeader() then Some(m) else Q.Newest(h, true)
    ensures Q.Newest(h + [m], false) == if m.IsAudioHeader() then Some(m) else Q.Newest(h, false)
    ensures NewestData(h + [m]) == if !m.IsAv() then Some(m) else NewestData(h)
  {
    assert (h + [m])[..|h|] == h;
  }

  lemma {:induction false} FirstAppend(h: seq<Msg>, m: Msg)
    ensures FirstAudio(h + [m]) == if FirstAudio(h).Some? then FirstAudio(h) else if m.kind == Audio then Some(m)
            else None
  {
    if h == [] {
      assert h + [m] == [m] && [m][1..] == [];
    } else {
      assert (h + [m])[1..] == h[1..] + [m];
      FirstAppend(h[1..], m);
    }
  }

  lemma {:induction false} HeaderIsAudio(h: seq<Msg>)
    requires FirstAudio(h).None?
    ensures Q.Newest(h, false).None?
    decreases |h|
  {
    if h != [] {
      var n := |h| - 1;
      assert h[..n] + [h[n]] == h;
      FirstAppend(h[..n], h[n]);
      HeaderIsAudio(h[..n]);
    }
  }

  lemma StepKeepsCurrent(s: Source, step: Step, h: seq<Msg>)
    requires Current(s, h)
    ensures Current(Apply(s, step), if step.Publish? && s.canPublish && step.hubOk then [] else h + Carried(step))
  {
    hide Players, Q.Newest, NewestData, FirstAudio, Msg.IsHeader;
    assert h + [] == h;
    NothingNewest();
    if Carried(step) != [] {
      NewestAppend(h, Carried(step)[0]);
      FirstAppend(h, Carried(step)[0]);
    }
    if FirstAudio(h).None? { HeaderIsAudio(h); }
  }

  lemma NothingNewest()
    ensures Q.Newest([], true) == None && Q.Newest([], false) == None && NewestData([]) == None
            && FirstAudio([]) == None
  {
  }

  lemma {:induction false} CachesAreCurrent(s: Source, steps: seq<Step>, h: seq<Msg>)
    requires Current(s, h)
    ensures Current(Run(s, steps), Since(s, steps, h))
    decreases |steps|
  {
    hide Current, Apply;
    if steps != [] {
      StepKeepsCurrent(s, steps[0], h);
      var h1 := if steps[0].Publish? && s.canPublish && steps[0].hubOk then [] else h + Carried(steps[0]);
      CachesAreCurrent(Apply(s, steps[0]), steps[1..], h1);
    }
  }

  // ----- one player over a run

  predicate Stays(steps: seq<Step>, id: nat) {
    forall i :: 0 <= i < |steps| ==> !(steps[i].Destroy? && steps[i].id == id)
  }

  /** All that is passed to the player, and all it hands out. */
  function Inputs(s: Source, steps: seq<Step>, id: nat): seq<Msg>
    decreases |steps|
  {
    if steps == [] then [] else Input(s, steps[0], id) + Inputs(Apply(s, steps[0]), steps[1..], id)
  }

  function Outputs(s: Source, steps: seq<Step>, id: nat): seq<Msg>
    requires id in s.consumers && Stays(steps, id)
    decreases |steps|
  {
    if steps == [] then []
    else
      (if steps[0].Take? && steps[0].id == id && steps[0].max > 0 then Q.Taken(s.consumers[id].queue, steps[0].max).1
          else [])
      + Outputs(Apply(s, steps[0]), steps[1..], id)
  }

  function Puts(ms: seq<Msg>): seq<Q.Op> { if ms == [] then [] else [Q.Put(ms[0])] + Puts(ms[1..]) }

  /** What a step does to the player's queue. */
  function StepOps(s: Source, step: Step, id: nat, j: State): seq<Q.Op> {
    (if step.Dumps? && step.id == id then [Q.Limit(step.limit)] else [])
    + Puts(CorrectAll(j, Input(s, step, id), s.ag).1)
    + if step.Take? && step.id == id then [Q.Take(step.max)] else []
  }

  function Ops(s: Source, steps: seq<Step>, id: nat): seq<Q.Op>
    requires id in s.consumers && Stays(steps, id)
    decreases |steps|
  {
    if steps == [] then []
    else StepOps(s, steps[0], id, s.consumers[id].jitter) + Ops(Apply(s, steps[0]), steps[1..], id)
  }

  lemma {:induction false} RanConcat(q: Q.Queue, a: seq<Q.Op>, b: seq<Q.Op>)
    ensures Q.Ran(q, a + b) == Q.Ran(Q.Ran(q, a), b)
    ensures Q.Out(q, a + b) == Q.Out(q, a) + Q.Out(Q.Ran(q, a), b)
    ensures Q.In(a + b) == Q.In(a) + Q.In(b)
    decreases |a|
  {
    hide Q.Did, Q.Taken;
    if a == [] {
      assert a + b == b;
    } else {
      assert (a + b)[1..] == a[1..] + b;
      RanConcat(Q.Did(q, a[0]), a[1..], b);
      var out := if a[0].Take? && a[0].max > 0 then Q.Taken(q, a[0].max).1 else [];
      Assoc(out, Q.Out(Q.Did(q, a[0]), a[1..]), Q.Out(Q.Ran(q, a), b));
      Assoc(if a[0].Put? then [a[0].m] else [], Q.In(a[1..]), Q.In(b));
    }
  }

  lemma RanOne(q: Q.Queue, op: Q.Op)
    ensures Q.Ran(q, [op]) == Q.Did(q, op) && Q.In([op]) == (if op.Put? then [op.m] else [])
    ensures Q.Out(q, [op]) == if op.Take? && op.max > 0 then Q.Taken(q, op.max).1 else []
  {
    hide Q.Did, Q.Taken;
    assert [op][1..] == [];
  }

  lemma {:induction false} FedAllIsPuts(c: Consumer, ms: seq<Msg>, ag: Algorithm)
    ensures var (j, out) := CorrectAll(c.jitter, ms, ag);
            && FedAll(c, ms, ag) == Consumer(j, Q.Ran(c.queue, Puts(out)))
            && Q.In(Puts(out)) == out && Q.Out(c.queue, Puts(out)) == []
    decreases |ms|
  {
    hide Corrected, Q.Enqueued;
    if ms != [] {
      var (j1, m1) := Corrected(c.jitter, ms[0], ag);
      var c1 := Fed(c, ms[0], ag);
      FedAllIsPuts(c1, ms[1..], ag);
      var rest := CorrectAll(j1, ms[1..], ag).1;
      assert ([m1] + rest)[1..] == rest;
      assert Puts([m1] + rest) == [Q.Put(m1)] + Puts(rest);
      assert ([Q.Put(m1)] + Puts(rest))[1..] == Puts(rest);
    }
  }

  lemma StepIsOps(s: Source, step: Step, id: nat)
    requires id in s.consumers && Stays([step], id)
    ensures id in Apply(s, step).consumers
    ensures var c, c' := s.consumers[id], Apply(s, step).consumers[id];
            var ops := StepOps(s, step, id, c.jitter);
            && c'.queue == Q.Ran(c.queue, ops)
            && c'.jitter == CorrectAll(c.jitter, Input(s, step, id), s.ag).0
            && Q.In(ops) == CorrectAll(c.jitter, Input(s, step, id), s.ag).1
            && Q.Out(c.queue, ops) == if step.Take? && step.id == id && step.max > 0 then Q.Taken(c.queue, step.max).1
               else []
  {
    hide Apply, Q.Taken, Prefill, CorrectAll, Q.Enqueued, Puts, Q.In, Q.Out, Q.Ran, FedAll;
    StaysListed(s, step, id);
    var c := s.consumers[id];
    var ms := Input(s, step, id);
    var pre := if step.Dumps? && step.id == id then [Q.Limit(step.limit)] else [];
    var post := if step.Take? && step.id == id then [Q.Take(step.max)] else [];
    var puts := Puts(CorrectAll(c.jitter, ms, s.ag).1);
    var c1 := if step.Dumps? && step.id == id then c.(queue := c.queue.(limit := step.limit)) else c;
    RanNone(c.queue);
    NothingFed(c, s.ag);
    assert Q.Ran(c.queue, pre) == c1.queue && Q.In(pre) == [] && Q.Out(c.queue, pre) == [] by {
      if pre != [] { RanOne(c.queue, pre[0]); }
    }
    FedAllIsPuts(c1, ms, s.ag);
    RanConcat(c.queue, pre, puts);
    RanConcat(c.queue, pre + puts, post);
    var q2 := Q.Ran(c1.queue, puts);
    RanNone(q2);
    if post != [] {
      RanOne(q2, post[0]);
      RanNone(c1.queue);
    }
    NoFeeding(c, step, id, s);
  }

  lemma StaysListed(s: Source, step: Step, id: nat)
    requires id in s.consumers && Stays([step], id)
    ensures id in Apply(s, step).consumers && Apply(s, step).consumers[id] == Moved(s, step, id, s.consumers[id])
  {
    hide Caches, Moved;
    assert [step][0] == step;
  }

  lemma NoFeeding(c: Consumer, step: Step, id: nat, s: Source)
    ensures Input(s, step, id) == [] && !(step.Dumps? && step.id == id) && !(step.Take? && step.id == id) ==>
              Moved(s, step, id, c) == c
    ensures !(step.Dumps? && step.id == id) && !(step.Take? && step.id == id) ==>
              Moved(s, step, id, c) == FedAll(c, Input(s, step, id), s.ag)
  {
    hide Prefill, Fed;
  }

  lemma RanNone(q: Q.Queue)
    ensures Q.Ran(q, []) == q && Q.Out(q, []) == [] && Q.In([]) == []
  {
  }

  lemma NothingFed(c: Consumer, ag: Algorithm)
    ensures CorrectAll(c.jitter, [], ag) == (c.jitter, []) && Puts([]) == []
  {
  }

  lemma {:induction false} CorrectConcat(j: State, a: seq<Msg>, b: seq<Msg>, ag: Algorithm)
    ensures var (j1, o1) := CorrectAll(j, a, ag);
            var (j2, o2) := CorrectAll(j1, b, ag);
            CorrectAll(j, a + b, ag) == (j2, o1 + o2)
    decreases |a|
  {
    hide Corrected;
    if a == [] {
      assert a + b == b;
      assert [] + CorrectAll(j, b, ag).1 == CorrectAll(j, b, ag).1;
    } else {
      assert (a + b)[1..] == a[1..] + b;
      var (j1, m1) := Corrected(j, a[0], ag);
      CorrectConcat(j1, a[1..], b, ag);
      var (j2, o) := CorrectAll(j1, a[1..], ag);
      Assoc([m1], o, CorrectAll(j2, b, ag).1);
    }
  }

  lemma ApplyKeepsAlgorithm(s: Source, step: Step)
    ensures Apply(s, step).ag == s.ag
  {
  }

  /** Over any run a player's queue sees exactly what the source passes to it, time-corrected, in order. */
  lemma {:induction false} PlayerIsFed(s: Source, steps: seq<Step>, id: nat)
    requires id in s.consumers && Stays(steps, id)
    ensures id in Run(s, steps).consumers
    ensures var c, c' := s.consumers[id], Run(s, steps).consumers[id];
            && c'.queue == Q.Ran(c.queue, Ops(s, steps, id))
            && (c'.jitter, Q.In(Ops(s, steps, id))) == CorrectAll(c.jitter, Inputs(s, steps, id), s.ag)
            && Q.Out(c.queue, Ops(s, steps, id)) == Outputs(s, steps, id)
    decreases |steps|
  {
    hide Apply, StepOps, Q.Ran, Q.Out, Q.In, CorrectAll, Input, Q.Taken;
    var c := s.consumers[id];
    if steps == [] {
      RanNone(c.queue);
      NothingFed(c, s.ag);
    } else {
      var s1, rest := Apply(s, steps[0]), steps[1..];
      assert Stays([steps[0]], id) && Stays(rest, id);
      StepIsOps(s, steps[0], id);
      ApplyKeepsAlgorithm(s, steps[0]);
      PlayerIsFed(s1, rest, id);
      var ops := StepOps(s, steps[0], id, c.jitter);
      RanConcat(c.queue, ops, Ops(s1, rest, id));
      CorrectConcat(c.jitter, Input(s, steps[0], id), Inputs(s1, rest, id), s.ag);
    }
  }

  /** A player whose queue does not overflow gets every message passed to it once, in order, with
      corrected times: what it handed out and what it still holds is the corrected input. */
  lemma PlayerGetsAll(s: Source, steps: seq<Step>, id: nat)
    requires id in s.consumers && Stays(steps, id)
    requires Q.NeverOverflows(s.consumers[id].queue, Ops(s, steps, id))
    ensures id in Run(s, steps).consumers
    ensures var c := s.consumers[id];
            Outputs(s, steps, id) + Run(s, steps).consumers[id].queue.msgs
                == c.queue.msgs + CorrectAll(c.jitter, Inputs(s, steps, id), s.ag).1
  {
    hide Run, Q.Ran, Q.Out, Q.In, CorrectAll, Inputs, Outputs, Ops;
    PlayerIsFed(s, steps, id);
    Q.QueueIsFifo(s.consumers[id].queue, Ops(s, steps, id));
  }

  /** Exactly when a player loses no frame: the frames it handed out and still holds are the corrected
      frames passed to it, all of them, in order and once each, if and only if no overflow of its
      queue met anything but headers. */
  lemma PlayerGetsFramesExactly(s: Source, steps: seq<Step>, id: nat)
    requires id in s.consumers && Stays(steps, id)
    ensures id in Run(s, steps).consumers
    ensures var c := s.consumers[id];
            Frames(Outputs(s, steps, id)) + Frames(Run(s, steps).consumers[id].queue.msgs)
            == Frames(c.queue.msgs) + Frames(CorrectAll(c.jitter, Inputs(s, steps, id), s.ag).1)
            <==> Q.HarmlessRun(c.queue, Ops(s, steps, id), false)
  {
    hide Run, Q.Ran, Q.Out, Q.In, CorrectAll, Inputs, Outputs, Ops, Q.HarmlessRun;
    PlayerIsFed(s, steps, id);
    Q.NothingLostExactly(s.consumers[id].queue, Ops(s, steps, id), false);
  }

  // ----- joining in the middle of a stream

  lemma {:induction false} RunConcat(s: Source, a: seq<Step>, b: seq<Step>, id: nat)
    ensures Run(s, a + b) == Run(Run(s, a), b)
    ensures Inputs(s, a + b, id) == Inputs(s, a, id) + Inputs(Run(s, a), b, id)
    decreases |a|
  {
    hide Apply, Input;
    if a == [] {
      assert a + b == b;
    } else {
      assert (a + b)[1..] == a[1..] + b;
      RunConcat(Apply(s, a[0]), a[1..], b, id);
      Assoc(Input(s, a[0], id), Inputs(Apply(s, a[0]), a[1..], id), Inputs(Run(s, a), b, id));
    }
  }

  predicate NoDumps(steps: seq<Step>, id: nat) {
    forall i :: 0 <= i < |steps| ==> !(steps[i].Dumps? && steps[i].id == id)
  }

  /** Apart from its own dump, a player is passed exactly what is published. */
  lemma {:induction false} InputIsPublished(s: Source, steps: seq<Step>, id: nat)
    requires NoDumps(steps, id)
    ensures Inputs(s, steps, id) == Published(steps)
    decreases |steps|
  {
    hide Apply;
    if steps != [] { InputIsPublished(Apply(s, steps[0]), steps[1..], id); }
  }

  /** What a player's connection and the others do from its creation on. */
  function Joining(between: seq<Step>, later: seq<Step>, id: nat, limit: int): seq<Step> {
    between + [Dumps(id, true, true, true, limit)] + later
  }

  function Head(at: Source): seq<Msg> { Opt(at.meta) + (Opt(at.audio) + Opt(at.video)) }

  /** A player created in state `s` dumps the caches after `between`, then the stream goes on with
      `later`. All it is passed: what was published in between, metadata, audio header, video
      header, the cache, and all that is published later. The cache is an unbroken end of the
      frames published before the dump. */
  lemma JoinedInput(s: Source, between: seq<Step>, later: seq<Step>, id: nat, limit: int, h: seq<Msg>)
    requires Ok(s) && G.Suffix(s.gop.msgs, h) && NoDumps(between, id) && NoDumps(later, id)
    requires Run(s, between).active
    ensures var at := Run(s, between);
            && Inputs(s, Joining(between, later, id, limit), id)
               == Published(between) + (Head(at) + at.gop.msgs) + Published(later)
            && G.Suffix(at.gop.msgs, h + CacheableFrames(between))
  {
    hide Run, Inputs, Published, Ok, G.Suffix, Apply;
    var at, dump := Run(s, between), [Dumps(id, true, true, true, limit)];
    CacheIsSuffix(s, between, h);
    RunConcat(s, between + dump, later, id);
    RunConcat(s, between, dump, id);
    InputIsPublished(s, between, id);
    InputIsPublished(Run(s, between + dump), later, id);
    InputsOne(at, dump[0], id);
  }

  lemma InputsOne(s: Source, step: Step, id: nat)
    ensures Inputs(s, [step], id) == Input(s, step, id)
  {
    hide Apply, Input;
    assert [step][1..] == [];
    assert Inputs(Apply(s, step), [], id) == [];
  }

  predicate Quiet(steps: seq<Step>) { forall i :: 0 <= i < |steps| ==> !steps[i].Media? && !steps[i].Metadata? }

  lemma {:induction false} QuietPublishesNothing(steps: seq<Step>)
    requires Quiet(steps)
    ensures Published(steps) == [] && CacheableFrames(steps) == []
  {
    if steps != [] { QuietPublishesNothing(steps[1..]); }
  }

  lemma {:induction false} FramesOfFrames(ms: seq<Msg>)
    requires AllFrames(ms)
    ensures Frames(ms) == ms
  {
    hide Msg.IsHeader, Msg.IsAv;
    if ms != [] {
      FramesOfFrames(ms[1..]);
      assert ms == [ms[0]] + ms[1..];
    }
  }

  /** Joining: whatever is published between creation and dump, a player is passed that, then
      metadata, audio header, video header, the cache, and all that is published later. With `f` the
      frames published before its creation, the frames from the cache on are an unbroken end of all
      frames ever published, each once, exactly when no other video than H.264 is as recent as the
      cache. If nothing is published in between, that is all it is passed. */
  lemma JoinsWithoutGap(s: Source, between: seq<Step>, later: seq<Step>, id: nat, limit: int, f: seq<Msg>)
    requires Ok(s) && AllFrames(f) && G.Suffix(s.gop.msgs, G.CacheableOf(f)) && NoDumps(between, id)
             && NoDumps(later, id)
    requires Run(s, between).active
    ensures var at := Run(s, between);
            var rest, all := at.gop.msgs + Published(later), f + Frames(Published(between));
            && Inputs(s, Joining(between, later, id, limit), id) == Published(between) + (Head(at) + rest)
            && |at.gop.msgs| <= |all|
            && (G.Suffix(Frames(rest), all + Frames(Published(later))) <==>
                G.AllCacheable(all[|all| - |at.gop.msgs|..]))
    ensures Quiet(between) ==> Published(between) == []
  {
    hide Run, Inputs, Published, Ok, Apply, Frames, CacheableFrames, Head, Joining, AllFrames, G.CacheableOf,
         G.AllCacheable, G.Suffix, Quiet, NoDumps;
    var at, b, p := Run(s, between), Published(between), Published(later);
    var head, g, all := Head(at), at.gop.msgs, f + Frames(b);
    JoinedInput(s, between, later, id, limit, G.CacheableOf(f));
    CacheableFramesAre(between);
    G.CacheableConcat(f, Frames(b));
    Assoc(b, head + g, p);
    Assoc(head, g, p);
    FramesAreFrames(b);
    AllFramesConcat(f, Frames(b));
    CacheableAreFrames(all);
    EndAreFrames(g, G.CacheableOf(all));
    FramesConcat(g, p);
    FramesOfFrames(g);
    G.EndOfAllExactly(g, all);
    SuffixConcat(g, all, Frames(p));
    if Quiet(between) { QuietPublishesNothing(between); }
  }

  lemma AllFramesConcat(a: seq<Msg>, b: seq<Msg>)
    requires AllFrames(a) && AllFrames(b)
    ensures AllFrames(a + b)
  {
    hide Msg.IsHeader, Msg.IsAv;
  }

  lemma CacheableAreFrames(f: seq<Msg>)
    requires AllFrames(f)
    ensures AllFrames(G.CacheableOf(f))
  {
    hide Msg.IsHeader, Msg.IsAv, G.CacheableOf;
    G.CacheableMembers(f);
    var c := G.CacheableOf(f);
    forall i | 0 <= i < |c| ensures c[i].IsAv() && !c[i].IsHeader() { assert c[i] in f; }
  }

  lemma EndAreFrames(g: seq<Msg>, h: seq<Msg>)
    requires AllFrames(h) && G.Suffix(g, h)
    ensures AllFrames(g)
  {
    hide Msg.IsHeader, Msg.IsAv;
    assert forall i :: 0 <= i < |g| ==> g[i] == h[|h| - |g| + i];
  }

  lemma SuffixConcat(a: seq<Msg>, h: seq<Msg>, b: seq<Msg>)
    ensures G.Suffix(a, h) <==> G.Suffix(a + b, h + b)
  {
    var x, y := a + b, h + b;
    if G.Suffix(a, h) {
      assert y[|y| - |x|..] == x;
    }
    if G.Suffix(x, y) {
      assert h[|h| - |a|..] == y[|y| - |x|..][..|a|] == x[..|a|];
    }
  }

  /** The whole story of a player that joins a stream already running, from the start of the source
      to any later moment. It is passed what is published between its creation and its dump, then the
      newest metadata and headers, the cache, and all that is published later. The frames it has
      handed out and still holds are the time-corrected frames of these exactly when no overflow of
      its queue met anything but headers; without any overflow so are all messages. From the cache on
      they are an unbroken end of all frames ever published, none missing and none twice, exactly when
      no other video than H.264 is as recent as the cache. */
  lemma MidJoin(before: seq<Step>, between: seq<Step>, later: seq<Step>, id: nat, limit: int)
    requires NoDumps(between, id) && NoDumps(later, id)
    requires var s := Apply(Run(IDLE, before), Create(id));
             var steps := Joining(between, later, id, limit);
             && id !in Run(IDLE, before).consumers && Run(s, between).active
             && Stays(steps, id) && id in s.consumers
    ensures var s := Apply(Run(IDLE, before), Create(id));
            var steps := Joining(between, later, id, limit);
            var at, all := Run(s, between), Frames(Published(before)) + Frames(Published(between));
            var rest := at.gop.msgs + Published(later);
            var passed := CorrectAll(START, Published(between) + (Head(at) + rest), Full).1;
            && id in Run(s, steps).consumers
            && (Frames(Outputs(s, steps, id)) + Frames(Run(s, steps).consumers[id].queue.msgs) == Frames(passed)
                <==> Q.HarmlessRun(Q.EMPTY, Ops(s, steps, id), false))
            && (Q.NeverOverflows(Q.EMPTY, Ops(s, steps, id)) ==>
                  Outputs(s, steps, id) + Run(s, steps).consumers[id].queue.msgs == passed)
            && |at.gop.msgs| <= |all|
            && (G.Suffix(Frames(rest), all + Frames(Published(later))) <==>
                G.AllCacheable(all[|all| - |at.gop.msgs|..]))
            && Current(at, Since(s, between, Since(IDLE, before, [])))
  {
    hide Run, Inputs, Outputs, Published, Ok, Apply, Frames, CacheableFrames, Head, Current, Since, CorrectAll,
         G.Suffix, Joining, Ops, Q.NeverOverflows, Q.HarmlessRun, NoDumps, Quiet, AllFrames, G.CacheableOf,
         G.AllCacheable;
    var s0, steps := Run(IDLE, before), Joining(between, later, id, limit);
    var s := Apply(s0, Create(id));
    CachesBeforeJoin(before);
    CreateChangesNoCache(s0, id, Since(IDLE, before, []));
    CachesAreCurrent(s, between, Since(IDLE, before, []));
    JoinsWithoutGap(s, between, later, id, limit, Frames(Published(before)));
    PlayerGetsFramesExactly(s, steps, id);
    if Q.NeverOverflows(Q.EMPTY, Ops(s, steps, id)) { PlayerGetsAll(s, steps, id); }
    NoFrames();
    var out := CorrectAll(START, Inputs(s, steps, id), Full).1;
    NilLeft(out);
    NilLeft(Frames(out));
  }

  lemma CachesBeforeJoin(before: seq<Step>)
    ensures var s, f := Run(IDLE, before), Frames(Published(before));
            && Ok(s) && s.ag == Full && G.Suffix(s.gop.msgs, G.CacheableOf(f)) && AllFrames(f)
            && Current(s, Since(IDLE, before, []))
  {
    hide Run, Published, Ok, Frames, CacheableFrames, Current, Since, G.Suffix, AllFrames, G.CacheableOf;
    IdleOk();
    CachesAfter(IDLE, before, [], []);
    CacheableFramesAre(before);
    NilLeft(CacheableFrames(before));
    FramesAreFrames(Published(before));
  }

  lemma NilLeft(ms: seq<Msg>)
    ensures [] + ms == ms
  {
  }

  lemma CachesAfter(s: Source, steps: seq<Step>, h: seq<Msg>, since: seq<Msg>)
    requires Ok(s) && G.Suffix(s.gop.msgs, h) && Current(s, since)
    ensures var s' := Run(s, steps);
            && Ok(s') && s'.ag == s.ag && G.Suffix(s'.gop.msgs, h + CacheableFrames(steps))
            && Current(s', Since(s, steps, since))
  {
    hide Run, Ok, CacheableFrames, Current, Since, G.Suffix;
    RunKeepsOk(s, steps);
    RunKeepsAlgorithm(s, steps);
    CacheIsSuffix(s, steps, h);
    CachesAreCurrent(s, steps, since);
  }

  lemma IdleOk()
    ensures Ok(IDLE) && Current(IDLE, []) && G.Suffix(IDLE.gop.msgs, [])
  {
  }

  lemma {:induction false} FramesAreFrames(ms: seq<Msg>)
    ensures AllFrames(Frames(ms))
  {
    hide Msg.IsHeader, Msg.IsAv;
    if ms != [] { FramesAreFrames(ms[1..]); }
  }

  lemma CreateChangesNoCache(s: Source, id: nat, h: seq<Msg>)
    ensures var s' := Apply(s, Create(id));
            && s'.(consumers := s.consumers) == s && (Ok(s) ==> Ok(s')) && (Current(s, h) ==> Current(s', h))
            && (id !in s.consumers ==> id in s'.consumers && s'.consumers[id] == NEW)
  {
    hide G.Ok;
  }

  lemma {:induction false} RunKeepsAlgorithm(s: Source, steps: seq<Step>)
    ensures Run(s, steps).ag == s.ag
    decreases |steps|
  {
    hide Apply;
    if steps != [] {
      ApplyKeepsAlgorithm(s, steps[0]);
      RunKeepsAlgorithm(Apply(s, steps[0]), steps[1..]);
    }
  }

  /** How often a player is passed frame `i` of `n` up to and with its dump, if the first `h` were
      published before it was created and the last `g` are in the cache. */
  function Times(h: nat, n: nat, g: nat, i: nat): nat { (if h <= i then 1 else 0) + (if n <= i + g then 1 else 0) }

  /** What is passed twice, whatever happens between creation and dump. Let `all` be the frames that
      could be cached, up to the dump, the first `|h|` of them from before the creation. The player
      is passed those from `|h|` on as they are published, and then the cache, an end of `all`. So
      exactly the common end comes twice, and nothing does exactly when no such frame was published
      in between or the cache is empty. Frames that cannot be cached come once. The only frame
      outside this account is an audio message that stands in for a header. */
  lemma PassedTwiceExactly(s: Source, between: seq<Step>, later: seq<Step>, id: nat, limit: int, h: seq<Msg>)
    requires Ok(s) && AllFrames(h) && G.Suffix(s.gop.msgs, h) && NoDumps(between, id) && NoDumps(later, id)
    requires Run(s, between).active
    ensures var at, b := Run(s, between), CacheableFrames(between);
            var g, all := at.gop.msgs, h + b;
            && Frames(Inputs(s, Joining(between, later, id, limit), id))
               == Frames(Published(between)) + (Frames(Head(at)) + g) + Frames(Published(later))
            && G.CacheableOf(Frames(Published(between))) == all[|h|..]
            && |g| <= |all| && g == all[|all| - |g|..]
            && (forall i :: 0 <= i < |all| ==> (Times(|h|, |all|, |g|, i) == 2 <==> |all| - Min(|g|, |b|) <= i))
            && ((forall i :: 0 <= i < |all| ==> Times(|h|, |all|, |g|, i) <= 1) <==> b == [] || g == [])
  {
    hide Run, Inputs, Published, Ok, Apply, Frames, CacheableFrames, Head, Joining, AllFrames, G.CacheableOf;
    var at, b := Run(s, between), CacheableFrames(between);
    var g, all := at.gop.msgs, h + b;
    JoinedInput(s, between, later, id, limit, h);
    CacheableFramesAre(between);
    NewAreFrames(between, h);
    EndAreFrames(g, all);
    FramesOfFrames(g);
    FramesConcat(Published(between) + (Head(at) + g), Published(later));
    FramesConcat(Published(between), Head(at) + g);
    FramesConcat(Head(at), g);
    assert all[|h|..] == b;
    if b != [] && g != [] { assert Times(|h|, |all|, |g|, |all| - 1) == 2; }
  }

  lemma NewAreFrames(steps: seq<Step>, h: seq<Msg>)
    requires AllFrames(h)
    ensures AllFrames(h + CacheableFrames(steps))
  {
    hide Frames, Published, Msg.IsHeader, Msg.IsAv, CacheableFrames, G.CacheableOf;
    FramesAreFrames(Published(steps));
    CacheableFramesAre(steps);
    CacheableAreFrames(Frames(Published(steps)));
  }

  /** Among the first messages there is a frame exactly when no audio header came since publishing
      but audio did: then the first audio message is passed in the header's place. */
  lemma HeadFrames(at: Source, h: seq<Msg>)
    requires Current(at, h)
    ensures Frames(Head(at)) == if Q.Newest(h, false).Some? then [] else Opt(FirstAudio(h))
  {
    hide Frames, Q.Newest, FirstAudio, NewestData;
    var v := Q.NewestIsNewest(h, true);
    var a := Q.NewestIsNewest(h, false);
    NewestDataIsData(h);
    FirstAudioIsAudio(h);
    FramesConcat(Opt(at.meta), Opt(at.audio) + Opt(at.video));
    FramesConcat(Opt(at.audio), Opt(at.video));
    NoFrames();
    if at.meta.Some? { OneFrame(at.meta.value); }
    if at.audio.Some? { OneFrame(at.audio.value); }
    if at.video.Some? { OneFrame(at.video.value); }
  }

  lemma {:induction false} NewestDataIsData(h: seq<Msg>)
    ensures NewestData(h).Some? ==> !NewestData(h).value.IsAv()
  {
    if h != [] { NewestDataIsData(h[..|h| - 1]); }
  }

  lemma {:induction false} FirstAudioIsAudio(h: seq<Msg>)
    ensures FirstAudio(h).Some? ==> FirstAudio(h).value.kind == Audio && FirstAudio(h).value in h
  {
    if h != [] { FirstAudioIsAudio(h[1..]); }
  }

  /** The two lock sections matter: a frame published between them is passed on twice. */
  lemma FrameBetweenComesTwice(data: bytes, id: nat)
    requires |data| >= 2 && data[0] == 0x17 && data[1] == 1
    ensures var m: Av := Msg(Video, 40, data);
            var s := Apply(Apply(IDLE, Publish(true)), Create(id));
            Inputs(s, [Media(m), Dumps(id, true, true, true, 0)], id) == [m, m]
  {
    hide Players;
    var m: Av := Msg(Video, 40, data);
    var s := Apply(Apply(IDLE, Publish(true)), Create(id));
    var steps := [Media(m), Dumps(id, true, true, true, 0)];
    assert steps[1..] == [Dumps(id, true, true, true, 0)];
    InputsOne(Apply(s, steps[0]), steps[1], id);
    var at := Apply(s, Media(m));
    assert at.gop.msgs == [m] && at.meta == None && at.audio == None && at.video == None && at.active;
    assert Prefill(at, true, true, true) == [m];
  }

  /** Video that cannot be cached leaves a gap: after such a frame the cache still holds the keyframe
      before it, which is no end of the frames published. */
  lemma OtherVideoLeavesGap(key: bytes, other: bytes)
    requires |key| >= 2 && key[0] == 0x17 && key[1] == 1 && |other| >= 1 && other[0] == 0x22
    ensures var k: Av, o: Av := Msg(Video, 0, key), Msg(Video, 40, other);
            OnMedia(OnMedia(IDLE, k), o).gop.msgs == [k] && !G.Suffix([k], [k, o])
  {
    var k: Av, o: Av := Msg(Video, 0, key), Msg(Video, 40, other);
    assert G.Cached(G.EMPTY, k).msgs == [k];
    assert !G.Cacheable(o) && !o.IsHeader();
    assert [k, o][1..] == [o];
  }

  lemma FedTwo(c: Consumer, x: Msg, y: Msg, ag: Algorithm)
    ensures FedAll(c, [x, y], ag) == Fed(Fed(c, x, ag), y, ag)
  {
    hide Fed;
    assert [x, y][1..] == [y] && [y][1..] == [];
    assert FedAll(Fed(c, x, ag), [y], ag) == Fed(Fed(c, x, ag), y, ag);
  }

  /** An overflow loses what a player was passed: with a limit of 100 ms, two frames 200 ms apart
      are both gone. */
  lemma OverflowLosesFrames(a: bytes, b: bytes)
    requires |a| >= 2 && a[0] == 0x27 && |b| >= 2 && b[0] == 0x27
    ensures var c := NEW.(queue := NEW.queue.(limit := 100_000));
            FedAll(c, [Msg(Video, 100, a), Msg(Video, 300, b)], Full).queue.msgs == []
  {
    hide Q.Newest;
    var c := NEW.(queue := NEW.queue.(limit := 100_000));
    var x, y := Msg(Video, 100, a), Msg(Video, 300, b);
    FedTwo(c, x, y, Full);
    var c1 := Fed(c, x, Full);
    assert c1 == Consumer(State(99, 100), Q.Queue([x.(timestamp := 99)], 99_000, 99_000, 100_000));
    assert Corrected(c1.jitter, y, Full).1 == y.(timestamp := 299);
    assert c1.queue.msgs + [y.(timestamp := 299)] == [x.(timestamp := 99), y.(timestamp := 299)];
    Q.NewestIsNone([x.(timestamp := 99), y.(timestamp := 299)]);
  }
}
