/**
 The caches of the live source and what a joining player gets, told on the bytes of the messages.
 The first byte of an FLV audio tag holds the sound format in its high half, 10 for AAC; that of a
 video tag the frame type in its high half, 1 for a keyframe, and the codec in its low half, 7 for
 H.264. The second byte is 0 for a sequence header.
 */
module LiveBytes {
  import opened Bytes
  import opened LiveJitter
  import G = LiveGop
  import Q = LiveQueue
  import S = LiveSource

  // ----- messages

  predicate IsAsc(m: Msg) {
    m.kind == Audio && |m.payload| >= 2 && 0xa0 <= m.payload[0] <= 0xaf && m.payload[1] == 0
  }

  predicate IsAvcc(m: Msg) { m.kind == Video && |m.payload| >= 2 && m.payload[0] == 0x17 && m.payload[1] == 0 }

  predicate IsAudio(m: Msg) { m.kind == Audio }

  predicate IsData(m: Msg) { m.kind == Data }

  /** The high bit of the first byte marks an extended header and does not count. */
  predicate IsKey(m: Msg) {
    m.kind == Video && |m.payload| >= 1 && (0x10 <= m.payload[0] <= 0x1f || 0x90 <= m.payload[0] <= 0x9f)
  }

  /** Audio and H.264 frames. */
  predicate IsCached(m: Msg) {
    && !IsAsc(m) && !IsAvcc(m)
    && (m.kind == Audio || (m.kind == Video && |m.payload| >= 1 && m.payload[0] % 16 == 7))
  }

  lemma Judged(m: Msg)
    ensures m.IsAudioHeader() == IsAsc(m) && m.IsVideoHeader() == IsAvcc(m) && m.IsAv() == !IsData(m)
    ensures m.kind == Video ==> m.IsKeyframe() == IsKey(m)
    ensures m.IsAv() && !m.IsHeader() && G.Cacheable(m) <==> IsCached(m)
  {
  }

  // ----- the header caches

  /** The last message of a kind. */
  ghost predicate LastOf(h: seq<Msg>, m: Option<Msg>, kind: Msg -> bool) {
    match m
    case None => forall i :: 0 <= i < |h| ==> !kind(h[i])
    case Some(x) =>
      exists i :: 0 <= i < |h| && h[i] == x && kind(h[i]) && forall j :: i < j < |h| ==> !kind(h[j])
  }

  /** The first message of a kind. */
  ghost predicate FirstOf(h: seq<Msg>, m: Option<Msg>, kind: Msg -> bool) {
    match m
    case None => forall i :: 0 <= i < |h| ==> !kind(h[i])
    case Some(x) =>
      exists i :: 0 <= i < |h| && h[i] == x && kind(h[i]) && forall j :: 0 <= j < i ==> !kind(h[j])
  }

  /** All that was published since publishing last succeeded. */
  function Fresh(steps: seq<S.Step>, live: bool, h: seq<Msg>): seq<Msg> {
    if steps == [] then h
    else
      match steps[0]
      case Media(m) => Fresh(steps[1..], live, h + [m])
      case Metadata(data) => Fresh(steps[1..], live, h + [data])
      case Publish(hubOk) => if !live && hubOk then Fresh(steps[1..], true, []) else Fresh(steps[1..], live, h)
      case Unpublish => Fresh(steps[1..], false, h)
      case _ => Fresh(steps[1..], live, h)
  }

  lemma {:induction false} FreshIsSince(s: S.Source, steps: seq<S.Step>, h: seq<Msg>)
    ensures S.Since(s, steps, h) == Fresh(steps, !s.canPublish, h)
    decreases |steps|
  {
    hide S.Players, S.OnMedia, G.Cleared;
    if steps != [] {
      assert h + [] == h;
      CanPublish(s, steps[0]);
      var h1 := if steps[0].Publish? && s.canPublish && steps[0].hubOk then [] else h + S.Carried(steps[0]);
      FreshIsSince(S.Apply(s, steps[0]), steps[1..], h1);
    }
  }

  lemma CanPublish(s: S.Source, step: S.Step)
    ensures S.Apply(s, step).canPublish
            == if step.Publish? && step.hubOk then false else if step.Unpublish? then true else s.canPublish
  {
    hide S.Players, G.Cleared, G.Cached, Msg.IsHeader;
  }

  lemma {:induction false} NewestIsLast(h: seq<Msg>)
    ensures LastOf(h, Q.Newest(h, false), IsAsc) && LastOf(h, Q.Newest(h, true), IsAvcc)
    ensures LastOf(h, S.NewestData(h), IsData)
  {
    if h != [] {
      hide Q.Newest, S.NewestData, IsAsc, IsAvcc, IsData;
      var rest, m := h[..|h| - 1], h[|h| - 1];
      assert h == rest + [m];
      NewestIsLast(rest);
      Judged(m);
      S.NewestAppend(rest, m);
      LastAppend(rest, Q.Newest(rest, false), m, IsAsc);
      LastAppend(rest, Q.Newest(rest, true), m, IsAvcc);
      LastAppend(rest, S.NewestData(rest), m, IsData);
    } else {
      S.NothingNewest();
    }
  }

  lemma LastAppend(h: seq<Msg>, was: Option<Msg>, m: Msg, kind: Msg -> bool)
    requires LastOf(h, was, kind)
    ensures LastOf(h + [m], if kind(m) then Some(m) else was, kind)
  {
    var all := h + [m];
    assert all[|h|] == m;
    if was.Some? && !kind(m) {
      var i :| 0 <= i < |h| && h[i] == was.value && kind(h[i]) && forall j :: i < j < |h| ==> !kind(h[j]);
      assert all[i] == was.value;
    }
  }

  lemma {:induction false} FirstIsFirst(h: seq<Msg>)
    ensures FirstOf(h, S.FirstAudio(h), IsAudio)
  {
    if h != [] {
      FirstIsFirst(h[1..]);
      var rest, f := h[1..], S.FirstAudio(h[1..]);
      assert forall i :: 0 <= i < |rest| ==> rest[i] == h[i + 1];
      if h[0].kind == Audio {
        assert h[0] == S.FirstAudio(h).value && IsAudio(h[0]);
      } else if f.Some? {
        var i :|
          && 0 <= i < |rest| && rest[i] == f.value && IsAudio(rest[i])
          && forall j :: 0 <= j < i ==> !IsAudio(rest[j]);
        assert h[i + 1] == f.value;
        assert forall j :: 0 <= j < i + 1 ==> !IsAudio(h[j]) by {
          forall j | 0 <= j < i + 1 ensures !IsAudio(h[j]) { if j > 0 { assert h[j] == rest[j - 1]; } }
        }
      }
    }
  }

  /** Over any run the caches hold, of all that was published since publishing last succeeded, the
      newest metadata, the newest H.264 sequence header, and the newest AAC sequence header, or the
      first audio message if there was none. */
  lemma CachesFromBytes(steps: seq<S.Step>)
    ensures var s, h := S.Run(S.IDLE, steps), Fresh(steps, false, []);
            && LastOf(h, s.meta, IsData) && LastOf(h, s.video, IsAvcc)
            && if exists i :: 0 <= i < |h| && IsAsc(h[i]) then LastOf(h, s.audio, IsAsc)
               else FirstOf(h, s.audio, IsAudio)
  {
    hide S.Run, Q.Newest, S.NewestData, S.FirstAudio, IsAsc, IsAvcc, IsData, IsAudio;
    S.IdleOk();
    S.CachesAreCurrent(S.IDLE, steps, []);
    FreshIsSince(S.IDLE, steps, []);
    var h := Fresh(steps, false, []);
    NewestIsLast(h);
    FirstIsFirst(h);
  }

  // ----- the GOP cache

  /** It starts with video, no later keyframe is in it, and no 116 messages in a row are audio. */
  ghost predicate Playable(ms: seq<Msg>) {
    ms == [] || (
      && ms[0].kind == Video
      && (forall i :: 0 < i < |ms| ==> !IsKey(ms[i]))
      && forall i: nat :: !LongSound(ms, i))
  }

  predicate LongSound(ms: seq<Msg>, i: nat) { i + 116 <= |ms| && AllSound(ms[i..i + 116]) }

  predicate AllSound(ms: seq<Msg>) { forall i :: 0 <= i < |ms| ==> ms[i].kind != Video }

  lemma {:induction false} TrailingExactly(ms: seq<Msg>, n: nat)
    ensures G.Trailing(ms) >= n <==> |ms| >= n && AllSound(ms[|ms| - n..])
    decreases |ms|
  {
    if ms != [] && ms[|ms| - 1].kind != Video && n > 0 {
      var rest := ms[..|ms| - 1];
      TrailingExactly(rest, n - 1);
      if |ms| >= n {
        var a, b := rest[|rest| - (n - 1)..], ms[|ms| - n..];
        assert b == a + [ms[|ms| - 1]];
        assert AllSound(b) <==> AllSound(a) by {
          if AllSound(b) { assert forall i :: 0 <= i < |a| ==> a[i] == b[i]; }
        }
      }
    } else if n > 0 && ms != [] {
      if |ms| >= n { assert ms[|ms| - n..][n - 1] == ms[|ms| - 1]; }
    }
  }

  lemma NoLongSound(ms: seq<Msg>)
    ensures (forall i :: 0 <= i <= |ms| ==> G.Trailing(ms[..i]) <= 115) <==> forall i: nat :: !LongSound(ms, i)
  {
    hide G.Trailing, AllSound;
    forall i: nat | i + 116 <= |ms| ensures LongSound(ms, i) <==> G.Trailing(ms[..i + 116]) > 115 {
      TrailingExactly(ms[..i + 116], 116);
      assert ms[..i + 116][i..] == ms[i..i + 116];
    }
    forall i | 0 <= i <= |ms| && forall k: nat :: !LongSound(ms, k)
      ensures G.Trailing(ms[..i]) <= 115
    {
      TrailingExactly(ms[..i], 116);
      if i >= 116 {
        var k := i - 116;
        assert ms[..i][k..] == ms[k..k + 116];
        assert !LongSound(ms, k);
      }
    }
  }

  lemma PlayableExactly(ms: seq<Msg>)
    ensures G.Playable(ms) <==> Playable(ms)
  {
    hide G.Trailing, LongSound, IsKey, Msg.IsKeyframe;
    NoLongSound(ms);
    forall i | 0 <= i < |ms| ensures ms[i].kind == Video && ms[i].IsKeyframe() <==> IsKey(ms[i]) {
      Judged(ms[i]);
      assert IsKey(ms[i]) ==> ms[i].kind == Video by { KeyIsVideo(ms[i]); }
    }
  }

  lemma KeyIsVideo(m: Msg)
    ensures IsKey(m) ==> m.kind == Video
  {
  }

  lemma NothingPlayable()
    ensures Playable([]) && G.Playable([])
  {
  }

  /** The longest playable end. */
  ghost function LongestEnd(h: seq<Msg>): seq<Msg> {
    if Playable(h) || h == [] then h else LongestEnd(h[1..])
  }

  lemma {:induction false} LongestEndIs(h: seq<Msg>, s: seq<Msg>)
    ensures G.Longest(s, h) <==> s == LongestEnd(h)
  {
    hide G.Playable, Playable;
    PlayableExactly(h);
    assert h[0..] == h;
    if Playable(h) || h == [] {
      NothingPlayable();
      if G.Longest(s, h) { assert |h| - 0 <= |s| && h[|h| - |s|..] == s; }
    } else {
      LongestEndIs(h[1..], s);
      LongestOfRest(h, s);
    }
  }

  lemma LongestOfRest(h: seq<Msg>, s: seq<Msg>)
    requires h != [] && !G.Playable(h)
    ensures G.Longest(s, h) <==> G.Longest(s, h[1..])
  {
    hide G.Playable;
    assert h[0..] == h;
    assert forall k :: 0 <= k <= |h[1..]| ==> h[1..][k..] == h[k + 1..];
    if G.Longest(s, h) {
      assert h[|h| - |s|..] == s;
      forall k | 0 <= k <= |h[1..]| && G.Playable(h[1..][k..]) ensures |h[1..]| - k <= |s| {
        assert G.Playable(h[k + 1..]);
      }
    }
    if G.Longest(s, h[1..]) {
      forall k | 0 <= k <= |h| && G.Playable(h[k..]) ensures |h| - k <= |s| {
        if k > 0 { assert h[1..][k - 1..] == h[k..]; }
      }
    }
  }

  /** The frames published since the cache was last cleared: when a publication ended, when it was
      switched off, or when its content would have exceeded the limit. */
  datatype Past = Past(live: bool, on: bool, limit: int, frames: seq<Msg>)

  ghost function Follow(p: Past, step: S.Step): Past {
    match step
    case Media(m) =>
      if !p.on || !IsCached(m) then p
      else
        var frames := p.frames + [m];
        p.(frames := if p.limit > 0 && |LongestEnd(frames)| > p.limit then [] else frames)
    case Publish(hubOk) => p.(live := p.live || hubOk)
    case Unpublish => if p.live then p.(live := false, frames := []) else p
    case SetCache(enabled) => p.(on := enabled, frames := if enabled then p.frames else [])
    case SetMaxFrames(frames) => p.(limit := frames)
    case _ => p
  }

  ghost function FollowAll(p: Past, steps: seq<S.Step>): Past
    decreases |steps|
  {
    if steps == [] then p else FollowAll(Follow(p, steps[0]), steps[1..])
  }

  ghost predicate Remembers(s: S.Source, p: Past) {
    && S.Ok(s) && p.live == !s.canPublish && p.on == s.gop.enabled && p.limit == s.gop.limit
    && s.gop.msgs == LongestEnd(p.frames) && (!p.on ==> p.frames == [])
  }

  lemma MediaIsFollowed(s: S.Source, p: Past, m: S.Av)
    requires Remembers(s, p)
    ensures Remembers(S.Apply(s, S.Media(m)), Follow(p, S.Media(m)))
  {
    hide S.Players, G.Cached, G.Ok, LongestEnd, G.Longest, G.Cacheable, IsCached, Msg.IsHeader, Msg.IsVideoHeader,
         Msg.IsAudioHeader;
    var s1, g := S.Apply(s, S.Media(m)), s.gop;
    S.StepKeepsOk(s, S.Media(m));
    Judged(m);
    G.CachedKeepsMode(g, m);
    if !m.IsHeader() {
      if g.enabled && G.Cacheable(m) {
        var frames := p.frames + [m];
        LongestEndIs(p.frames, g.msgs);
        G.OkWithoutLimit(g);
        G.UnlimitedIsLongest(g.(limit := 0), m, p.frames);
        LongestEndIs(frames, G.Cached(g.(limit := 0), m).msgs);
        G.LimitClears(g, m);
        NothingEnds();
      } else if !g.enabled {
        S.DisabledIsEmpty(g, m);
      }
    }
  }

  lemma NothingEnds()
    ensures LongestEnd([]) == []
  {
  }

  lemma StepIsFollowed(s: S.Source, p: Past, step: S.Step)
    requires Remembers(s, p)
    ensures Remembers(S.Apply(s, step), Follow(p, step))
  {
    hide S.Players, G.Ok, LongestEnd;
    NothingEnds();
    if step.Media? {
      MediaIsFollowed(s, p, step.m);
    } else {
      S.StepKeepsOk(s, step);
    }
  }

  lemma {:induction false} CacheIsFollowed(s: S.Source, p: Past, steps: seq<S.Step>)
    requires Remembers(s, p)
    ensures Remembers(S.Run(s, steps), FollowAll(p, steps))
    decreases |steps|
  {
    hide Remembers, S.Apply, Follow;
    if steps != [] {
      StepIsFollowed(s, p, steps[0]);
      CacheIsFollowed(S.Apply(s, steps[0]), Follow(p, steps[0]), steps[1..]);
    }
  }

  /** Over any run, with whatever limits, switches and publications, the GOP cache is the longest end
      of the frames since it was last cleared that starts with video, has no later keyframe and no 116
      audio messages in a row. */
  lemma CacheFromBytes(steps: seq<S.Step>)
    ensures S.Run(S.IDLE, steps).gop.msgs == LongestEnd(FollowAll(Past(false, true, 0, []), steps).frames)
  {
    hide S.Run, LongestEnd, FollowAll;
    S.IdleOk();
    NothingEnds();
    CacheIsFollowed(S.IDLE, Past(false, true, 0, []), steps);
  }

  // ----- a player that joins

  /** What a dump should pass: nothing while the stream is off; else as asked, metadata, then the audio
      and the video header, then the cache. */
  function Asked(live: bool, meta: Option<Msg>, audio: Option<Msg>, video: Option<Msg>, cache: seq<Msg>, ds: bool,
                 dm: bool, dg: bool): seq<Msg>
  {
    if !live then []
    else
      (if dm && meta.Some? then [meta.value] else [])
      + (if ds && audio.Some? then [audio.value] else [])
      + (if ds && video.Some? then [video.value] else [])
      + if dg then cache else []
  }

  /** In any run it passes exactly that. */
  lemma DumpExactly(steps: seq<S.Step>, id: nat, ds: bool, dm: bool, dg: bool, limit: int)
    ensures var s, p := S.Run(S.IDLE, steps), FollowAll(Past(false, true, 0, []), steps);
            S.Inputs(s, [S.Dumps(id, ds, dm, dg, limit)], id)
            == Asked(p.live, s.meta, s.audio, s.video, LongestEnd(p.frames), ds, dm, dg)
  {
    hide S.Run, LongestEnd, FollowAll, G.Ok, S.Prefill, S.Inputs, Asked;
    S.IdleOk();
    NothingEnds();
    CacheIsFollowed(S.IDLE, Past(false, true, 0, []), steps);
    var s := S.Run(S.IDLE, steps);
    S.InputsOne(s, S.Dumps(id, ds, dm, dg, limit), id);
    PrefillIs(s, ds, dm, dg);
  }

  lemma PrefillIs(s: S.Source, ds: bool, dm: bool, dg: bool)
    ensures S.Prefill(s, ds, dm, dg) == Asked(s.active, s.meta, s.audio, s.video, s.gop.msgs, ds, dm, dg)
  {
    var m, a, v := if dm then S.Opt(s.meta) else [], S.Opt(s.audio), S.Opt(s.video);
    var nothing: seq<Msg> := [];
    Assoc(m, a, v);
    assert m + nothing == m && m + nothing + nothing == m;
  }

  /** What a step with media does to the caches. */
  lemma MediaCaches(s: S.Source, m: S.Av)
    ensures var r := S.Apply(s, S.Media(m));
            && r.active == s.active && r.meta == s.meta
            && (IsAsc(m) ==> r.(consumers := s.consumers) == s.(audio := Some(m)))
            && (IsAvcc(m) ==> r.(consumers := s.consumers) == s.(video := Some(m)))
            && (IsCached(m) ==> r.video == s.video && r.gop == G.Cached(s.gop, m)
                                && (m.kind == Video || s.audio.Some? ==> r.audio == s.audio))
  {
    hide S.Players, G.Cached;
    Judged(m);
  }

  lemma RunFour(s: S.Source, a: S.Step, b: S.Step, c: S.Step, d: S.Step)
    ensures S.Run(s, [a, b, c, d]) == S.Apply(S.Apply(S.Apply(S.Apply(s, a), b), c), d)
  {
    hide S.Apply;
    var s1 := S.Apply(s, a);
    var s2 := S.Apply(s1, b);
    var s3 := S.Apply(s2, c);
    assert [a, b, c, d][1..] == [b, c, d] && [b, c, d][1..] == [c, d] && [c, d][1..] == [d] && [d][1..] == [];
    assert S.Run(s3, [d]) == S.Apply(s3, d);
    assert S.Run(s2, [c, d]) == S.Run(s3, [d]);
    assert S.Run(s1, [b, c, d]) == S.Run(s2, [c, d]);
  }

  /** A keyframe, then an AAC frame: from a cache without a limit these two are all it holds. */
  lemma KeyThenSound(g: G.Gop, k: Msg, r: Msg)
    requires g.enabled && g.limit <= 0 && IsKey(k) && IsCached(k) && IsCached(r) && r.kind == Audio
    ensures G.Cached(G.Cached(g, k), r).msgs == [k, r]
  {
    Judged(k);
  }

  /** An AAC sequence header, an H.264 keyframe and an AAC frame are published; a player that is
      created then is passed exactly these three, in this order. */
  lemma AacStreamJoins(asc: bytes, key: bytes, raw: bytes, t0: int, t1: int, t2: int, id: nat, limit: int)
    ensures var a: S.Av, k: S.Av, r: S.Av :=
              Msg(Audio, t0, [0xaf, 0] + asc), Msg(Video, t1, [0x17, 1] + key), Msg(Audio, t2, [0xaf, 1] + raw);
            var s := S.Run(S.IDLE, [S.Publish(true), S.Media(a), S.Media(k), S.Media(r)]);
            S.Inputs(S.Apply(s, S.Create(id)), [S.Dumps(id, true, true, true, limit)], id) == [a, k, r]
  {
    hide S.Players, G.Cached, S.Run, IsAsc, IsAvcc, IsCached, IsKey;
    var a: S.Av, k: S.Av, r: S.Av :=
      Msg(Audio, t0, [0xaf, 0] + asc), Msg(Video, t1, [0x17, 1] + key), Msg(Audio, t2, [0xaf, 1] + raw);
    BytesOfThree(a, k, r, asc, key, raw);
    var s1 := S.Apply(S.IDLE, S.Publish(true));
    var s2 := S.Apply(s1, S.Media(a));
    var s3 := S.Apply(s2, S.Media(k));
    MediaCaches(s1, a);
    MediaCaches(s2, k);
    MediaCaches(s3, r);
    KeyThenSound(s1.gop, k, r);
    RunFour(S.IDLE, S.Publish(true), S.Media(a), S.Media(k), S.Media(r));
    var s4 := S.Apply(S.Apply(s3, S.Media(r)), S.Create(id));
    S.InputsOne(s4, S.Dumps(id, true, true, true, limit), id);
    assert S.Prefill(s4, true, true, true) == [a, k, r];
  }

  lemma BytesOfThree(a: Msg, k: Msg, r: Msg, asc: bytes, key: bytes, raw: bytes)
    requires a.kind == Audio && a.payload == [0xaf, 0] + asc
    requires k.kind == Video && k.payload == [0x17, 1] + key
    requires r.kind == Audio && r.payload == [0xaf, 1] + raw
    ensures IsAsc(a) && IsCached(k) && IsKey(k) && IsCached(r)
    ensures !IsCached(a) && !IsAsc(k) && !IsAvcc(k)
  {
  }
}
