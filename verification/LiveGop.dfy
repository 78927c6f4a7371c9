/**
 The GOP cache: recent media, so that a player that joins can start at once.
 */
module LiveGop {
  import opened Bytes
  import opened LiveJitter

  const PURE_AUDIO_GUESS := 115

  /** `videos` counts cached video, `audios` audio since the last video; a limit of zero or less is
      no limit on the number of messages. */
  datatype Gop = Gop(msgs: seq<Msg>, videos: nat, audios: nat, enabled: bool, limit: int)

  const EMPTY := Gop([], 0, 0, true, 0)

  function Cleared(g: Gop): Gop { g.(msgs := [], videos := 0, audios := 0) }

  function SetEnabled(g: Gop, v: bool): Gop { if v then g.(enabled := true) else Cleared(g).(enabled := false) }

  /** Audio and H.264 video. */
  predicate Cacheable(m: Msg) { m.kind == Audio || (m.kind == Video && m.IsH264()) }

  function Limited(g: Gop): Gop { if g.limit > 0 && |g.msgs| > g.limit then Cleared(g) else g }

  function Cached(g: Gop, m: Msg): Gop {
    if !g.enabled || !Cacheable(m) then g
    else if m.kind == Video then
      if m.IsKeyframe() then Limited(g.(msgs := [m], videos := 1, audios := 0))
      else Limited(g.(msgs := g.msgs + [m], videos := g.videos + 1, audios := 0))
    else if g.videos == 0 then g
    else if g.audios + 1 > PURE_AUDIO_GUESS then Cleared(g)
    else Limited(g.(msgs := g.msgs + [m], audios := g.audios + 1))
  }

  class GopCache {
    var msgs: seq<Msg>
    var videos: nat
    var audios: nat
    var enabled: bool
    var limit: int

    function View(): Gop
      reads this
    {
      Gop(msgs, videos, audios, enabled, limit)
    }

    constructor ()
      ensures View() == EMPTY
    {
      msgs, videos, audios, enabled, limit := [], 0, 0, true, 0;
    }

    method Clear()
      modifies this
      ensures View() == Cleared(old(View()))
    {
      msgs, videos, audios := [], 0, 0;
    }

    method Set(v: bool)
      modifies this
      ensures View() == SetEnabled(old(View()), v)
    {
      enabled := v;
      if !v { Clear(); }
    }

    method SetLimit(v: int)
      modifies this
      ensures View() == old(View()).(limit := v)
    {
      limit := v;
    }

    method Cache(m: Msg)
      requires m.IsAv()
      modifies this
      ensures View() == Cached(old(View()), m)
    {
      if !enabled { return; }
      if m.kind == Video {
        if !m.IsH264() { return; }
        videos, audios := videos + 1, 0;
      }
      if videos == 0 { return; }
      if m.kind == Audio { audios := audios + 1; }
      if audios > PURE_AUDIO_GUESS {
        Clear();
        return;
      }
      if m.kind == Video && m.IsKeyframe() {
        Clear();
        videos := 1;
      }
      msgs := msgs + [m];
      if limit > 0 && |msgs| > limit { Clear(); }
    }
  }

  // ----- what may be cached

  /** Audio messages since the last video. */
  function Trailing(ms: seq<Msg>): nat {
    if ms == [] || ms[|ms| - 1].kind == Video then 0 else 1 + Trailing(ms[..|ms| - 1])
  }

  /** A stretch that starts with video, has no keyframe behind its start, and no long run of audio. */
  predicate Playable(ms: seq<Msg>) {
    ms == [] || (
      && ms[0].kind == Video
      && (forall i :: 0 < i < |ms| && ms[i].kind == Video ==> !ms[i].IsKeyframe())
      && (forall i :: 0 <= i <= |ms| ==> Trailing(ms[..i]) <= PURE_AUDIO_GUESS))
  }

  function Videos(ms: seq<Msg>): nat {
    if ms == [] then 0 else Videos(ms[..|ms| - 1]) + if ms[|ms| - 1].kind == Video then 1 else 0
  }

  /** The counters describe the content. */
  predicate Ok(g: Gop) {
    && Playable(g.msgs) && g.videos == Videos(g.msgs) && (g.msgs != [] ==> g.videos > 0)
    && g.audios == Trailing(g.msgs) && (!g.enabled ==> g.msgs == [])
    && forall i :: 0 <= i < |g.msgs| ==> Cacheable(g.msgs[i])
  }

  lemma ClearedOk(g: Gop)
    ensures Ok(Cleared(g))
  {
  }

  lemma PlayablePrefix(ms: seq<Msg>, m: Msg)
    requires ms != []
    ensures Playable(ms + [m]) <==>
              Playable(ms) && !(m.kind == Video && m.IsKeyframe()) && Trailing(ms + [m]) <= PURE_AUDIO_GUESS
  {
    hide Trailing;
    var all := ms + [m];
    assert all[..|all|] == all;
    assert forall i :: 0 <= i <= |ms| ==> all[..i] == ms[..i];
    assert all[|ms|] == m && forall i :: 0 <= i < |ms| ==> ms[i] == all[i];
    if Playable(all) {
      assert forall i :: 0 <= i <= |ms| ==> Trailing(ms[..i]) == Trailing(all[..i]);
    }
  }

  lemma TrailingAppend(ms: seq<Msg>, m: Msg)
    ensures Trailing(ms + [m]) == if m.kind == Video then 0 else 1 + Trailing(ms)
    ensures Videos(ms + [m]) == Videos(ms) + if m.kind == Video then 1 else 0
  {
    assert (ms + [m])[..|ms|] == ms;
  }

  lemma SinglePlayable(m: Msg)
    ensures Playable([m]) <==> m.kind == Video
    ensures Videos([m]) == if m.kind == Video then 1 else 0
    ensures m.kind == Video ==> Trailing([m]) == 0
  {
    assert [m][..0] == [] && [m][..1] == [m];
  }

  /** Every step keeps the counters right and the content playable. */
  lemma CachedOk(g: Gop, m: Msg)
    requires Ok(g)
    ensures Ok(Cached(g, m))
  {
    hide Playable, Trailing, Videos;
    ClearedOk(g);
    TrailingAppend(g.msgs, m);
    SinglePlayable(m);
    if g.msgs == [] {
      assert g.msgs + [m] == [m];
      assert g.videos == 0 && g.audios == 0 by { NothingCounted(); }
    } else {
      PlayablePrefix(g.msgs, m);
    }
  }

  lemma NothingCounted()
    ensures Videos([]) == 0 && Trailing([]) == 0
  {
  }

  // ----- the cache as a function of what was published

  predicate Suffix(s: seq<Msg>, h: seq<Msg>) { |s| <= |h| && h[|h| - |s|..] == s }

  lemma SuffixGrows(s: seq<Msg>, h: seq<Msg>, m: Msg)
    requires Suffix(s, h)
    ensures Suffix(s + [m], h + [m])
  {
  }

  /** The cached messages stay the end of all that could be cached: nothing is missing in between. */
  lemma CachedIsSuffix(g: Gop, m: Msg, h: seq<Msg>)
    requires Ok(g) && Suffix(g.msgs, h)
    ensures Suffix(Cached(g, m).msgs, if Cacheable(m) then h + [m] else h)
  {
    hide Playable, Trailing, Videos;
    SuffixGrows(g.msgs, h, m);
    SuffixGrows([], h, m);
    assert Suffix([], h + [m]) && Suffix([], h);
    assert g.videos == 0 ==> g.msgs == [];
    assert [] + [m] == [m];
  }

  /** The longest playable end of a history. */
  predicate Longest(s: seq<Msg>, h: seq<Msg>) {
    && Suffix(s, h) && Playable(s)
    && forall k :: 0 <= k <= |h| && Playable(h[k..]) ==> |h| - k <= |s|
  }

  lemma {:induction false} TrailingOfSuffix(s: seq<Msg>, k: nat)
    requires k < |s| && s[k].kind == Video
    ensures Trailing(s[k..]) == Trailing(s)
    decreases |s|
  {
    var n := |s| - 1;
    if k < n {
      assert s[k..][..|s[k..]| - 1] == s[..n][k..];
      TrailingOfSuffix(s[..n], k);
    } else {
      assert s[k..] == [s[k]];
    }
  }

  /** A longer history: its playable ends are those of the shorter one, extended. */
  lemma EndsExtend(h: seq<Msg>, m: Msg, k: nat)
    requires k < |h| && Playable((h + [m])[k..])
    ensures Playable(h[k..]) && !(m.kind == Video && m.IsKeyframe()) && Trailing(h[k..] + [m]) <= PURE_AUDIO_GUESS
  {
    hide Playable, Trailing;
    assert (h + [m])[k..] == h[k..] + [m];
    PlayablePrefix(h[k..], m);
  }

  lemma ShortEnds(h: seq<Msg>, m: Msg, k: nat)
    requires k == |h| && Playable((h + [m])[k..])
    ensures m.kind == Video
  {
    hide Playable;
    assert (h + [m])[k..] == [m];
    SinglePlayable(m);
  }

  lemma StartsWithVideo(s: seq<Msg>)
    requires Playable(s) && s != []
    ensures s[0].kind == Video
  {
  }

  /** All playable ends of h + [m] fit into the new cache. */
  lemma NoLongerEnd(g: Gop, m: Msg, h: seq<Msg>, k: nat)
    requires Ok(g) && g.enabled && g.limit <= 0 && Longest(g.msgs, h) && Cacheable(m)
    requires k <= |h| + 1 && Playable((h + [m])[k..])
    ensures |h| + 1 - k <= |Cached(g, m).msgs|
  {
    hide Playable, Trailing, Videos;
    if k < |h| {
      EndsExtend(h, m, k);
      var t := h[k..];
      StartsWithVideo(t);
      TrailingAppend(t, m);
      var j := |g.msgs| - |t|;
      assert t == g.msgs[j..];
      TrailingOfSuffix(g.msgs, j);
    } else if k == |h| {
      ShortEnds(h, m, k);
    }
  }

  lemma UnlimitedIsLongest(g: Gop, m: Msg, h: seq<Msg>)
    requires Ok(g) && g.enabled && g.limit <= 0 && Longest(g.msgs, h) && Cacheable(m)
    ensures Longest(Cached(g, m).msgs, h + [m])
  {
    hide Playable, Trailing, Videos, Cached;
    CachedOk(g, m);
    CachedIsSuffix(g, m, h);
    forall k | 0 <= k <= |h + [m]| && Playable((h + [m])[k..])
      ensures |h + [m]| - k <= |Cached(g, m).msgs|
    {
      NoLongerEnd(g, m, h, k);
    }
  }

  /** One more message would exceed the limit, which clears the cache. */
  predicate Overfull(g: Gop, m: Msg) {
    g.enabled && Cacheable(m) && g.limit > 0 && |Cached(g.(limit := 0), m).msgs| > g.limit
  }

  /** What could be cached since the limit last cleared the cache. */
  function Past(g: Gop, m: Msg, h: seq<Msg>): seq<Msg> {
    if !Cacheable(m) then h else if Overfull(g, m) then [] else h + [m]
  }

  lemma LimitClears(g: Gop, m: Msg)
    requires Ok(g) && g.enabled && Cacheable(m)
    ensures Cached(g, m).msgs == if Overfull(g, m) then [] else Cached(g.(limit := 0), m).msgs
  {
  }

  /** The cache is exactly the longest end of the audio and H.264 video published since the limit
      last cleared it that starts with video, has no keyframe behind its start and no run of more
      than 115 audio messages. */
  lemma CacheIsLongest(g: Gop, m: Msg, h: seq<Msg>)
    requires Ok(g) && g.enabled && Longest(g.msgs, h)
    ensures Longest(Cached(g, m).msgs, Past(g, m, h))
  {
    hide Ok, Longest, Cached, Cacheable, Overfull;
    CachedKeepsMode(g, m);
    if Cacheable(m) {
      LimitClears(g, m);
      OkWithoutLimit(g);
      UnlimitedIsLongest(g.(limit := 0), m, h);
      NothingIsLongest();
    }
  }

  lemma OkWithoutLimit(g: Gop)
    requires Ok(g)
    ensures Ok(g.(limit := 0))
  {
  }

  lemma NothingIsLongest()
    ensures Longest([], [])
  {
  }

  function CacheAll(g: Gop, ms: seq<Msg>): Gop
    decreases |ms|
  {
    if ms == [] then g else CacheAll(Cached(g, ms[0]), ms[1..])
  }

  function CacheableOf(ms: seq<Msg>): seq<Msg> {
    if ms == [] then [] else (if Cacheable(ms[0]) then [ms[0]] else []) + CacheableOf(ms[1..])
  }

  predicate AllCacheable(ms: seq<Msg>) { forall i :: 0 <= i < |ms| ==> Cacheable(ms[i]) }

  lemma {:induction false} CacheableConcat(a: seq<Msg>, b: seq<Msg>)
    ensures CacheableOf(a + b) == CacheableOf(a) + CacheableOf(b)
    decreases |a|
  {
    hide Cacheable;
    if a == [] {
      assert a + b == b;
    } else {
      CacheableConcat(a[1..], b);
      var head := if Cacheable(a[0]) then [a[0]] else [];
      assert CacheableOf(a + b) == head + CacheableOf(a[1..] + b) by { assert (a + b)[1..] == a[1..] + b; }
      Assoc(head, CacheableOf(a[1..]), CacheableOf(b));
    }
  }

  lemma {:induction false} CacheableMembers(ms: seq<Msg>)
    ensures AllCacheable(CacheableOf(ms)) && |CacheableOf(ms)| <= |ms|
    ensures forall m :: m in CacheableOf(ms) ==> m in ms
    ensures AllCacheable(ms) ==> CacheableOf(ms) == ms
  {
    hide Cacheable;
    if ms != [] {
      CacheableMembers(ms[1..]);
      assert ms == [ms[0]] + ms[1..];
    }
  }

  /** An end of what can be cached is an end of everything exactly when everything that recent can
      be cached. */
  lemma EndOfAllExactly(s: seq<Msg>, h: seq<Msg>)
    requires Suffix(s, CacheableOf(h))
    ensures |s| <= |h|
    ensures Suffix(s, h) <==> AllCacheable(h[|h| - |s|..])
  {
    hide Cacheable, CacheableOf, AllCacheable, Suffix;
    CacheableMembers(h);
    SuffixIsShort(s, CacheableOf(h));
    var a, t := h[..|h| - |s|], h[|h| - |s|..];
    assert h == a + t;
    SuffixOfEnd(a, t, s);
    if AllCacheable(t) {
      CacheableConcat(a, t);
      CacheableMembers(t);
      SuffixOfEnd(CacheableOf(a), t, s);
    }
    if Suffix(s, h) { SuffixAllCacheable(s, CacheableOf(h)); }
  }

  lemma SuffixIsShort(s: seq<Msg>, h: seq<Msg>)
    requires Suffix(s, h)
    ensures |s| <= |h|
  {
  }

  lemma SuffixOfEnd(a: seq<Msg>, t: seq<Msg>, s: seq<Msg>)
    requires |s| == |t|
    ensures Suffix(s, a + t) <==> s == t
  {
    assert (a + t)[|a|..] == t;
  }

  lemma SuffixAllCacheable(s: seq<Msg>, h: seq<Msg>)
    requires Suffix(s, h) && AllCacheable(h)
    ensures AllCacheable(s)
  {
    hide Cacheable;
    assert forall i :: 0 <= i < |s| ==> s[i] == h[|h| - |s| + i];
  }

  lemma CachedKeepsMode(g: Gop, m: Msg)
    ensures Cached(g, m).enabled == g.enabled && Cached(g, m).limit == g.limit
    ensures !Cacheable(m) ==> Cached(g, m) == g
  {
  }

  function PastAll(g: Gop, ms: seq<Msg>, h: seq<Msg>): seq<Msg>
    decreases |ms|
  {
    if ms == [] then h else PastAll(Cached(g, ms[0]), ms[1..], Past(g, ms[0], h))
  }

  /** The same over a whole publication, from any cache that is already right. */
  lemma {:induction false} CacheIsLongestEnd(g: Gop, ms: seq<Msg>, h: seq<Msg>)
    requires Ok(g) && g.enabled && Longest(g.msgs, h)
    ensures Longest(CacheAll(g, ms).msgs, PastAll(g, ms, h))
    decreases |ms|
  {
    hide Ok, Longest, Cached, Past;
    if ms != [] {
      CachedOk(g, ms[0]);
      CachedKeepsMode(g, ms[0]);
      CacheIsLongest(g, ms[0], h);
      CacheIsLongestEnd(Cached(g, ms[0]), ms[1..], Past(g, ms[0], h));
    }
  }

  /** Without a limit nothing is ever forgotten: all that can be cached counts. */
  lemma {:induction false} NoLimitForgetsNothing(g: Gop, ms: seq<Msg>, h: seq<Msg>)
    requires g.limit <= 0
    ensures PastAll(g, ms, h) == h + CacheableOf(ms)
    decreases |ms|
  {
    hide Cached, Cacheable;
    if ms == [] {
      assert h + [] == h;
    } else {
      var head := if Cacheable(ms[0]) then [ms[0]] else [];
      CachedKeepsMode(g, ms[0]);
      assert Past(g, ms[0], h) == h + head by { assert h + [] == h; }
      NoLimitForgetsNothing(Cached(g, ms[0]), ms[1..], h + head);
      Assoc(h, head, CacheableOf(ms[1..]));
    }
  }

  predicate Key(m: Msg) { m.kind == Video && m.IsKeyframe() }

  /** The longest end starts with a keyframe exactly when some keyframe is still followed by a
      playable stretch: no later keyframe and no long run of audio. */
  lemma LongestStartsWithKey(s: seq<Msg>, h: seq<Msg>)
    requires Longest(s, h)
    ensures s != [] && Key(s[0]) <==> exists j :: 0 <= j < |h| && Key(h[j]) && Playable(h[j..])
  {
    hide Trailing, Msg.IsKeyframe;
    var k := |h| - |s|;
    assert s == h[k..];
    if s != [] && Key(s[0]) { assert Key(h[k]) && Playable(h[k..]); }
    if exists j :: 0 <= j < |h| && Key(h[j]) && Playable(h[j..]) {
      var j :| 0 <= j < |h| && Key(h[j]) && Playable(h[j..]);
      assert s[j - k] == h[j];
    }
  }

  /** A player that joins starts with a keyframe exactly when, of what was published since the limit
      last cleared the cache, some keyframe is still followed by a playable stretch. */
  lemma StartsWithKeyframeExactly(g: Gop, ms: seq<Msg>, h: seq<Msg>)
    requires Ok(g) && g.enabled && Longest(g.msgs, h)
    ensures var s, past := CacheAll(g, ms).msgs, PastAll(g, ms, h);
            s != [] && Key(s[0]) <==> exists j :: 0 <= j < |past| && Key(past[j]) && Playable(past[j..])
  {
    hide Ok, Longest, CacheAll, PastAll, Key, Playable;
    CacheIsLongestEnd(g, ms, h);
    LongestStartsWithKey(CacheAll(g, ms).msgs, PastAll(g, ms, h));
  }

  /** With a limit, no more than that many messages are ever cached. */
  lemma LimitHolds(g: Gop, m: Msg)
    requires g.limit > 0 && |g.msgs| <= g.limit
    ensures |Cached(g, m).msgs| <= g.limit
  {
  }

  /** The cache can start in the middle of a GOP: an inter frame may be the first video. */
  lemma MayStartWithInterFrame(data: bytes)
    requires |data| >= 2 && data[0] == 0x27 && data[1] == 1
    ensures var m := Msg(Video, 0, data); Cached(EMPTY, m).msgs == [m] && !m.IsKeyframe()
  {
  }
}
