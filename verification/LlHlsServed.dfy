/**
 The playlist names one initialisation segment for the whole window. When is it the one that every
 part in the window was written under?
 */
module LlHlsServed {
  import opened Bytes
  import opened Fmp4
  import opened LlHlsMux
  import opened LlHlsTiling
  import opened LlHlsFlags
  import opened LlHlsIsolation
  import L = LlHls

  /** The parts in the window, in order. */
  function Flat(segments: seq<Seg>): seq<PartOf> {
    if segments == [] then [] else Flat(segments[..|segments| - 1]) + L.Last(segments).parts
  }

  function NumberOf(p: PartOf): nat { p.payload.fragment.sequence }

  // ----- the storage

  lemma FlatAppend(segments: seq<Seg>, seg: Seg)
    ensures Flat(segments + [seg]) == Flat(segments) + seg.parts
  {
    assert (segments + [seg])[..|segments|] == segments;
  }

  lemma {:induction false} FlatConcat(a: seq<Seg>, b: seq<Seg>)
    ensures Flat(a + b) == Flat(a) + Flat(b)
    decreases |b|
  {
    if b == [] {
      assert a + b == a;
      assert Flat(a) + [] == Flat(a);
    } else {
      var front, last := b[..|b| - 1], L.Last(b);
      FlatConcat(a, front);
      assert a + b == (a + front) + [last] && b == front + [last];
      FlatAppend(a + front, last);
      FlatAppend(front, last);
      Assoc(Flat(a), Flat(front), last.parts);
    }
  }

  /** A part goes in at the end; what falls out falls out at the front. */
  lemma AppendFlat(st: St, s: L.Step<Piece>) returns (t: nat, p: PartOf)
    requires s.Append?
    ensures p.payload == s.payload && t <= |Flat(st.segments)| + 1
    ensures Flat(L.Apply(st, s).segments) == (Flat(st.segments) + [p])[t..]
  {
    hide L.Apply, L.HasOpen, Flat;
    var g := L.Grown(st, s);
    p := GrownFlat(st, s);
    var k := AppendTail(st, s);
    assert g == g[..k] + g[k..];
    FlatConcat(g[..k], g[k..]);
    t := |Flat(g[..k])|;
    assert Flat(g)[t..] == Flat(g[k..]);
  }

  lemma GrownFlat(st: St, s: L.Step<Piece>) returns (p: PartOf)
    requires s.Append?
    ensures p.payload == s.payload && Flat(L.Grown(st, s)) == Flat(st.segments) + [p]
  {
    hide Flat;
    var seg := Target(st);
    p := L.Part(|seg.parts|, s.duration, s.independent, s.payload);
    var front := if L.HasOpen(st) then st.segments[..|st.segments| - 1] else st.segments;
    assert L.Grown(st, s) == front + [L.WithPart(seg, s)];
    FlatAppend(front, L.WithPart(seg, s));
    Assoc(Flat(front), seg.parts, [p]);
    if L.HasOpen(st) {
      assert st.segments == front + [seg];
      FlatAppend(front, seg);
    } else {
      assert Flat(front) + [] == Flat(front);
    }
  }

  /** Nothing else moves parts. */
  lemma QuietFlat(st: St, s: L.Step<Piece>)
    requires !s.Append?
    ensures Flat(L.Apply(st, s).segments) == Flat(st.segments)
  {
    hide L.Generate, Flat;
    if L.HasOpen(st) {
      var n := |st.segments| - 1;
      var front, last := st.segments[..n], L.Last(st.segments);
      assert st.segments == front + [last];
      assert st.segments[n := last.(completed := true)] == front + [last.(completed := true)];
      FlatAppend(front, last);
      FlatAppend(front, last.(completed := true));
    }
  }

  // ----- since when the initialisation segment is in force

  /** The number of the part with which the present initialisation segment came into force. */
  function Renewed(m: Mux, e: Event, k: nat): nat {
    if Handle(m, e).mux.init != m.init then Number(Handle(m, e).mux) else k
  }

  function RenewedBy(m: Mux, es: seq<Event>, k: nat): nat
    decreases |es|
  {
    if es == [] then k else RenewedBy(Handle(m, es[0]).mux, es[1..], Renewed(m, es[0], k))
  }

  /** Parts are numbered without gap up to the next number; from part `k` on they are under the
      present initialisation segment, and part `k - 1` is not. */
  predicate Numbers(parts: seq<PartOf>, n: nat, k: nat, init: Option<InitSegment>) {
    && |parts| <= n && k <= n
    && (forall i :: 0 <= i < |parts| ==> NumberOf(parts[i]) == n - |parts| + i)
    && (forall i :: 0 <= i < |parts| && k <= NumberOf(parts[i]) ==> parts[i].payload.init == init)
    && (forall i :: 0 <= i < |parts| && NumberOf(parts[i]) == k - 1 ==> parts[i].payload.init != init)
  }

  predicate InForce(m: Mux, st: St, k: nat) {
    && Sound(m) && Counting(m)
    && Numbers(Flat(st.segments), Number(m), k, m.init)
    && (m.part.None? ==> k < Number(m) || Flat(st.segments) == [])
  }

  lemma NumbersAppend(parts: seq<PartOf>, p: PartOf, n: nat, k: nat, init: Option<InitSegment>, t: nat)
    requires Numbers(parts, n, k, init) && NumberOf(p) == n && p.payload.init == init && t <= |parts| + 1
    ensures Numbers((parts + [p])[t..], n + 1, k, init)
  {
    hide NumberOf;
    var all := (parts + [p])[t..];
    assert forall i :: 0 <= i < |all| ==> all[i] == (parts + [p])[t + i];
  }

  lemma FlushInForce(m: Mux, st: St, end: nat, close: bool, k: nat)
    requires InForce(m, st, k) && m.part.Some?
    ensures var f := FlushPart(m, end, close); InForce(f.mux, L.Run(st, f.steps), k) && f.mux.init == m.init
  {
    hide Flat, Numbers, L.Run, L.Apply;
    var f := FlushPart(m, end, close);
    FlushCounts(m, end, close);
    var s := f.steps[0];
    RunOne(st, s);
    var t, p := AppendFlat(st, s);
    NumbersAppend(Flat(st.segments), p, Number(m), k, m.init, t);
    NumbersBound(Flat(st.segments), Number(m), k, m.init);
  }

  lemma NumbersBound(parts: seq<PartOf>, n: nat, k: nat, init: Option<InitSegment>)
    requires Numbers(parts, n, k, init)
    ensures k <= n
  {
  }

  /** Opening a part may bring a new initialisation segment into force, from this part on. */
  lemma OpenInForce(m: Mux, st: St, dts: nat, s: Sample, k: nat)
    requires InForce(m, st, k) && m.part.None? && m.enabled && (m.format.avc.Some? || m.format.aac.Some?)
    ensures var m' := AddSample(Open(m, dts), dts, s);
            InForce(m', st, if m'.init != m.init then Number(m') else k)
  {
    hide Flat;
    var m', parts := AddSample(Open(m, dts), dts, s), Flat(st.segments);
    assert Number(m') == Number(m);
    if m'.init != m.init && parts != [] {
      assert NumberOf(parts[|parts| - 1]) == Number(m) - 1;
    }
  }

  lemma AddInForce(m: Mux, st: St, dts: nat, s: Sample, k: nat)
    requires InForce(m, st, k) && m.part.Some?
    ensures InForce(AddSample(m, dts, s), st, k)
  {
    hide Flat, Numbers;
  }

  lemma WriteInForce(m: Mux, st: St, dts: nat, s: Sample, canEnd: bool, k: nat)
    requires InForce(m, st, k) && m.enabled && (m.format.avc.Some? || m.format.aac.Some?)
    ensures var r := Write(m, dts, s, canEnd);
            InForce(r.mux, L.Run(st, r.steps), if r.mux.init != m.init then Number(r.mux) else k)
  {
    hide FlushPart, InForce, L.Run, Open, AddSample, PartFull;
    RunNone(st);
    AddKeepsInit(m, dts, s);
    var c := MaybeCut(m, dts, canEnd);
    if m.part.None? {
      OpenInForce(m, st, dts, s, k);
    } else {
      InForceHasSamples(m, st, k);
      FlushInForce(m, st, dts, true, k);
      FlushInForce(m, st, dts, false, k);
      FlushShape(m, dts, true);
      FlushShape(m, dts, false);
      if c.mux.part.Some? {
        AddInForce(m, st, dts, s, k);
      } else {
        OpenInForce(c.mux, L.Run(st, c.steps), dts, s, k);
      }
    }
  }

  lemma AddKeepsInit(m: Mux, dts: nat, s: Sample)
    ensures m.part.Some? ==> AddSample(m, dts, s).init == m.init
  {
  }

  lemma InForceHasSamples(m: Mux, st: St, k: nat)
    requires InForce(m, st, k) && m.part.Some?
    ensures m.part.value.samples != []
  {
  }

  lemma QuietInForce(m: Mux, st: St, s: L.Step<Piece>, k: nat)
    requires InForce(m, st, k) && !s.Append?
    ensures InForce(m, L.Apply(st, s), k)
  {
    hide Flat, Numbers, L.Apply;
    QuietFlat(st, s);
  }

  /** What else the muxer remembers does not matter. */
  lemma SameInForce(m: Mux, m': Mux, st: St, k: nat)
    requires InForce(m, st, k) && m'.part == m.part && m'.init == m.init && m'.sequence == m.sequence
    requires (m'.initDirty ==> m'.part.None?) && (!m'.enabled ==> m'.part.None?)
    ensures InForce(m', st, k)
  {
    hide Flat, Numbers;
  }

  lemma UnpublishInForce(m: Mux, st: St, k: nat)
    requires InForce(m, st, k) && m.enabled
    ensures var r := Handle(m, Unpublish); InForce(r.mux, L.Run(st, r.steps), k) && r.mux.init == m.init
  {
    hide InForce, FlushPart, L.Run, L.Apply;
    RunNone(st);
    var f := if m.part.Some? then FlushPart(m, m.part.value.last, true) else Effect(m, []);
    if m.part.Some? {
      InForceHasSamples(m, st, k);
      FlushInForce(m, st, m.part.value.last, true, k);
      FlushShape(m, m.part.value.last, true);
    }
    var st1 := L.Run(st, f.steps);
    RunConcat(st, f.steps, [L.Unpublish]);
    RunOne(st1, L.Unpublish);
    QuietInForce(f.mux, st1, L.Unpublish, k);
    InForceDirty(f.mux, st1, k);
    SameInForce(f.mux, f.mux.(enabled := false), L.Apply(st1, L.Unpublish), k);
  }

  lemma InForceDirty(m: Mux, st: St, k: nat)
    requires InForce(m, st, k)
    ensures (m.initDirty ==> m.part.None?) && (!m.enabled ==> m.part.None?)
  {
  }

  lemma PublishInForce(m: Mux, st: St, max: int, cfg: L.Config, k: nat)
    requires InForce(m, st, k) && !m.enabled
    ensures var r := Handle(m, Publish(max, cfg)); InForce(r.mux, L.Run(st, r.steps), k) && r.mux.init == m.init
  {
    hide InForce, L.Run, L.Apply;
    var st1 := L.Apply(st, L.UpdateConfig(max, cfg));
    InForceDirty(m, st, k);
    QuietInForce(m, st, L.UpdateConfig(max, cfg), k);
    QuietInForce(m, st1, L.Publish, k);
    SameInForce(m, Handle(m, Publish(max, cfg)).mux, L.Apply(st1, L.Publish), k);
    var a: Steps, b: Steps := [L.UpdateConfig(max, cfg)], [L.Publish];
    RunConcat(st, a, b);
    RunOne(st, a[0]);
    RunOne(st1, b[0]);
    assert a + b == [L.UpdateConfig(max, cfg), L.Publish];
  }

  lemma HeaderInForce(m: Mux, st: St, f: Format, k: nat)
    requires InForce(m, st, k)
    ensures var r := Handle(m, Header(f)); InForce(r.mux, L.Run(st, r.steps), k) && r.mux.init == m.init
  {
    hide InForce, FlushPart, L.Run;
    RunNone(st);
    InForceDirty(m, st, k);
    SameInForce(m, m.(format := f), st, k);
    if m.enabled && IsChanged(m, f) {
      var m2 := Changed(m.(format := f), f);
      SameInForce(m, m2, st, k);
      if m2.part.Some? {
        InForceHasSamples(m2, st, k);
        FlushInForce(m2, st, m2.part.value.last, true, k);
        FlushShape(m2, m2.part.value.last, true);
        var f2 := FlushPart(m2, m2.part.value.last, true);
        SameInForce(f2.mux, f2.mux.(initDirty := true), L.Run(st, f2.steps), k);
      } else {
        SameInForce(m2, m2.(initDirty := true), st, k);
      }
    }
  }

  lemma EventInForce(m: Mux, st: St, e: Event, k: nat)
    requires InForce(m, st, k) && (e.Publish? ==> !m.enabled)
    ensures var r := Handle(m, e); InForce(r.mux, L.Run(st, r.steps), Renewed(m, e, k))
  {
    hide InForce, L.Run, Write, FlushPart;
    RunNone(st);
    match e
    case Publish(max, cfg) => PublishInForce(m, st, max, cfg, k);
    case Unpublish => if m.enabled { UnpublishInForce(m, st, k); }
    case Header(f) => HeaderInForce(m, st, f, k);
    case Damaged(f) =>
      InForceDirty(m, st, k);
      SameInForce(m, m.(format := f), st, k);
    case Audio(dts, _) => if Accepts(m, e) { WriteInForce(m, st, dts, SampleOf(e), CanEnd(m, SampleOf(e)), k); }
    case Video(dts, _, _, _) => if Accepts(m, e) { WriteInForce(m, st, dts, SampleOf(e), CanEnd(m, SampleOf(e)), k); }
  }

  lemma {:induction false} RunInForce(m: Mux, st: St, es: seq<Event>, k: nat)
    requires InForce(m, st, k) && Orderly(m, es)
    ensures var s := Play(System(m, st), es); InForce(s.mux, s.store, RenewedBy(m, es, k))
    decreases |es|
  {
    hide InForce, Handle, L.Run, Renewed;
    if es != [] {
      EventInForce(m, st, es[0], k);
      var r := Handle(m, es[0]);
      RunInForce(r.mux, L.Run(st, r.steps), es[1..], Renewed(m, es[0], k));
    }
  }

  /** Every part in the window is under the present initialisation segment exactly when it has been in
      force since the first of them. */
  lemma AllUnderExactly(parts: seq<PartOf>, n: nat, k: nat, init: Option<InitSegment>)
    requires Numbers(parts, n, k, init) && parts != []
    ensures (forall i :: 0 <= i < |parts| ==> parts[i].payload.init == init) <==> k <= NumberOf(parts[0])
  {
    hide NumberOf;
    if NumberOf(parts[0]) < k {
      var i := k - 1 - NumberOf(parts[0]);
      assert NumberOf(parts[i]) == k - 1;
    }
  }

  /** Over every orderly run from the start: the one initialisation segment that is served is that of
      every part in the window, if and only if it has not been replaced since the first part of the
      window's first segment was opened. */
  lemma ServedInitExactly(max: int, es: seq<Event>)
    requires Orderly(INITIAL, es)
    requires Flat(Play(System(INITIAL, L.Init(max)), es).store.segments) != []
    ensures var s := Play(System(INITIAL, L.Init(max)), es);
            var parts := Flat(s.store.segments);
            (forall i :: 0 <= i < |parts| ==> parts[i].payload.init == s.mux.init)
            <==> RenewedBy(INITIAL, es, 0) <= NumberOf(parts[0])
  {
    hide Orderly, Play, Flat, RenewedBy, NumberOf;
    InitialInForce(max);
    RunInForce(INITIAL, L.Init(max), es, 0);
    var s := Play(System(INITIAL, L.Init(max)), es);
    AllUnderExactly(Flat(s.store.segments), Number(s.mux), RenewedBy(INITIAL, es, 0), s.mux.init);
  }

  lemma InitialInForce(max: int)
    ensures InForce(INITIAL, L.Init(max), 0)
  {
  }
}
