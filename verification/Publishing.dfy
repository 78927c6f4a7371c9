/**
 Many connections publish to one source. A connection looks whether the source is free, claims it
 in a separate step, publishes, and releases what it claimed; after that it may come again. Each
 call on the source is one atomic step and the steps of the connections interleave in any way.
 */
module Publishing {
  import opened Bytes
  import L = LiveSource

  /** Where a connection stands in its program: before the check, between check and claim,
      publishing, about to release with the outcome of the claim, or turned away. */
  datatype At = Idle | Checked | Publishing | Leaving(acquired: bool)

  /** `owner` is the connection whose claim the source accepted last and has not seen undone. */
  datatype World = World(source: L.Source, owner: Option<nat>, at: map<nat, At>)

  datatype Step =
    | Arrive(c: nat)
    | Check(c: nat)
    | Claim(c: nat, hubOk: bool)
    | Send(c: nat, message: L.Step)
    | Finish(c: nat)
    | Leave(c: nat)
    | Player(action: L.Step)

  const START := World(L.IDLE, None, map[])

  predicate Is(w: World, c: nat, a: At) { c in w.at && w.at[c] == a }

  /** The source's side of a release: it does not look at who calls. */
  function Released(w: World): World {
    World(L.Apply(w.source, L.Unpublish), if w.source.canPublish then w.owner else None, w.at)
  }

  predicate IsMedia(s: L.Step) { s.Media? || s.Metadata? }

  predicate Enabled(w: World, s: Step) {
    match s
    case Arrive(c) => c !in w.at
    case Check(c) => Is(w, c, Idle)
    case Claim(c, _) => Is(w, c, Checked)
    case Send(c, message) => Is(w, c, Publishing) && IsMedia(message)
    case Finish(c) => Is(w, c, Publishing)
    case Leave(c) => c in w.at && w.at[c].Leaving?
    case Player(action) => !IsMedia(action) && !action.Publish? && !action.Unpublish?
  }

  function Apply(w: World, s: Step): World
    requires Enabled(w, s)
  {
    match s
    case Arrive(c) => w.(at := w.at[c := Idle])
    case Check(c) => w.(at := w.at[c := if w.source.canPublish then Checked else Leaving(false)])
    case Claim(c, hubOk) =>
      var source := L.Apply(w.source, L.Publish(hubOk));
      if w.source.canPublish && hubOk then World(source, Some(c), w.at[c := Publishing])
      else World(source, w.owner, w.at[c := Leaving(false)])
    case Send(_, message) => w.(source := L.Apply(w.source, message))
    case Finish(c) => w.(at := w.at[c := Leaving(true)])
    case Leave(c) =>
      var w1 := if w.at[c].acquired then Released(w) else w;
      w1.(at := w.at[c := Idle])
    case Player(action) => w.(source := L.Apply(w.source, action))
  }

  predicate Possible(w: World, steps: seq<Step>)
    decreases |steps|
  {
    steps == [] || (Enabled(w, steps[0]) && Possible(Apply(w, steps[0]), steps[1..]))
  }

  function Run(w: World, steps: seq<Step>): World
    requires Possible(w, steps)
    decreases |steps|
  {
    if steps == [] then w else Run(Apply(w, steps[0]), steps[1..])
  }

  /** Between a successful claim and the release. */
  predicate Holds(w: World, c: nat) { Is(w, c, Publishing) || Is(w, c, Leaving(true)) }

  /** The holder, if there is one, is the owner; the source is taken exactly while it has an owner. */
  predicate Ok(w: World) {
    && (w.source.canPublish <==> w.owner.None?) && w.source.active == !w.source.canPublish
    && (forall c :: c in w.at ==> (Holds(w, c) <==> w.owner == Some(c)))
    && (w.owner.Some? ==> w.owner.value in w.at)
  }

  lemma SourceFlags(s: L.Source, step: L.Step)
    ensures var r := L.Apply(s, step);
            && (step.Publish? ==> r.canPublish == (s.canPublish && !(s.canPublish && step.hubOk)))
            && (step.Publish? ==> r.active == (s.active || (s.canPublish && step.hubOk)))
            && (step.Unpublish? ==>
                  r.canPublish && (!s.canPublish ==> !r.active) && (s.canPublish ==> r.active == s.active))
            && (!step.Publish? && !step.Unpublish? ==> r.canPublish == s.canPublish && r.active == s.active)
  {
    hide L.Players;
  }

  lemma StepKeepsOk(w: World, s: Step)
    requires Ok(w) && Enabled(w, s)
    ensures Ok(Apply(w, s))
  {
    hide L.Apply;
    match s
    case Claim(_, hubOk) => SourceFlags(w.source, L.Publish(hubOk)); HoldersStay(w, s);
    case Leave(_) => SourceFlags(w.source, L.Unpublish); HoldersStay(w, s);
    case Send(_, message) => SourceFlags(w.source, message); HoldersStay(w, s);
    case Player(action) => SourceFlags(w.source, action); HoldersStay(w, s);
    case Arrive(_) => HoldersStay(w, s);
    case Check(_) => HoldersStay(w, s);
    case Finish(_) => HoldersStay(w, s);
  }

  lemma HoldersStay(w: World, s: Step)
    requires Ok(w) && Enabled(w, s)
    ensures var w' := Apply(w, s);
            && (forall c :: c in w'.at ==> (Holds(w', c) <==> w'.owner == Some(c)))
            && (w'.owner.Some? ==> w'.owner.value in w'.at)
  {
    hide L.Apply;
    var w' := Apply(w, s);
    forall c | c in w'.at ensures Holds(w', c) <==> w'.owner == Some(c) {
      if c in w.at { assert Holds(w, c) <==> w.owner == Some(c); }
    }
  }

  lemma {:induction false} RunKeepsOk(w: World, steps: seq<Step>)
    requires Ok(w) && Possible(w, steps)
    ensures Ok(Run(w, steps))
    decreases |steps|
  {
    hide Ok;
    if steps != [] {
      StepKeepsOk(w, steps[0]);
      RunKeepsOk(Apply(w, steps[0]), steps[1..]);
    }
  }

  /** Over every interleaving: at most one connection is between claim and release, and the source
      refuses publishers exactly while there is one. */
  lemma OnePublisher(steps: seq<Step>, c: nat, d: nat)
    requires Possible(START, steps)
    ensures var w := Run(START, steps);
            && (Holds(w, c) && Holds(w, d) ==> c == d)
            && (!w.source.canPublish <==> exists x :: Holds(w, x))
  {
    RunKeepsOk(START, steps);
    var w := Run(START, steps);
    if w.owner.Some? { assert Holds(w, w.owner.value); }
  }

  /** The check turns a connection away exactly while another one holds the source. */
  lemma CheckExactly(steps: seq<Step>, c: nat)
    requires Possible(START, steps) && Enabled(Run(START, steps), Check(c))
    ensures var w := Run(START, steps);
            && (Is(Apply(w, Check(c)), c, Checked) <==> !exists x :: Holds(w, x))
            && (Is(Apply(w, Check(c)), c, Leaving(false)) <==> exists x :: Holds(w, x))
  {
    OnePublisher(steps, c, c);
  }

  /** Whoever leaves ends at most its own publish: if another connection holds the source, it still
      does afterwards. */
  lemma LeavingHurtsNobody(steps: seq<Step>, c: nat, d: nat)
    requires Possible(START, steps)
    requires var w := Run(START, steps); Enabled(w, Leave(c)) && c != d && Holds(w, d)
    ensures var w := Run(START, steps);
            var w' := Apply(w, Leave(c));
            w.at[c] == Leaving(false) && Holds(w', d) && !w'.source.canPublish && w'.owner == Some(d)
  {
    RunKeepsOk(START, steps);
    var w := Run(START, steps);
    assert w.owner == Some(d);
    assert !Holds(w, c);
  }

  /** Media reaches the source only from its owner and only while the stream is live. */
  lemma MediaOnlyFromOwner(steps: seq<Step>, c: nat, message: L.Step)
    requires Possible(START, steps) && Enabled(Run(START, steps), Send(c, message))
    ensures var w := Run(START, steps); w.owner == Some(c) && w.source.active
  {
    hide L.Apply;
    RunKeepsOk(START, steps);
    assert Holds(Run(START, steps), c);
  }

  /** The check alone decides nothing: two connections can both find the source free. The claim then
      turns the second away. */
  lemma BothPassTheCheck(c: nat, d: nat)
    requires c != d
    ensures var steps := [Arrive(c), Arrive(d), Check(c), Check(d), Claim(c, true), Claim(d, true)];
            && Possible(START, steps)
            && var w := Run(START, steps); Holds(w, c) && Is(w, d, Leaving(false))
  {
    hide L.Apply;
    SourceFlags(L.IDLE, L.Publish(true));
    var w1 := Apply(START, Arrive(c));
    var w2 := Apply(w1, Arrive(d));
    var w3 := Apply(w2, Check(c));
    var w4 := Apply(w3, Check(d));
    var w5 := Apply(w4, Claim(c, true));
    Then(w5, Claim(d, true), []);
    Then(w4, Claim(c, true), [Claim(d, true)]);
    Then(w3, Check(d), [Claim(c, true), Claim(d, true)]);
    Then(w2, Check(c), [Check(d), Claim(c, true), Claim(d, true)]);
    Then(w1, Arrive(d), [Check(c), Check(d), Claim(c, true), Claim(d, true)]);
    Then(START, Arrive(c), [Arrive(d), Check(c), Check(d), Claim(c, true), Claim(d, true)]);
  }

  lemma Then(w: World, s: Step, rest: seq<Step>)
    requires Enabled(w, s) && Possible(Apply(w, s), rest)
    ensures Possible(w, [s] + rest) && Run(w, [s] + rest) == Run(Apply(w, s), rest)
  {
    hide Apply, Enabled;
    assert ([s] + rest)[1..] == rest;
  }

  /** Why a refused connection must not release: the source would take it for the publisher's own
      release and let the next one in beside it. */
  lemma BlindReleaseSteals(w: World, c: nat)
    requires Ok(w) && w.owner == Some(c)
    ensures var w' := Released(w); w'.source.canPublish && Holds(w', c)
  {
    assert Holds(w, c);
  }
}
