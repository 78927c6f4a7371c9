/**
 The live source object and its players. `Is(s)` says that the objects are in state `s` of the
 state machine LiveSource; every method moves them by exactly one of its steps.
 */
module LiveHub {
  import opened Bytes
  import opened LiveJitter
  import opened LiveSource
  import opened LiveGop
  import opened LiveQueue

  class LiveConsumer {
    const id: nat
    const jitter: Corrector
    const queue: MessageQueue

    function View(): Consumer
      reads jitter, queue
    {
      Consumer(jitter.View(), queue.View())
    }

    constructor (id: nat)
      ensures this.id == id && fresh(jitter) && fresh(queue) && View() == NEW
    {
      this.id := id;
      jitter := new Corrector();
      queue := new MessageQueue();
    }

    method SetQueueSize(size: int)
      modifies queue
      ensures View() == old(View()).(queue := old(View()).queue.(limit := size))
    {
      queue.SetQueueSize(size);
    }

    method Enqueue(m: Msg, ag: Algorithm)
      modifies jitter, queue
      ensures View() == Fed(old(View()), m, ag)
    {
      var corrected := jitter.Correct(m, ag);
      var overflow := queue.Enqueue(corrected);
    }

    method EnqueueAll(ms: seq<Msg>, ag: Algorithm)
      modifies jitter, queue
      ensures View() == FedAll(old(View()), ms, ag)
    {
      hide Fed;
      var i := 0;
      assert ms[0..] == ms;
      while i < |ms|
        invariant i <= |ms| && FedAll(View(), ms[i..], ag) == FedAll(old(View()), ms, ag)
      {
        assert ms[i..][1..] == ms[i + 1..];
        Enqueue(ms[i], ag);
        i := i + 1;
      }
    }

    method DumpPackets(max: nat) returns (out: seq<Msg>)
      requires max > 0
      modifies queue
      ensures (View().queue, out) == Taken(old(View()).queue, max) && View().jitter == old(View()).jitter
    {
      out := queue.DumpPackets(max);
    }
  }

  ghost predicate ApartIn(cs: seq<LiveConsumer>) {
    forall i, j :: 0 <= i < j < |cs| ==>
      cs[i].id != cs[j].id && cs[i].jitter != cs[j].jitter && cs[i].queue != cs[j].queue
  }

  ghost function IdsOf(cs: seq<LiveConsumer>): set<nat> { set i | 0 <= i < |cs| :: cs[i].id }

  function Without(cs: seq<LiveConsumer>, k: nat): seq<LiveConsumer>
    requires k < |cs|
  {
    cs[..k] + cs[k + 1..]
  }

  lemma WithoutAt(cs: seq<LiveConsumer>, k: nat)
    requires k < |cs|
    ensures var r := Without(cs, k);
            && |r| == |cs| - 1
            && (forall i :: 0 <= i < |r| ==> r[i] == cs[if i < k then i else i + 1])
            && (forall i :: 0 <= i < |cs| && i != k ==> cs[i] == r[if i < k then i else i - 1])
  {
  }

  lemma WithoutOne(cs: seq<LiveConsumer>, k: nat)
    requires ApartIn(cs) && k < |cs|
    ensures var r := Without(cs, k);
            && ApartIn(r) && IdsOf(r) == IdsOf(cs) - {cs[k].id}
               && (forall i :: 0 <= i < |r| ==> r[i].id in IdsOf(r) && r[i] in cs)
  {
    hide Without;
    WithoutAt(cs, k);
  }

  lemma NotListed(cs: seq<LiveConsumer>, id: nat)
    requires forall i :: 0 <= i < |cs| ==> cs[i].id != id
    ensures id !in IdsOf(cs)
  {
  }

  class Hub {
    const gop: GopCache
    var canPublish: bool
    var active: bool
    var meta: Option<Msg>
    var audio: Option<Msg>
    var video: Option<Msg>
    var ag: Algorithm
    var consumers: seq<LiveConsumer>

    /** Players share nothing. */
    ghost predicate Apart()
      reads this`consumers
    {
      ApartIn(consumers)
    }

    ghost function Owned(): set<object>
      reads this`consumers
    {
      (set i | 0 <= i < |consumers| :: consumers[i].jitter) + (set i | 0 <= i < |consumers| :: consumers[i].queue)
    }

    ghost function Ids(): set<nat>
      reads this`consumers
    {
      IdsOf(consumers)
    }

    ghost predicate CachesAre(s: Source)
      reads this, gop
    {
      && s.canPublish == canPublish && s.active == active && s.gop == gop.View() && s.ag == ag
      && s.meta == meta && s.audio == audio && s.video == video
    }

    ghost predicate PlayersAre(players: map<nat, Consumer>)
      reads this`consumers, Owned()
    {
      && players.Keys == Ids()
      && forall i :: 0 <= i < |consumers| ==> players[consumers[i].id] == consumers[i].View()
    }

    ghost predicate Is(s: Source)
      reads this, gop, Owned()
    {
      Apart() && CachesAre(s) && PlayersAre(s.consumers)
    }

    constructor ()
      ensures Is(IDLE) && fresh(gop)
    {
      gop := new GopCache();
      canPublish, active, meta, audio, video, ag, consumers := true, false, None, None, None, Full, [];
    }

    /** Every player gets the message once. */
    method FanOut(m: Msg, ghost players: map<nat, Consumer>)
      requires Apart() && PlayersAre(players)
      modifies Owned()
      ensures PlayersAre(AllFed(players, m, ag))
    {
      hide Fed, Corrector.View, MessageQueue.View;
      var i := 0;
      while i < |consumers|
        invariant i <= |consumers|
        invariant forall k :: 0 <= k < i ==> consumers[k].View() == Fed(players[consumers[k].id], m, ag)
        invariant forall k :: i <= k < |consumers| ==> consumers[k].View() == players[consumers[k].id]
      {
        consumers[i].Enqueue(m, ag);
        i := i + 1;
      }
    }

    method OnMetaData(m: Script, ghost s: Source)
      requires Is(s)
      modifies this`meta, Owned()
      ensures Is(Apply(s, Metadata(m)))
    {
      hide Fed, Apply, Corrector.View, MessageQueue.View, GopCache.View, Hub.PlayersAre, AllFed;
      meta := Some(m);
      FanOut(m, s.consumers);
      MediaPlayers(s, Metadata(m), m);
      MetadataCaches(s, m);
    }

    /** Fan-out first, then the header cache, then the GOP cache; headers stay out of the latter. */
    method OnAudio(m: Av, ghost s: Source)
      requires Is(s) && m.kind == Audio
      modifies this`audio, gop, Owned()
      ensures Is(Apply(s, Media(m)))
    {
      hide Fed, Cached, Apply, OnMedia, Msg.IsAudioHeader, Msg.IsVideoHeader, Corrector.View, MessageQueue.View,
           GopCache.View, Hub.PlayersAre, AllFed;
      FanOut(m, s.consumers);
      MediaPlayers(s, Media(m), m);
      MediaCaches(s, m);
      if m.IsAudioHeader() || audio.None? { audio := Some(m); }
      if !m.IsAudioHeader() { gop.Cache(m); }
    }

    method OnVideo(m: Av, ghost s: Source)
      requires Is(s) && m.kind == Video
      modifies this`video, gop, Owned()
      ensures Is(Apply(s, Media(m)))
    {
      hide Fed, Cached, Apply, OnMedia, Msg.IsAudioHeader, Msg.IsVideoHeader, Corrector.View, MessageQueue.View,
           GopCache.View, Hub.PlayersAre, AllFed;
      if m.IsVideoHeader() { video := Some(m); }
      FanOut(m, s.consumers);
      MediaPlayers(s, Media(m), m);
      MediaCaches(s, m);
      if !m.IsVideoHeader() { gop.Cache(m); }
    }

    /** Check and claim in one lock section. */
    method OnPublish(hubOk: bool, ghost s: Source) returns (ok: bool)
      requires Is(s)
      modifies this`canPublish, this`active, this`meta, this`audio, this`video
      ensures Is(Apply(s, Publish(hubOk))) && ok == (s.canPublish && hubOk)
    {
      QuietPlayers(s, Publish(hubOk));
      if !canPublish { return false; }
      canPublish := false;
      if !hubOk {
        canPublish := true;
        return false;
      }
      active := true;
      meta, audio, video := None, None, None;
      return true;
    }

    method OnUnpublish(ghost s: Source)
      requires Is(s)
      modifies this`canPublish, this`active, gop
      ensures Is(Apply(s, Unpublish))
    {
      QuietPlayers(s, Unpublish);
      if canPublish { return; }
      active := false;
      gop.Clear();
      canPublish := true;
    }

    method CreateConsumer(id: nat, ghost s: Source) returns (c: LiveConsumer)
      requires Is(s) && id !in Ids()
      modifies this`consumers
      ensures Is(Apply(s, Create(id))) && fresh(c) && fresh(c.jitter) && fresh(c.queue) && c.id == id
              && consumers == old(consumers) + [c]
    {
      hide Apply, Corrector.View, MessageQueue.View, GopCache.View;
      QuietPlayers(s, Create(id));
      c := new LiveConsumer(id);
      consumers := consumers + [c];
      assert Ids() == old(Ids()) + {id} by {
        assert consumers[|old(consumers)|].id == id;
        assert forall i :: 0 <= i < |old(consumers)| ==> consumers[i] == old(consumers[i]);
      }
    }

    /** Metadata, audio header, video header, cached media: only while the stream is live. */
    method ConsumerDumps(k: nat, ds: bool, dm: bool, dg: bool, limit: int, ghost s: Source)
      requires Is(s) && k < |consumers|
      modifies consumers[k].jitter, consumers[k].queue
      ensures Is(Apply(s, Dumps(consumers[k].id, ds, dm, dg, limit)))
    {
      hide Primed, Apply, Hub.PlayersAre;
      assert consumers[k].id in s.consumers by { KnownPlayer(k, s.consumers); }
      DumpPlayers(s, Dumps(consumers[k].id, ds, dm, dg, limit), consumers[k].id);
      Prime(k, Collect(ds, dm, dg), limit, s.consumers);
    }

    lemma KnownPlayer(k: nat, players: map<nat, Consumer>)
      requires PlayersAre(players) && k < |consumers|
      ensures consumers[k].id in players
    {
    }

    /** One player gets its limit and its first messages. */
    method Prime(k: nat, ms: seq<Msg>, limit: int, ghost players: map<nat, Consumer>)
      requires Apart() && PlayersAre(players) && k < |consumers|
      modifies consumers[k].jitter, consumers[k].queue
      ensures consumers[k].id in players && PlayersAre(Primed(players, consumers[k].id, ms, limit, ag))
    {
      hide FedAll, Corrector.View, MessageQueue.View;
      KnownPlayer(k, players);
      var c := consumers[k];
      c.SetQueueSize(limit);
      c.EnqueueAll(ms, ag);
    }

    /** The destructor of a player takes it off the list; a player no longer listed changes nothing. */
    method OnConsumerDestroy(id: nat, ghost s: Source)
      requires Is(s)
      modifies this`consumers
      ensures Is(Apply(s, Destroy(id)))
    {
      hide Apply, Corrector.View, MessageQueue.View, GopCache.View, ApartIn, Without;
      DestroyPlayers(s, id);
      var k := 0;
      while k < |consumers| && consumers[k].id != id
        invariant k <= |consumers| && forall i :: 0 <= i < k ==> consumers[i].id != id
      {
        k := k + 1;
      }
      if k == |consumers| {
        NotListed(consumers, id);
        return;
      }
      WithoutOne(consumers, k);
      consumers := Without(consumers, k);
    }

    method SetCache(enabled: bool, ghost s: Source)
      requires Is(s)
      modifies gop
      ensures Is(Apply(s, Step.SetCache(enabled)))
    {
      hide SetEnabled, ApartIn, Corrector.View, MessageQueue.View;
      QuietPlayers(s, Step.SetCache(enabled));
      gop.Set(enabled);
    }

    method SetMaxFrames(frames: int, ghost s: Source)
      requires Is(s)
      modifies gop
      ensures Is(Apply(s, Step.SetMaxFrames(frames)))
    {
      hide ApartIn, Corrector.View, MessageQueue.View;
      QuietPlayers(s, Step.SetMaxFrames(frames));
      gop.SetLimit(frames);
    }

    /** A player's own thread takes messages from its queue. */
    method Pump(k: nat, max: nat, ghost s: Source) returns (out: seq<Msg>)
      requires Is(s) && k < |consumers| && max > 0
      modifies consumers[k].queue
      ensures Is(Apply(s, Step.Take(consumers[k].id, max)))
      ensures consumers[k].id in s.consumers && out == Taken(s.consumers[consumers[k].id].queue, max).1
    {
      hide Apply, Corrector.View, MessageQueue.View, GopCache.View, Taken;
      KnownPlayer(k, s.consumers);
      TakePlayers(s, consumers[k].id, max);
      out := consumers[k].DumpPackets(max);
    }

    function Collect(ds: bool, dm: bool, dg: bool): seq<Msg>
      reads this, gop
    {
      if !active then []
      else (if dm then Opt(meta) else []) + (if ds then Opt(audio) + Opt(video) else []) + (if dg then gop.msgs else [])
    }
  }

  // ----- what a step does to the players

  function AllFed(players: map<nat, Consumer>, m: Msg, ag: Algorithm): map<nat, Consumer> {
    map id | id in players :: Fed(players[id], m, ag)
  }

  lemma MediaPlayers(s: Source, step: Step, m: Msg)
    requires Carried(step) == [m]
    ensures Apply(s, step).consumers == AllFed(s.consumers, m, s.ag)
  {
    hide Fed, Caches;
    forall id | id in s.consumers ensures Moved(s, step, id, s.consumers[id]) == Fed(s.consumers[id], m, s.ag) {
      FedOne(s.consumers[id], m, s.ag);
    }
  }

  lemma MediaCaches(s: Source, m: Av)
    ensures var r := Apply(s, Media(m));
            && r.(consumers := s.consumers, gop := s.gop, audio := s.audio, video := s.video) == s
            && r.video == (if m.IsVideoHeader() then Some(m) else s.video)
            && (m.kind == Audio ==> r.audio == (if m.IsAudioHeader() || s.audio.None? then Some(m) else s.audio))
            && (m.kind == Video ==>
                  r.audio == s.audio && r.gop == if m.IsVideoHeader() then s.gop else Cached(s.gop, m))
            && (m.kind == Audio ==>
                  !m.IsVideoHeader() && r.gop == if m.IsAudioHeader() then s.gop else Cached(s.gop, m))
  {
    hide Players, Cached;
  }

  lemma MetadataCaches(s: Source, m: Script)
    ensures Apply(s, Metadata(m)).(consumers := s.consumers) == s.(meta := Some(m))
  {
    hide Players;
  }

  lemma FedOne(c: Consumer, m: Msg, ag: Algorithm)
    ensures FedAll(c, [m], ag) == Fed(c, m, ag)
  {
    hide Fed;
    assert [m][1..] == [];
  }

  lemma QuietPlayers(s: Source, step: Step)
    requires step.Publish? || step.Unpublish? || step.Create? || step.SetCache? || step.SetMaxFrames?
    ensures Apply(s, step).consumers == if step.Create? && step.id !in s.consumers then s.consumers[step.id := NEW]
            else s.consumers
    ensures step.Create? ==> Apply(s, step).(consumers := s.consumers) == s
  {
  }

  lemma DestroyPlayers(s: Source, id: nat)
    ensures Apply(s, Destroy(id)) == s.(consumers := s.consumers - {id})
  {
  }

  lemma TakePlayers(s: Source, id: nat, max: nat)
    requires id in s.consumers && max > 0
    ensures var c := s.consumers[id];
            Apply(s, Step.Take(id, max)) == s.(consumers := s.consumers[id := c.(queue := Taken(c.queue, max).0)])
  {
    hide Taken;
  }

  function Primed(players: map<nat, Consumer>, id: nat, ms: seq<Msg>, limit: int, ag: Algorithm): map<nat, Consumer>
    requires id in players
  {
    var c := players[id];
    players[id := FedAll(c.(queue := c.queue.(limit := limit)), ms, ag)]
  }

  lemma DumpPlayers(s: Source, step: Step, id: nat)
    requires step.Dumps? && step.id == id && id in s.consumers
    ensures Apply(s, step) == s.(consumers := Primed(s.consumers, id, Prefill(s, step.ds, step.dm, step.dg),
            step.limit, s.ag))
  {
    hide Prefill, FedAll;
  }
}
