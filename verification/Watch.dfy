/**
 internal/topology/broadcast.go and the Watch stream of internal/grpcapi/server.go. Notifications are lossy; the stream
 stays correct because every event is rebuilt from the store.
 */
module Watch {
  import opened Common
  import opened Table
  import opened Topology
  import opened Transactions
  import opened Lifecycle
  import opened Runs

  /** A non-blocking send on a channel of capacity one. */
  function Offer(buffer: seq<int>, v: int): (r: seq<int>)
    ensures |buffer| <= 1 ==> |r| == 1
    ensures |buffer| == 1 ==> r == buffer
  {
    if |buffer| == 0 then [v] else buffer
  }

  /** The broadcaster: the last version, the buffer of every subscriber's channel, and the channels closed so far. */
  class Broadcast {
    var version: int
    var subs: map<int, seq<int>>
    var closed: set<int>
    var nextChannel: int

    /** No subscriber's channel is closed, so a send never meets a closed channel and none is closed twice. */
    ghost predicate Valid()
      reads this
    {
      && (forall c :: c in subs ==> |subs[c]| <= 1)
      && nextChannel >= 0 && (forall c :: c in subs ==> 0 <= c < nextChannel)
      && (forall c :: c in closed ==> c !in subs && 0 <= c < nextChannel)
    }

    constructor ()
      ensures Valid() && subs == map[] && closed == {} && version == 0
    {
      version, subs, closed, nextChannel := 0, map[], {}, 0;
    }

    /** Offers the version to every subscriber, independently of the others. */
    method Notify(v: int)
      requires Valid()
      modifies `version, `subs
      ensures Valid() && version == v
      ensures subs.Keys == old(subs).Keys
      ensures forall c :: c in subs ==> subs[c] == Offer(old(subs)[c], v)
    {
      version := v;
      for c := 0 to nextChannel
        invariant version == v && subs.Keys == old(subs).Keys
        invariant forall d :: d in subs ==> subs[d] == if d < c then Offer(old(subs)[d], v) else old(subs)[d]
      {
        if c in subs && |subs[c]| == 0 {
          subs := subs[c := [v]];
        }
      }
    }

    method Subscribe() returns (channel: int, current: int)
      requires Valid()
      modifies `subs, `nextChannel
      ensures Valid() && channel !in old(subs) && subs == old(subs)[channel := []]
      ensures current == version
    {
      channel := nextChannel;
      nextChannel := nextChannel + 1;
      subs := subs[channel := []];
      current := version;
    }

    /** Removes and closes the channel. */
    method Unsubscribe(channel: int)
      requires Valid() && channel in subs
      modifies `subs, `closed
      ensures Valid() && subs == old(subs) - {channel} && closed == old(closed) + {channel}
    {
      subs := subs - {channel};
      closed := closed + {channel};
    }

    /** The receiving end: takes the buffered version, if there is one. */
    method Receive(channel: int) returns (v: Option<int>)
      requires Valid() && channel in subs
      modifies `subs
      ensures Valid() && subs == old(subs)[channel := []]
      ensures v == if |old(subs)[channel]| == 0 then None else Some(old(subs)[channel][0])
    {
      if |subs[channel]| == 0 {
        assert subs[channel] == [];
        return None;
      }
      v := Some(subs[channel][0]);
      subs := subs[channel := []];
    }
  }

  // ---- one Watch stream among notifiers and store steps ------------------------------------------------------

  /** An event on the stream; `builtAt` is the position in the history its shard list was read from. */
  datatype StreamEvent = StreamEvent(topology: TopologyMessage, builtAt: nat)

  /** `received` is the notification being served, None for the initial build. */
  datatype Pc =
    | Building(received: Option<int>)
    | HasVersion(received: Option<int>, version: int)
    | HasConfig(received: Option<int>, version: int, config: Option<ClusterConfig>)
    | HasShards(received: Option<int>, version: int, config: Option<ClusterConfig>, shards: seq<ProtoShard>,
        builtAt: nat)
    | Waiting

  /**
   The states of the store so far, the versions read but not yet broadcast, the stream's channel, its position, the
   versions broadcast since it subscribed, the version the client knows, and the events sent.
   */
  datatype System = System(
    history: seq<Db>, pending: multiset<int>, buffer: seq<int>, pc: Pc,
    notified: set<int>, since: int, known: int, events: seq<StreamEvent>)

  datatype Action =
    | StoreStep(call: Call, now: int)
    | ReadToNotify
    | Notify(v: int)
    | Receive
    | ReadVersion
    | ReadConfig
    | ReadShards
    | Send

  function Current(s: System): Db
    requires |s.history| > 0
  {
    s.history[|s.history| - 1]
  }

  function ConfigOf(db: Db): Option<ClusterConfig> {
    if db.config.Some? then Some(db.config.value.config) else None
  }

  predicate Enabled(s: System, a: Action)
    requires |s.history| > 0
  {
    match a
    case StoreStep(_, _) => true
    case ReadToNotify => Current(s).config.Some?
    case Notify(v) => v in s.pending
    case Receive => s.pc.Waiting? && |s.buffer| > 0
    case ReadVersion => s.pc.Building?
    case ReadConfig => s.pc.HasVersion?
    case ReadShards => s.pc.HasConfig?
    case Send => s.pc.HasShards?
  }

  /** The version an event announces: never below the notification it answers. */
  function Announced(received: Option<int>, version: int): int {
    if received.Some? && version < received.value then received.value else version
  }

  /** The initial build is not sent to a client that already knows its version. */
  predicate Skips(s: System)
    requires s.pc.HasShards?
  {
    s.pc.received.None? && s.since > 0 && s.pc.version <= s.since
  }

  function Next(s: System, a: Action): System
    requires |s.history| > 0 && Enabled(s, a)
  {
    match a
    case StoreStep(call, now) => s.(history := s.history + [Exec(Current(s), call, now).db])
    case ReadToNotify => s.(pending := s.pending + multiset{Version(Current(s))})
    case Notify(v) => s.(pending := s.pending - multiset{v}, buffer := Offer(s.buffer, v), notified := s.notified + {v})
    case Receive => s.(buffer := s.buffer[1..], pc := Building(Some(s.buffer[0])))
    case ReadVersion => s.(pc := HasVersion(s.pc.received, Version(Current(s))))
    case ReadConfig => s.(pc := HasConfig(s.pc.received, s.pc.version, ConfigOf(Current(s))))
    case ReadShards =>
      s.(pc := HasShards(s.pc.received, s.pc.version, s.pc.config, ToProtos(Current(s).shards), |s.history| - 1))
    case Send =>
      if Skips(s) then s.(pc := Waiting)
      else
        var v := Announced(s.pc.received, s.pc.version);
        s.(pc := Waiting, known := v,
            events := s.events + [StreamEvent(TopologyMessage(v, s.pc.config, s.pc.shards), s.pc.builtAt)])
  }

  // ---- invariant ------------------------------------------------------------------------------------------

  predicate Past(s: System, v: int)
    requires |s.history| > 0
  {
    v <= Version(Current(s))
  }

  /** An earlier state is no newer than the current one, and equally new only with equal routes. */
  predicate OlderThan(db: Db, current: Db) {
    && Version(db) <= Version(current)
    && (Version(db) == Version(current) >= 1 ==> Routes(db) == Routes(current))
  }

  predicate HistoryOk(s: System) {
    && |s.history| > 0 && Inv(Current(s))
    && forall h :: 0 <= h < |s.history| ==> OlderThan(s.history[h], Current(s))
  }

  /** The list was read from a state at least as new as the version. */
  predicate ListCurrent(s: System, version: int, shards: seq<ProtoShard>, at: nat) {
    at < |s.history| && shards == ToProtos(s.history[at].shards) && version <= Version(s.history[at])
  }

  /** A config read after a bootstrapped version is the stored one, for good. */
  predicate ConfigFits(s: System, version: int, config: Option<ClusterConfig>)
    requires |s.history| > 0
  {
    version >= 1 ==> Current(s).config.Some? && config == ConfigOf(Current(s))
  }

  /** A version read by the stream covers the notification it serves and every event sent before. */
  predicate Covers(s: System, received: Option<int>, version: int)
    requires |s.history| > 0
  {
    && Past(s, version)
    && (received.Some? ==> received.value <= version)
    && (received.None? ==> Silent(s))
    && (|s.events| > 0 ==> s.events[|s.events| - 1].topology.version <= version)
  }

  /** During the initial build nothing was sent yet. */
  predicate Silent(s: System) {
    s.events == [] && s.known == s.since
  }

  predicate PcOk(s: System)
    requires |s.history| > 0
  {
    match s.pc
    case Building(received) => if received.Some? then Past(s, received.value) else Silent(s)
    case HasVersion(received, v) => Covers(s, received, v)
    case HasConfig(received, v, config) => Covers(s, received, v) && ConfigFits(s, v, config)
    case HasShards(received, v, config, shards, at) =>
      Covers(s, received, v) && ConfigFits(s, v, config) && ListCurrent(s, v, shards, at)
    case Waiting => true
  }

  /** Where a broadcast version is accounted for: in the channel, ahead of the next read, read, or known. */
  predicate Accounted(s: System, v: int) {
    || |s.buffer| > 0
    || s.pc.Building?
    || (!s.pc.Building? && !s.pc.Waiting? && v <= s.pc.version)
    || (s.pc.Waiting? && v <= s.known)
  }

  predicate EventOk(s: System, e: StreamEvent)
    requires |s.history| > 0
  {
    ListCurrent(s, e.topology.version, e.topology.shards, e.builtAt)
        && ConfigFits(s, e.topology.version, e.topology.config)
  }

  predicate EventsOk(s: System)
    requires |s.history| > 0
  {
    && (forall i :: 0 <= i < |s.events| ==> EventOk(s, s.events[i]))
    && (forall i, j :: 0 <= i < j < |s.events| ==> s.events[i].topology.version <= s.events[j].topology.version)
    && (|s.events| > 0 ==> s.known == s.events[|s.events| - 1].topology.version && Past(s, s.known))
  }

  predicate StreamInv(s: System) {
    && HistoryOk(s)
    && (forall v :: v in s.pending ==> Past(s, v))
    && |s.buffer| <= 1 && (|s.buffer| == 1 ==> Past(s, s.buffer[0]))
    && PcOk(s) && EventsOk(s)
    && (forall v :: v in s.notified ==> Past(s, v) && Accounted(s, v))
  }

  // ---- store steps -------------------------------------------------------------------------------------------

  lemma OlderThanStep(db: Db, current: Db, call: Call, now: int)
    requires Inv(current) && OlderThan(db, current)
    ensures OlderThan(db, Exec(current, call, now).db)
    ensures OlderThan(Exec(current, call, now).db, Exec(current, call, now).db)
  {
    hide Exec, Routes;
    VersionStep(current, call, now);
  }

  lemma BootstrappedVersion(db: Db)
    requires Inv(db)
    ensures Version(db) >= 1 <==> db.config.Some?
  {
  }

  /** What a store step does to the facts about the current state. */
  lemma StoreStepFacts(s: System, call: Call, now: int)
    requires HistoryOk(s)
    ensures HistoryOk(Next(s, StoreStep(call, now)))
    ensures forall v :: Past(s, v) ==> Past(Next(s, StoreStep(call, now)), v)
    ensures forall v, c :: v <= Version(Current(s)) && ConfigFits(s, v, c) ==>
            ConfigFits(Next(s, StoreStep(call, now)), v, c)
    ensures forall v, shards, at :: ListCurrent(s, v, shards, at) ==>
            ListCurrent(Next(s, StoreStep(call, now)), v, shards, at)
  {
    hide Exec, Inv, Version, Routes, ToProtos;
    var t := Next(s, StoreStep(call, now));
    StepRefines(Current(s), call, now);
    VersionStep(Current(s), call, now);
    assert Current(t) == Exec(Current(s), call, now).db;
    forall h | 0 <= h < |t.history|
      ensures OlderThan(t.history[h], Current(t))
    {
      OlderThanStep(if h < |s.history| then s.history[h] else Current(s), Current(s), call, now);
    }
    hide RowsStep, OlderThan;
  }

  lemma StoreStepKeeps(s: System, call: Call, now: int)
    requires StreamInv(s)
    ensures StreamInv(Next(s, StoreStep(call, now)))
  {
    hide Exec, Inv, Routes, ToProtos, Version, OlderThan, ListCurrent, ConfigFits;
    StoreStepFacts(s, call, now);
    var t := Next(s, StoreStep(call, now));
    assert forall i :: 0 <= i < |s.events| ==> EventOk(s, s.events[i]);
    hide HistoryOk, Past;
    forall i | 0 <= i < |t.events|
      ensures EventOk(t, t.events[i])
    {
      EventPast(s, i);
    }
  }

  lemma EventPast(s: System, i: nat)
    requires HistoryOk(s) && EventsOk(s) && i < |s.events|
    ensures EventOk(s, s.events[i]) && Past(s, s.events[i].topology.version)
  {
    var e := s.events[i];
    assert EventOk(s, e);
    assert OlderThan(s.history[e.builtAt], Current(s));
    hide Inv, Routes, ToProtos;
  }

  // ---- the other steps -----------------------------------------------------------------------------------------

  /** Steps that neither change the store nor send an event leave the events sound. */
  lemma SameEvents(s: System, t: System)
    requires HistoryOk(s) && EventsOk(s) && t.history == s.history && t.events == s.events && t.known == s.known
    ensures HistoryOk(t) && EventsOk(t)
  {
    hide Inv, Routes, ToProtos, Version;
    forall i | 0 <= i < |t.events|
      ensures EventOk(t, t.events[i])
    {
      assert EventOk(s, s.events[i]);
    }
  }

  lemma ReadToNotifyKeeps(s: System)
    requires StreamInv(s) && Enabled(s, ReadToNotify)
    ensures StreamInv(Next(s, ReadToNotify))
  {
    SameEvents(s, Next(s, ReadToNotify));
    hide EventsOk, HistoryOk, ToProtos, Version;
  }

  lemma SamePc(s: System, t: System)
    requires HistoryOk(s) && PcOk(s) && t.history == s.history
    requires t.pc == s.pc && t.events == s.events && t.known == s.known && t.since == s.since
    ensures PcOk(t)
  {
    hide HistoryOk, ToProtos, Version;
  }

  lemma NotifyKeeps(s: System, v: int)
    requires StreamInv(s) && Enabled(s, Notify(v))
    ensures StreamInv(Next(s, Notify(v)))
  {
    hide Inv, Routes, ToProtos, Version, Exec, OlderThan;
    SameEvents(s, Next(s, Notify(v)));
    SamePc(s, Next(s, Notify(v)));
    hide EventsOk, HistoryOk, PcOk;
  }

  lemma ReceiveKeeps(s: System)
    requires StreamInv(s) && Enabled(s, Receive)
    ensures StreamInv(Next(s, Receive))
  {
    SameEvents(s, Next(s, Receive));
    hide EventsOk, HistoryOk, ToProtos, Version;
  }

  lemma ReadVersionKeeps(s: System)
    requires StreamInv(s) && Enabled(s, ReadVersion)
    ensures StreamInv(Next(s, ReadVersion))
  {
    SameEvents(s, Next(s, ReadVersion));
    hide HistoryOk, ToProtos, Version;
  }

  lemma ReadConfigKeeps(s: System)
    requires StreamInv(s) && Enabled(s, ReadConfig)
    ensures StreamInv(Next(s, ReadConfig))
  {
    SameEvents(s, Next(s, ReadConfig));
    BootstrappedVersion(Current(s));
    hide EventsOk, HistoryOk, ToProtos, Version;
  }

  lemma ReadShardsKeeps(s: System)
    requires StreamInv(s) && Enabled(s, ReadShards)
    ensures StreamInv(Next(s, ReadShards))
  {
    hide Inv, Routes, ToProtos, Version, Exec, OlderThan;
    SameEvents(s, Next(s, ReadShards));
    hide EventsOk, HistoryOk;
  }

  lemma EventAppended(s: System, t: System, e: StreamEvent)
    requires HistoryOk(s) && EventsOk(s) && t.history == s.history && t.events == s.events + [e]
    requires EventOk(s, e) && Past(s, e.topology.version) && t.known == e.topology.version
    requires |s.events| > 0 ==> s.events[|s.events| - 1].topology.version <= e.topology.version
    ensures HistoryOk(t) && EventsOk(t)
  {
    hide Version, ToProtos, Inv, Routes;
    var n := |s.events|;
    forall i | 0 <= i < |t.events|
      ensures EventOk(t, t.events[i])
      ensures t.events[i].topology.version <= e.topology.version
    {
      if i < n {
        assert EventOk(s, s.events[i]);
        assert i < n - 1 ==> s.events[i].topology.version <= s.events[n - 1].topology.version;
      }
    }
  }

  lemma SendKeeps(s: System)
    requires StreamInv(s) && s.pc.HasShards?
    ensures StreamInv(Next(s, Send))
    ensures Announced(s.pc.received, s.pc.version) == s.pc.version
  {
    hide Version, ToProtos;
    if Skips(s) {
      SameEvents(s, Next(s, Send));
    } else {
      EventAppended(s, Next(s, Send),
          StreamEvent(TopologyMessage(s.pc.version, s.pc.config, s.pc.shards), s.pc.builtAt));
    }
    hide EventsOk, HistoryOk;
  }

  lemma StreamStep(s: System, a: Action)
    requires StreamInv(s) && Enabled(s, a)
    ensures StreamInv(Next(s, a))
  {
    hide StreamInv, Next;
    match a
    case StoreStep(call, now) => StoreStepKeeps(s, call, now);
    case ReadToNotify => ReadToNotifyKeeps(s);
    case Notify(v) => NotifyKeeps(s, v);
    case Receive => ReceiveKeeps(s);
    case ReadVersion => ReadVersionKeeps(s);
    case ReadConfig => ReadConfigKeeps(s);
    case ReadShards => ReadShardsKeeps(s);
    case Send => SendKeeps(s);
  }

  // ---- whole traces -------------------------------------------------------------------------------------------

  /** A stream subscribes after some run of the store; notifiers may already hold versions they read. */
  ghost predicate Initial(s: System, before: Run) {
    && before.FromEmpty() && s.history == before.states
    && (forall v :: v in s.pending ==> v <= Version(before.states[|before.states| - 1]))
    && s.buffer == [] && s.pc == Building(None)
    && s.notified == {} && s.known == s.since && s.events == []
  }

  datatype Trace = Trace(before: Run, states: seq<System>, actions: seq<Action>) {
    ghost predicate Valid() {
      && |states| == |actions| + 1
      && Initial(states[0], before)
      && forall i :: 0 <= i < |actions| ==>
           |states[i].history| > 0 && Enabled(states[i], actions[i]) && states[i + 1] == Next(states[i], actions[i])
    }
  }

  lemma InitialInv(s: System, before: Run)
    requires Initial(s, before)
    ensures StreamInv(s)
  {
    hide Exec, Routes;
    var n := |before.states| - 1;
    AlwaysInv(before, n);
    forall h | 0 <= h < |s.history|
      ensures OlderThan(s.history[h], Current(s))
    {
      VersionsAscend(before, h, n);
      AlwaysInv(before, h);
      BootstrappedVersion(before.states[h]);
      if Version(before.states[h]) == Version(before.states[n]) >= 1 {
        VersionIsCacheKey(before, h, n);
      }
    }
    hide Inv;
  }

  lemma {:induction false} StreamInvAlways(t: Trace, i: nat)
    requires t.Valid() && i < |t.states|
    ensures StreamInv(t.states[i])
  {
    hide StreamInv, Next, Enabled;
    if i == 0 {
      InitialInv(t.states[0], t.before);
    } else {
      StreamInvAlways(t, i - 1);
      StreamStep(t.states[i - 1], t.actions[i - 1]);
    }
  }

  /** Lossy but convergent: an idle stream with an empty channel knows every version broadcast since it subscribed. */
  lemma StreamConverges(t: Trace, i: nat, v: int)
    requires t.Valid() && i < |t.states|
    requires t.states[i].pc.Waiting? && t.states[i].buffer == [] && v in t.states[i].notified
    ensures v <= t.states[i].known
  {
    hide Next, Enabled;
    StreamInvAlways(t, i);
    assert Accounted(t.states[i], v);
  }

  /** Every event lists the shards of a store state at least as new as the version it announces. */
  lemma EventsAreCurrent(t: Trace, i: nat, e: nat)
    requires t.Valid() && i < |t.states| && e < |t.states[i].events|
    ensures var s := t.states[i]; var event := s.events[e];
            && event.builtAt < |s.history|
            && event.topology.shards == ToProtos(s.history[event.builtAt].shards)
            && event.topology.version <= Version(s.history[event.builtAt])
  {
    hide Next, Enabled;
    StreamInvAlways(t, i);
    assert EventOk(t.states[i], t.states[i].events[e]);
    hide StreamInv;
  }

  /** Versions on one stream never decrease. */
  lemma VersionsNeverDecrease(t: Trace, i: nat, d: nat, e: nat)
    requires t.Valid() && i < |t.states| && d < e < |t.states[i].events|
    ensures t.states[i].events[d].topology.version <= t.states[i].events[e].topology.version
  {
    hide Next, Enabled;
    StreamInvAlways(t, i);
  }

  /** The stream never has to raise a version to the notified one: what it reads is already at least that. */
  lemma AnnouncedIsRead(t: Trace, i: nat)
    requires t.Valid() && i < |t.states| && t.states[i].pc.HasShards?
    ensures Announced(t.states[i].pc.received, t.states[i].pc.version) == t.states[i].pc.version
  {
    hide Next, Enabled;
    StreamInvAlways(t, i);
  }

  /** What the stream takes the client to know is what it sent last, or what the client said it had. */
  lemma {:induction false} KnownIsSent(t: Trace, i: nat)
    requires t.Valid() && i < |t.states|
    ensures var s := t.states[i];
            s.known == if |s.events| == 0 then s.since else s.events[|s.events| - 1].topology.version
    ensures t.states[i].since == t.states[0].since
  {
    hide Exec, Version, ToProtos, Routes;
    if i > 0 {
      KnownIsSent(t, i - 1);
      assert t.states[i] == Next(t.states[i - 1], t.actions[i - 1]);
    }
  }

  /** A build is sent, unless it is the first one and the client already has that version or a later one. */
  lemma SentExactly(s: System)
    requires |s.history| > 0 && Enabled(s, Send)
    ensures |Next(s, Send).events|
            == |s.events| + (if s.pc.received.None? && 0 < s.since && s.pc.version <= s.since then 0 else 1)
  {
  }

  /** With nothing in between, a build sends the topology of the store as it is. */
  lemma BuildAlone(s: System)
    requires |s.history| > 0 && s.pc.Building?
    requires s.pc.received.Some? ==> s.pc.received.value <= Version(Current(s))
    requires s.pc.received.None? ==> s.since < Version(Current(s)) || s.since <= 0
    ensures var s1 := Next(s, ReadVersion);
            var s2 := Next(s1, ReadConfig);
            var s3 := Next(s2, ReadShards);
            var s4 := Next(s3, Send);
            && s4.pc.Waiting? && |s4.events| == |s.events| + 1
            && s4.events[|s.events|].topology == TopologyOf(Current(s)) && s4.history == s.history
  {
    hide ToProtos, Version;
  }

  /** With nothing in between, a version that is read and broadcast reaches an idle stream, which starts to build. */
  lemma NotifyAlone(s: System)
    requires |s.history| > 0 && s.pc.Waiting? && s.buffer == [] && Current(s).config.Some?
    ensures var v := Version(Current(s));
            var s1 := Next(s, ReadToNotify);
            Enabled(s1, Notify(v)) && var s2 := Next(s1, Notify(v));
            && s2.notified == s.notified + {v} && s2.pending == s.pending && s2.buffer == [v]
            && Enabled(s2, Receive) && var s3 := Next(s2, Receive);
            s3.pc == Building(Some(v)) && s3.buffer == [] && s3.notified == s2.notified && s3.history == s.history
  {
    var v := Version(Current(s));
    assert s.pending + multiset{v} - multiset{v} == s.pending;
    hide Version;
  }

  /**
   Once the store's latest version has been broadcast and the stream is idle with an empty channel, a client that did
   not have this version when it subscribed has been sent it: the last event is exactly the topology of the store as it
   is now.
   */
  lemma QuietStreamIsExact(t: Trace, i: nat)
    requires t.Valid() && i < |t.states|
    requires t.states[i].pc.Waiting? && t.states[i].buffer == []
    requires |t.states[i].history| > 0 && Current(t.states[i]).config.Some?
    requires Version(Current(t.states[i])) in t.states[i].notified
    requires |t.states[i].events| > 0 || t.states[i].since < Version(Current(t.states[i]))
    ensures |t.states[i].events| > 0
    ensures t.states[i].events[|t.states[i].events| - 1].topology == TopologyOf(Current(t.states[i]))
  {
    hide Next, Enabled, ToProtos, Routes;
    StreamInvAlways(t, i);
    StreamConverges(t, i, Version(Current(t.states[i])));
    KnownIsSent(t, i);
    var s := t.states[i];
    var e := s.events[|s.events| - 1];
    EventPast(s, |s.events| - 1);
    assert OlderThan(s.history[e.builtAt], Current(s));
    BootstrappedVersion(Current(s));
    ProtosFollowRoutes(s.history[e.builtAt], Current(s));
    hide Inv, StreamInv;
  }
}
