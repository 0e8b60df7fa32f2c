/**
 The realtime hub: every API instance registers its sockets per case or tenant, Redis fans each published message out
 to the queue of every listening instance, and each instance delivers its queue one message at a time, to a snapshot
 of the sockets registered at that moment. The state machine interleaves the instances freely.
 */
module RealtimeHub {
  import opened Wrappers

  type Socket = nat
  type Instance = nat

  /** What a socket subscribes to. */
  datatype Topic = CaseTopic(id: string) | TenantTopic(id: string)

  // ---------- Channel names ----------

  function Channel(t: Topic): string {
    match t
    case CaseTopic(id) => "case:" + id
    case TenantTopic(id) => "tenant:" + id
  }

  /** `channel.split(":", 1)[1]`, the part after the first colon. */
  function AfterColon(s: string): string {
    if s == "" then "" else if s[0] == ':' then s[1..] else AfterColon(s[1..])
  }

  predicate StartsWith(s: string, prefix: string) {
    |prefix| <= |s| && s[..|prefix|] == prefix
  }

  /** How `_deliver` reads a channel name. */
  function ParseChannel(channel: string): Option<Topic> {
    if StartsWith(channel, "case:") then Some(CaseTopic(AfterColon(channel)))
    else if StartsWith(channel, "tenant:") then Some(TenantTopic(AfterColon(channel)))
    else None
  }

  lemma {:induction false} AfterFirstColon(prefix: string, id: string)
    requires ':' !in prefix
    ensures AfterColon(prefix + ":" + id) == id
    decreases |prefix|
  {
    var s := prefix + ":" + id;
    if prefix == "" {
      assert s[0] == ':' && s[1..] == id;
    } else {
      assert s[0] == prefix[0] && prefix[0] in prefix;
      assert s[1..] == prefix[1..] + ":" + id;
      AfterFirstColon(prefix[1..], id);
    }
  }

  /** The name of a channel is read back as the topic it was made from, whatever characters the id has. */
  lemma ChannelRoundTrip(t: Topic)
    ensures ParseChannel(Channel(t)) == Some(t)
  {
    match t
    case CaseTopic(id) =>
      assert "case:" + id == "case" + ":" + id;
      AfterFirstColon("case", id);
    case TenantTopic(id) =>
      assert "tenant:" + id == "tenant" + ":" + id;
      assert Channel(t)[0] == 't';
      AfterFirstColon("tenant", id);
  }

  // ---------- Connection maps ----------

  type Connections = map<string, set<Socket>>

  function At(m: Connections, id: string): set<Socket> {
    if id in m then m[id] else {}
  }

  function Added(m: Connections, id: string, s: Socket): Connections {
    m[id := At(m, id) + {s}]
  }

  function Dropped(m: Connections, id: string, s: Socket): Connections {
    if At(m, id) - {s} == {} then m - {id} else m[id := At(m, id) - {s}]
  }

  ghost predicate NoEmptySet(m: Connections) {
    forall id :: id in m ==> m[id] != {}
  }

  class WebSocketHub {
    var caseConnections: Connections
    var tenantConnections: Connections

    method ConnectCase(socket: Socket, caseId: string)
      modifies this`caseConnections
      ensures caseConnections == Added(old(caseConnections), caseId, socket)
      ensures old(NoEmptySet(caseConnections)) ==> NoEmptySet(caseConnections)
    {
      if caseId !in caseConnections {
        caseConnections := caseConnections[caseId := {}];
      }
      caseConnections := caseConnections[caseId := caseConnections[caseId] + {socket}];
    }

    /** The default dictionary creates the entry before the socket is discarded, so the entry is removed again. */
    method DisconnectCase(socket: Socket, caseId: string)
      modifies this`caseConnections
      ensures caseConnections == Dropped(old(caseConnections), caseId, socket)
      ensures old(NoEmptySet(caseConnections)) ==> NoEmptySet(caseConnections)
    {
      if caseId !in caseConnections {
        caseConnections := caseConnections[caseId := {}];
      }
      caseConnections := caseConnections[caseId := caseConnections[caseId] - {socket}];
      if caseConnections[caseId] == {} {
        caseConnections := caseConnections - {caseId};
      }
    }

    method ConnectTenant(socket: Socket, tenantId: string)
      modifies this`tenantConnections
      ensures tenantConnections == Added(old(tenantConnections), tenantId, socket)
      ensures old(NoEmptySet(tenantConnections)) ==> NoEmptySet(tenantConnections)
    {
      if tenantId !in tenantConnections {
        tenantConnections := tenantConnections[tenantId := {}];
      }
      tenantConnections := tenantConnections[tenantId := tenantConnections[tenantId] + {socket}];
    }

    method DisconnectTenant(socket: Socket, tenantId: string)
      modifies this`tenantConnections
      ensures tenantConnections == Dropped(old(tenantConnections), tenantId, socket)
      ensures old(NoEmptySet(tenantConnections)) ==> NoEmptySet(tenantConnections)
    {
      if tenantId !in tenantConnections {
        tenantConnections := tenantConnections[tenantId := {}];
      }
      tenantConnections := tenantConnections[tenantId := tenantConnections[tenantId] - {socket}];
      if tenantConnections[tenantId] == {} {
        tenantConnections := tenantConnections - {tenantId};
      }
    }

    /** The sockets registered for the channel while the lock is held. */
    method Snapshot(channel: string) returns (targets: set<Socket>)
      ensures targets == Targets(caseConnections, tenantConnections, channel)
    {
      targets := {};
      match ParseChannel(channel) {
        case Some(CaseTopic(id)) =>
          if id in caseConnections { targets := caseConnections[id]; }
        case Some(TenantTopic(id)) =>
          if id in tenantConnections { targets := tenantConnections[id]; }
        case None =>
      }
    }

    /** Sends to each socket of the snapshot; a failing send is suppressed and does not stop the others. */
    method Deliver(channel: string, working: set<Socket>) returns (sent: set<Socket>)
      ensures sent == Targets(caseConnections, tenantConnections, channel) * working
    {
      var connections := Snapshot(channel);
      ghost var targets := connections;
      sent := {};
      while connections != {}
        invariant connections <= targets
        invariant sent == (targets - connections) * working
        decreases |connections|
      {
        var s :| s in connections;
        if s in working {
          sent := sent + {s};
        }
        connections := connections - {s};
      }
    }
  }

  function Targets(cases: Connections, tenants: Connections, channel: string): set<Socket> {
    match ParseChannel(channel)
    case Some(CaseTopic(id)) => At(cases, id)
    case Some(TenantTopic(id)) => At(tenants, id)
    case None => {}
  }

  // ---------- The protocol ----------

  /** The message of index `message` on its way to the sockets in `targets`. */
  datatype Delivery = Idle | Sending(message: nat, targets: set<Socket>)

  /** One API instance. `inbox` holds the indices of the messages Redis has queued for its listener; `cursor` is the
      first message the listener has not taken up yet. */
  datatype Hub = Hub(cases: Connections, tenants: Connections, listening: bool, inbox: seq<nat>, delivery: Delivery, cursor: nat)

  datatype Home = Home(hub: Instance, topic: Topic)

  /** `log` lists the channels of all messages ever published, in order. `received` is what each socket was sent.
      `clean` maps the sockets with an uninterrupted connection to the first message they can expect. */
  datatype State = State(hubs: map<Instance, Hub>, log: seq<string>, home: map<Socket, Home>,
                         received: map<Socket, seq<nat>>, clean: map<Socket, nat>)

  const NEW_HUB := Hub(map[], map[], false, [], Idle, 0)

  datatype Step =
    | StartInstance(hub: Instance)
    | StartListener(hub: Instance)
    | StopListener(hub: Instance)
    | Connect(hub: Instance, socket: Socket, topic: Topic)
    | Disconnect(socket: Socket)
    | Publish(channel: string)
    | TakeUp(hub: Instance)
    | Send(hub: Instance, socket: Socket, works: bool)
    | Finish(hub: Instance)

  predicate Enabled(s: State, step: Step) {
    match step
    case StartInstance(h) => h !in s.hubs
    case StartListener(h) => h in s.hubs && !s.hubs[h].listening
    case StopListener(h) => h in s.hubs && s.hubs[h].listening
    case Connect(h, w, t) => h in s.hubs && w !in s.home
    case Disconnect(w) => w in s.home && s.home[w].hub in s.hubs
    case Publish(_) => true
    case TakeUp(h) => h in s.hubs && s.hubs[h].listening && s.hubs[h].delivery.Idle? && s.hubs[h].inbox != []
    case Send(h, w, _) => h in s.hubs && s.hubs[h].delivery.Sending? && w in s.hubs[h].delivery.targets
    case Finish(h) => h in s.hubs && s.hubs[h].delivery.Sending? && s.hubs[h].delivery.targets == {}
  }

  function WithSocket(hub: Hub, t: Topic, w: Socket): Hub {
    match t
    case CaseTopic(id) => hub.(cases := Added(hub.cases, id, w))
    case TenantTopic(id) => hub.(tenants := Added(hub.tenants, id, w))
  }

  function WithoutSocket(hub: Hub, t: Topic, w: Socket): Hub {
    match t
    case CaseTopic(id) => hub.(cases := Dropped(hub.cases, id, w))
    case TenantTopic(id) => hub.(tenants := Dropped(hub.tenants, id, w))
  }

  /** Redis queues a message for every instance that listens at that moment. */
  function Queued(hubs: map<Instance, Hub>, message: nat): map<Instance, Hub> {
    map h: Instance | h in hubs ::
      if hubs[h].listening then hubs[h].(inbox := hubs[h].inbox + [message]) else hubs[h]
  }

  /** Messages queued for a listener that stops, or half sent, are lost, so its sockets are no longer clean. */
  function Interrupted(s: State, h: Instance): map<Socket, nat> {
    map w: Socket | w in s.clean && w in s.home && s.home[w].hub != h :: s.clean[w]
  }

  function Do(s: State, step: Step): State
    requires Enabled(s, step)
  {
    match step
    case StartInstance(h) => s.(hubs := s.hubs[h := NEW_HUB])
    case StartListener(h) =>
      s.(hubs := s.hubs[h := s.hubs[h].(listening := true, inbox := [], delivery := Idle, cursor := |s.log|)])
    case StopListener(h) =>
      s.(hubs := s.hubs[h := s.hubs[h].(listening := false, inbox := [], delivery := Idle)], clean := Interrupted(s, h))
    case Connect(h, w, t) =>
      s.(hubs := s.hubs[h := WithSocket(s.hubs[h], t, w)],
         home := s.home[w := Home(h, t)],
         received := s.received[w := []],
         clean := if s.hubs[h].listening then s.clean[w := s.hubs[h].cursor] else s.clean - {w})
    case Disconnect(w) =>
      var h := s.home[w].hub;
      s.(hubs := s.hubs[h := WithoutSocket(s.hubs[h], s.home[w].topic, w)], clean := s.clean - {w})
    case Publish(channel) => s.(hubs := Queued(s.hubs, |s.log|), log := s.log + [channel])
    case TakeUp(h) =>
      var hub := s.hubs[h];
      var m := hub.inbox[0];
      var targets := if m < |s.log| then Targets(hub.cases, hub.tenants, s.log[m]) else {};
      s.(hubs := s.hubs[h := hub.(inbox := hub.inbox[1..], delivery := Sending(m, targets), cursor := m + 1)])
    case Send(h, w, works) =>
      var hub := s.hubs[h];
      var m := hub.delivery.message;
      s.(hubs := s.hubs[h := hub.(delivery := Sending(m, hub.delivery.targets - {w}))],
         received := if works && w in s.received then s.received[w := s.received[w] + [m]] else s.received,
         clean := if works then s.clean else s.clean - {w})
    case Finish(h) => s.(hubs := s.hubs[h := s.hubs[h].(delivery := Idle)])
  }

  const START := State(map[], [], map[], map[], map[])

  /** The states of a run from the start; a step that is not enabled does not happen. */
  function Reached(steps: seq<Step>): State {
    if steps == [] then START
    else
      var s := Reached(steps[..|steps| - 1]);
      var step := steps[|steps| - 1];
      if Enabled(s, step) then Do(s, step) else s
  }

  // ---------- What holds in every reachable state ----------

  ghost predicate Registered(cases: Connections, tenants: Connections, t: Topic, w: Socket) {
    match t
    case CaseTopic(id) => w in At(cases, id)
    case TenantTopic(id) => w in At(tenants, id)
  }

  /** The maps of instance `h` hold sockets of its own, under their own topic, and no empty set. */
  ghost predicate MapsInv(cases: Connections, tenants: Connections, home: map<Socket, Home>, h: Instance) {
    && NoEmptySet(cases) && NoEmptySet(tenants)
    && forall w: Socket, t: Topic :: Registered(cases, tenants, t, w) ==> w in home && home[w] == Home(h, t)
  }

  /** A message is only on its way to sockets of its own channel. */
  ghost predicate TargetsInv(delivery: Delivery, log: seq<string>, home: map<Socket, Home>, h: Instance) {
    delivery.Sending? ==>
      && delivery.message < |log|
      && forall w: Socket :: w in delivery.targets ==>
           w in home && home[w].hub == h && ParseChannel(log[delivery.message]) == Some(home[w].topic)
  }

  /** A queue holds every message from the cursor on. */
  ghost predicate QueueInv(hub: Hub, published: nat) {
    && (hub.listening ==> hub.cursor + |hub.inbox| == published)
    && (!hub.listening ==> hub.inbox == [] && hub.delivery.Idle?)
    && (forall k :: 0 <= k < |hub.inbox| ==> hub.inbox[k] == hub.cursor + k)
    && (hub.delivery.Sending? ==> hub.listening && hub.delivery.message + 1 == hub.cursor <= published)
  }

  ghost predicate HubInv(s: State, h: Instance)
    requires h in s.hubs
  {
    && MapsInv(s.hubs[h].cases, s.hubs[h].tenants, s.home, h)
    && QueueInv(s.hubs[h], |s.log|)
    && TargetsInv(s.hubs[h].delivery, s.log, s.home, h)
  }

  /** The messages a socket has got are of its own channel, in publication order, none twice, and already taken up. */
  ghost predicate SocketInv(s: State, w: Socket)
    requires w in s.home
  {
    var home := s.home[w];
    && w in s.received && home.hub in s.hubs
    && (forall i, j :: 0 <= i < j < |s.received[w]| ==> s.received[w][i] < s.received[w][j])
    && (forall i :: 0 <= i < |s.received[w]| ==>
          s.received[w][i] < Horizon(s.hubs[home.hub], w) && s.received[w][i] < |s.log|
          && ParseChannel(s.log[s.received[w][i]]) == Some(home.topic))
    && (w in s.clean ==> CleanInv(s, w))
  }

  /** Messages below the horizon have been settled for the socket: sent, failed, or not meant for it. */
  function Horizon(hub: Hub, w: Socket): nat {
    if hub.delivery.Sending? && w in hub.delivery.targets then hub.delivery.message else hub.cursor
  }

  /** The messages of the topic among the published ones from `lo` up to `hi`. */
  function Own(log: seq<string>, t: Topic, lo: nat, hi: nat): seq<nat>
    requires hi <= |log|
  {
    if hi <= lo then []
    else Own(log, t, lo, hi - 1) + (if ParseChannel(log[hi - 1]) == Some(t) then [hi - 1] else [])
  }

  /** A socket with an uninterrupted connection has missed nothing. */
  ghost predicate CleanInv(s: State, w: Socket)
    requires w in s.home && w in s.received && w in s.clean && s.home[w].hub in s.hubs
  {
    var home := s.home[w];
    var hub := s.hubs[home.hub];
    && hub.listening && Registered(hub.cases, hub.tenants, home.topic, w)
    && s.clean[w] <= Horizon(hub, w) <= |s.log|
    && s.received[w] == Own(s.log, home.topic, s.clean[w], Horizon(hub, w))
  }

  ghost predicate Inv(s: State) {
    && (forall h: Instance :: h in s.hubs ==> HubInv(s, h))
    && (forall w: Socket :: w in s.home ==> SocketInv(s, w))
    && s.clean.Keys <= s.home.Keys
  }

  lemma {:induction false} OwnGrows(log: seq<string>, channel: string, t: Topic, lo: nat, hi: nat)
    requires hi <= |log|
    ensures Own(log + [channel], t, lo, hi) == Own(log, t, lo, hi)
    decreases hi
  {
    if hi > lo { OwnGrows(log, channel, t, lo, hi - 1); }
  }

  // ---------- Every step keeps the invariant ----------

  ghost predicate Extends(home: map<Socket, Home>, home': map<Socket, Home>) {
    forall w: Socket :: w in home ==> w in home' && home'[w] == home[w]
  }

  lemma MapsExtend(cases: Connections, tenants: Connections, home: map<Socket, Home>, home': map<Socket, Home>, h: Instance)
    requires MapsInv(cases, tenants, home, h) && Extends(home, home')
    ensures MapsInv(cases, tenants, home', h)
  {}

  lemma TargetsExtend(delivery: Delivery, log: seq<string>, log': seq<string>, home: map<Socket, Home>,
                      home': map<Socket, Home>, h: Instance)
    requires TargetsInv(delivery, log, home, h) && Extends(home, home')
    requires |log| <= |log'| && log == log'[..|log|]
    ensures TargetsInv(delivery, log', home', h)
  {}

  lemma MapsAdd(hub: Hub, home: map<Socket, Home>, h: Instance, t: Topic, w: Socket)
    requires MapsInv(hub.cases, hub.tenants, home, h) && w in home && home[w] == Home(h, t)
    ensures MapsInv(WithSocket(hub, t, w).cases, WithSocket(hub, t, w).tenants, home, h)
    ensures forall v: Socket, u: Topic :: Registered(hub.cases, hub.tenants, u, v) || (v == w && u == t) <==>
      Registered(WithSocket(hub, t, w).cases, WithSocket(hub, t, w).tenants, u, v)
  {
    var hub' := WithSocket(hub, t, w);
    forall v: Socket, u: Topic
      ensures Registered(hub.cases, hub.tenants, u, v) || (v == w && u == t) <==> Registered(hub'.cases, hub'.tenants, u, v)
    {}
  }

  lemma MapsDrop(hub: Hub, home: map<Socket, Home>, h: Instance, t: Topic, w: Socket)
    requires MapsInv(hub.cases, hub.tenants, home, h)
    ensures MapsInv(WithoutSocket(hub, t, w).cases, WithoutSocket(hub, t, w).tenants, home, h)
    ensures forall v: Socket, u: Topic :: Registered(hub.cases, hub.tenants, u, v) && !(v == w && u == t) <==>
      Registered(WithoutSocket(hub, t, w).cases, WithoutSocket(hub, t, w).tenants, u, v)
  {
    var hub' := WithoutSocket(hub, t, w);
    forall v: Socket, u: Topic
      ensures Registered(hub.cases, hub.tenants, u, v) && !(v == w && u == t) <==> Registered(hub'.cases, hub'.tenants, u, v)
    {}
  }

  /** A registered socket is among the targets exactly when the channel is that of its topic. */
  lemma RegisteredIsTarget(hub: Hub, home: map<Socket, Home>, h: Instance, t: Topic, w: Socket, channel: string)
    requires MapsInv(hub.cases, hub.tenants, home, h)
    ensures w in Targets(hub.cases, hub.tenants, channel) ==>
      w in home && home[w].hub == h && ParseChannel(channel) == Some(home[w].topic)
    ensures Registered(hub.cases, hub.tenants, t, w) && ParseChannel(channel) == Some(t) ==>
      w in Targets(hub.cases, hub.tenants, channel)
  {
    match ParseChannel(channel)
    case None =>
    case Some(u) =>
      if w in Targets(hub.cases, hub.tenants, channel) { assert Registered(hub.cases, hub.tenants, u, w); }
  }

  /** What a step leaves alone. */
  lemma HubFrame(s: State, s': State, h: Instance)
    requires h in s.hubs && HubInv(s, h)
    requires h in s'.hubs && s'.hubs[h] == s.hubs[h] && s'.log == s.log && Extends(s.home, s'.home)
    ensures HubInv(s', h)
  {
    MapsExtend(s.hubs[h].cases, s.hubs[h].tenants, s.home, s'.home, h);
    TargetsExtend(s.hubs[h].delivery, s.log, s'.log, s.home, s'.home, h);
  }

  lemma SocketFrame(s: State, s': State, w: Socket)
    requires w in s.home && SocketInv(s, w)
    requires w in s'.home && s'.home[w] == s.home[w] && s'.log == s.log
    requires s.home[w].hub in s'.hubs && s'.hubs[s.home[w].hub] == s.hubs[s.home[w].hub]
    requires w in s'.received && s'.received[w] == s.received[w]
    requires w in s'.clean ==> w in s.clean && s'.clean[w] == s.clean[w]
    ensures SocketInv(s', w)
  {
  }

  /** The step touches the hub `h` and the sockets living there, and nothing else. */
  ghost predicate OthersKeep(s: State, s': State, h: Instance) {
    && s'.log == s.log && s'.hubs.Keys == s.hubs.Keys + {h}
    && (forall g: Instance :: g in s.hubs && g != h ==> s'.hubs[g] == s.hubs[g])
    && Extends(s.home, s'.home)
    && (forall w: Socket :: w in s.home && s.home[w].hub != h && w in s.received ==>
          w in s'.received && s'.received[w] == s.received[w])
    && (forall w: Socket :: w in s.home && s.home[w].hub != h && w in s'.clean ==> w in s.clean && s'.clean[w] == s.clean[w])
    && (forall w: Socket :: w in s'.home && w !in s.home ==> s'.home[w].hub == h)
    && s'.clean.Keys <= s'.home.Keys
  }

  lemma LocalStep(s: State, s': State, h: Instance)
    requires Inv(s) && OthersKeep(s, s', h)
    requires h in s'.hubs && HubInv(s', h)
    requires forall w: Socket :: w in s'.home && s'.home[w].hub == h ==> SocketInv(s', w)
    ensures Inv(s')
  {
    hide HubInv, SocketInv;
    forall g: Instance | g in s'.hubs ensures HubInv(s', g) {
      if g != h { HubFrame(s, s', g); }
    }
    forall w: Socket | w in s'.home ensures SocketInv(s', w) {
      if s'.home[w].hub != h {
        SocketHome(s, w);
        SocketFrame(s, s', w);
      }
    }
  }

  lemma SocketHome(s: State, w: Socket)
    requires Inv(s) && w in s.home
    ensures SocketInv(s, w) && w in s.received && s.home[w].hub in s.hubs && HubInv(s, s.home[w].hub)
  {}

  /** A socket that receives nothing in the step, at the same or a later horizon. */
  lemma SocketWaits(s: State, s': State, w: Socket)
    requires w in s.home && SocketInv(s, w)
    requires w in s'.home && s'.home[w] == s.home[w] && s'.log == s.log
    requires s.home[w].hub in s'.hubs
    requires w in s'.received && s'.received[w] == s.received[w]
    requires Horizon(s.hubs[s.home[w].hub], w) <= Horizon(s'.hubs[s.home[w].hub], w)
    requires w in s'.clean ==> w in s.clean && s'.clean[w] == s.clean[w] && StillClean(s, s', w)
    ensures SocketInv(s', w)
  {
    hide Registered, ParseChannel;
  }

  ghost predicate StillClean(s: State, s': State, w: Socket)
    requires w in s.home && s.home[w].hub in s.hubs && s.home[w].hub in s'.hubs && w in s.clean
  {
    var home := s.home[w];
    var hub, hub' := s.hubs[home.hub], s'.hubs[home.hub];
    && (hub.listening ==> hub'.listening)
    && (Registered(hub.cases, hub.tenants, home.topic, w) ==> Registered(hub'.cases, hub'.tenants, home.topic, w))
    && (Horizon(hub, w) <= |s.log| ==>
          && Horizon(hub', w) <= |s.log|
          && Own(s.log, home.topic, s.clean[w], Horizon(hub', w)) == Own(s.log, home.topic, s.clean[w], Horizon(hub, w)))
  }

  lemma CleanLives(s: State)
    requires Inv(s)
    ensures s.clean.Keys <= s.home.Keys
  {}

  lemma NewHubIsFine(s: State, h: Instance)
    requires h in s.hubs && s.hubs[h] == NEW_HUB
    ensures HubInv(s, h)
  {}

  lemma StartInstanceKeeps(s: State, h: Instance)
    requires Inv(s) && Enabled(s, StartInstance(h))
    ensures Inv(Do(s, StartInstance(h)))
  {
    hide Inv, HubInv, SocketInv;
    var s' := Do(s, StartInstance(h));
    forall w: Socket | w in s.home ensures s.home[w].hub != h { SocketHome(s, w); }
    CleanLives(s);
    NewHubIsFine(s', h);
    LocalStep(s, s', h);
  }

  lemma StartListenerKeeps(s: State, h: Instance)
    requires Inv(s) && Enabled(s, StartListener(h))
    ensures Inv(Do(s, StartListener(h)))
  {
    hide MapsInv, Registered, SocketInv, Inv;
    var s' := Do(s, StartListener(h));
    HubIn(s, h);
    forall w: Socket | w in s'.home && s'.home[w].hub == h ensures SocketInv(s', w) {
      SocketHome(s, w);
      CleanListens(s, w);
      SocketRestarts(s, s', w);
    }
    LocalStep(s, s', h);
  }

  lemma CleanListens(s: State, w: Socket)
    requires w in s.home && SocketInv(s, w)
    ensures w in s.clean ==> s.hubs[s.home[w].hub].listening
  {}

  /** After a start of the listener the cursor stands at the end of the log. */
  lemma SocketRestarts(s: State, s': State, w: Socket)
    requires w in s.home && SocketInv(s, w) && w !in s'.clean
    requires s'.home == s.home && s'.log == s.log && s.home[w].hub in s'.hubs && s'.received == s.received
    requires Horizon(s'.hubs[s.home[w].hub], w) == |s.log|
    ensures SocketInv(s', w)
  {}

  lemma StopListenerKeeps(s: State, h: Instance)
    requires Inv(s) && Enabled(s, StopListener(h))
    ensures Inv(Do(s, StopListener(h)))
  {
    hide MapsInv, Registered, SocketInv, Inv;
    var s' := Do(s, StopListener(h));
    HubIn(s, h);
    forall w: Socket | w in s'.home && s'.home[w].hub == h ensures SocketInv(s', w) {
      SocketHome(s, w);
      SocketWaits(s, s', w);
    }
    LocalStep(s, s', h);
  }

  lemma ConnectKeeps(s: State, h: Instance, w: Socket, t: Topic)
    requires Inv(s) && Enabled(s, Connect(h, w, t))
    ensures Inv(Do(s, Connect(h, w, t)))
  {
    hide MapsInv, TargetsInv, Registered, SocketInv, WithSocket, Inv;
    var s' := Do(s, Connect(h, w, t));
    HubIn(s, h);
    MapsExtend(s.hubs[h].cases, s.hubs[h].tenants, s.home, s'.home, h);
    MapsAdd(s.hubs[h], s'.home, h, t, w);
    WithSocketKeeps(s.hubs[h], t, w);
    TargetsExtend(s.hubs[h].delivery, s.log, s'.log, s.home, s'.home, h);
    forall v: Socket | v in s'.home && s'.home[v].hub == h ensures SocketInv(s', v) {
      if v != w {
        SocketHome(s, v);
        SocketWaits(s, s', v);
      } else {
        NewSocketIsNoTarget(s, h, w);
        NewSocket(s', w);
      }
    }
    LocalStep(s, s', h);
  }

  lemma HubIn(s: State, h: Instance)
    requires Inv(s) && h in s.hubs
    ensures HubInv(s, h) && s.clean.Keys <= s.home.Keys
  {}

  lemma WithSocketKeeps(hub: Hub, t: Topic, w: Socket)
    ensures var hub' := WithSocket(hub, t, w);
      hub' == hub.(cases := hub'.cases, tenants := hub'.tenants)
  {}

  lemma NewSocket(s: State, w: Socket)
    requires w in s.home && s.home[w].hub in s.hubs && w in s.received && s.received[w] == []
    requires var hub := s.hubs[s.home[w].hub];
      && QueueInv(hub, |s.log|)
      && Registered(hub.cases, hub.tenants, s.home[w].topic, w)
      && Horizon(hub, w) == hub.cursor
      && (w in s.clean ==> hub.listening && s.clean[w] == hub.cursor)
    ensures SocketInv(s, w)
  {}

  lemma NewSocketIsNoTarget(s: State, h: Instance, w: Socket)
    requires h in s.hubs && HubInv(s, h) && w !in s.home
    ensures s.hubs[h].delivery.Sending? ==> w !in s.hubs[h].delivery.targets
  {}

  lemma DisconnectKeeps(s: State, w: Socket)
    requires Inv(s) && Enabled(s, Disconnect(w))
    ensures Inv(Do(s, Disconnect(w)))
  {
    hide MapsInv, TargetsInv, Registered, SocketInv, WithoutSocket, Inv;
    var s' := Do(s, Disconnect(w));
    var h := s.home[w].hub;
    HubIn(s, h);
    MapsDrop(s.hubs[h], s.home, h, s.home[w].topic, w);
    WithoutSocketKeeps(s.hubs[h], s.home[w].topic, w);
    forall v: Socket | v in s'.home && s'.home[v].hub == h ensures SocketInv(s', v) {
      SocketHome(s, v);
      SocketWaits(s, s', v);
    }
    LocalStep(s, s', h);
  }

  lemma WithoutSocketKeeps(hub: Hub, t: Topic, w: Socket)
    ensures var hub' := WithoutSocket(hub, t, w);
      hub' == hub.(cases := hub'.cases, tenants := hub'.tenants)
  {}

  lemma PublishKeeps(s: State, channel: string)
    requires Inv(s)
    ensures Inv(Do(s, Publish(channel)))
  {
    hide MapsInv, Registered, TargetsInv, SocketInv, HubInv;
    var s' := Do(s, Publish(channel));
    forall h: Instance | h in s'.hubs ensures HubInv(s', h) {
      HubPublishes(s, s', h);
    }
    forall w: Socket | w in s'.home ensures SocketInv(s', w) {
      SocketHome(s, w);
      SocketPublishes(s, s', channel, w);
    }
  }

  lemma HubPublishes(s: State, s': State, h: Instance)
    requires h in s.hubs && HubInv(s, h) && s'.home == s.home && |s'.log| == |s.log| + 1 && s'.log[..|s.log|] == s.log
    requires s'.hubs == Queued(s.hubs, |s.log|)
    ensures HubInv(s', h)
  {
    hide MapsInv, TargetsInv;
    TargetsExtend(s.hubs[h].delivery, s.log, s'.log, s.home, s'.home, h);
  }

  lemma SocketPublishes(s: State, s': State, channel: string, w: Socket)
    requires w in s.home && SocketInv(s, w) && s'.home == s.home && s'.received == s.received && s'.clean == s.clean
    requires s'.log == s.log + [channel] && s'.hubs == Queued(s.hubs, |s.log|)
    ensures SocketInv(s', w)
  {
    hide Registered, ParseChannel;
    if w in s.clean {
      OwnGrows(s.log, channel, s.home[w].topic, s.clean[w], Horizon(s.hubs[s.home[w].hub], w));
    }
  }

  lemma TakeUpKeeps(s: State, h: Instance)
    requires Inv(s) && Enabled(s, TakeUp(h))
    ensures Inv(Do(s, TakeUp(h)))
  {
    hide MapsInv, Registered, Targets, ParseChannel, SocketInv, Inv;
    var s' := Do(s, TakeUp(h));
    var hub := s.hubs[h];
    HubIn(s, h);
    assert hub.inbox[0] == hub.cursor < |s.log|;
    forall w: Socket | w in s'.home && s'.home[w].hub == h ensures SocketInv(s', w) {
      SocketHome(s, w);
      SocketSettles(s, s', w);
      SocketWaits(s, s', w);
    }
    assert TargetsInv(s'.hubs[h].delivery, s.log, s.home, h) by {
      forall w: Socket | w in s'.hubs[h].delivery.targets
        ensures w in s.home && s.home[w].hub == h && ParseChannel(s.log[hub.cursor]) == Some(s.home[w].topic)
      {
        RegisteredIsTarget(hub, s.home, h, CaseTopic(""), w, s.log[hub.cursor]);
      }
    }
    LocalStep(s, s', h);
  }

  /** A message that is taken up without the socket among its targets is not one of the socket's channel. */
  lemma SocketSettles(s: State, s': State, w: Socket)
    requires w in s.home && SocketInv(s, w) && HubInv(s, s.home[w].hub)
    requires var hub := s.hubs[s.home[w].hub];
      && s'.log == s.log && hub.delivery.Idle? && hub.cursor < |s.log| && s.home[w].hub in s'.hubs
      && s'.hubs[s.home[w].hub] == hub.(inbox := s'.hubs[s.home[w].hub].inbox,
           delivery := Sending(hub.cursor, Targets(hub.cases, hub.tenants, s.log[hub.cursor])), cursor := hub.cursor + 1)
    ensures w in s.clean ==> StillClean(s, s', w)
    ensures Horizon(s.hubs[s.home[w].hub], w) <= Horizon(s'.hubs[s.home[w].hub], w)
  {
    hide Targets, Registered, ParseChannel, MapsInv;
    var hub := s.hubs[s.home[w].hub];
    RegisteredIsTarget(hub, s.home, s.home[w].hub, s.home[w].topic, w, s.log[hub.cursor]);
  }

  lemma SendKeeps(s: State, h: Instance, w: Socket, works: bool)
    requires Inv(s) && Enabled(s, Send(h, w, works))
    ensures Inv(Do(s, Send(h, w, works)))
  {
    hide MapsInv, Registered, ParseChannel, SocketInv, Inv;
    var s' := Do(s, Send(h, w, works));
    HubIn(s, h);
    forall v: Socket | v in s'.home && s'.home[v].hub == h ensures SocketInv(s', v) {
      SocketHome(s, v);
      if v != w {
        SocketWaits(s, s', v);
      } else if works {
        SocketGets(s, s', w);
      } else {
        SocketWaits(s, s', w);
      }
    }
    LocalStep(s, s', h);
  }

  /** The message that is being sent is appended, and settled. */
  lemma SocketGets(s: State, s': State, w: Socket)
    requires w in s.home && SocketInv(s, w) && HubInv(s, s.home[w].hub)
    requires s'.home == s.home && s'.log == s.log && s.home[w].hub in s'.hubs && s'.clean == s.clean
    requires var hub := s.hubs[s.home[w].hub];
      && hub.delivery.Sending? && w in hub.delivery.targets
      && s'.hubs[s.home[w].hub] == hub.(delivery := Sending(hub.delivery.message, hub.delivery.targets - {w}))
      && w in s'.received && s'.received[w] == s.received[w] + [hub.delivery.message]
    ensures SocketInv(s', w)
  {
    hide Registered, MapsInv;
  }

  lemma FinishKeeps(s: State, h: Instance)
    requires Inv(s) && Enabled(s, Finish(h))
    ensures Inv(Do(s, Finish(h)))
  {
    hide MapsInv, Registered, ParseChannel, SocketInv, Inv;
    var s' := Do(s, Finish(h));
    HubIn(s, h);
    forall w: Socket | w in s'.home && s'.home[w].hub == h ensures SocketInv(s', w) {
      SocketHome(s, w);
      SocketWaits(s, s', w);
    }
    LocalStep(s, s', h);
  }

  lemma StepKeeps(s: State, step: Step)
    requires Inv(s) && Enabled(s, step)
    ensures Inv(Do(s, step))
  {
    hide Inv, Enabled, Do;
    match step
    case StartInstance(h) => StartInstanceKeeps(s, h);
    case StartListener(h) => StartListenerKeeps(s, h);
    case StopListener(h) => StopListenerKeeps(s, h);
    case Connect(h, w, t) => ConnectKeeps(s, h, w, t);
    case Disconnect(w) => DisconnectKeeps(s, w);
    case Publish(channel) => PublishKeeps(s, channel);
    case TakeUp(h) => TakeUpKeeps(s, h);
    case Send(h, w, works) => SendKeeps(s, h, w, works);
    case Finish(h) => FinishKeeps(s, h);
  }

  lemma {:induction false} ReachedKeeps(steps: seq<Step>)
    ensures Inv(Reached(steps))
    decreases |steps|
  {
    if steps != [] {
      var s := Reached(steps[..|steps| - 1]);
      ReachedKeeps(steps[..|steps| - 1]);
      if Enabled(s, steps[|steps| - 1]) { StepKeeps(s, steps[|steps| - 1]); }
    }
  }

  // ---------- What the sockets see ----------

  /** In every run, a socket gets only messages of its own channel, each at most once, in publication order. */
  lemma OwnChannelInOrderOnce(steps: seq<Step>, w: Socket)
    requires w in Reached(steps).home
    ensures var s := Reached(steps);
      && w in s.received
      && (forall i, j :: 0 <= i < j < |s.received[w]| ==> s.received[w][i] < s.received[w][j])
      && (forall i :: 0 <= i < |s.received[w]| ==>
            s.received[w][i] < |s.log| && ParseChannel(s.log[s.received[w][i]]) == Some(s.home[w].topic))
  {
    ReachedKeeps(steps);
    assert SocketInv(Reached(steps), w);
  }

  /** In every run, no connection map keeps an empty set. */
  lemma NoEmptySetRemains(steps: seq<Step>, h: Instance)
    requires h in Reached(steps).hubs
    ensures NoEmptySet(Reached(steps).hubs[h].cases) && NoEmptySet(Reached(steps).hubs[h].tenants)
  {
    ReachedKeeps(steps);
    assert HubInv(Reached(steps), h);
  }

  /** In every run, a socket that stays connected to a listening instance and whose sends do not fail has got exactly
      the messages of its channel that were published after it could expect them and that the instance has settled. */
  lemma NothingMissed(steps: seq<Step>, w: Socket)
    requires w in Reached(steps).clean
    ensures var s := Reached(steps);
      && w in s.home && s.home[w].hub in s.hubs && w in s.received
      && Horizon(s.hubs[s.home[w].hub], w) <= |s.log|
      && s.received[w] == Own(s.log, s.home[w].topic, s.clean[w], Horizon(s.hubs[s.home[w].hub], w))
  {
    ReachedKeeps(steps);
    assert SocketInv(Reached(steps), w);
  }

  lemma {:induction false} OwnIsFilter(log: seq<string>, t: Topic, lo: nat, hi: nat, k: nat)
    requires hi <= |log|
    ensures k in Own(log, t, lo, hi) <==> lo <= k < hi && ParseChannel(log[k]) == Some(t)
    decreases hi
  {
    if hi > lo { OwnIsFilter(log, t, lo, hi - 1, k); }
  }

  // ---------- The loop of `_deliver`, step by step ----------

  /** The sends of one delivery, in the order in which the loop takes the sockets. */
  function Sends(h: Instance, order: seq<Socket>, working: set<Socket>): seq<Step> {
    seq(|order|, i requires 0 <= i < |order| => Send(h, order[i], order[i] in working))
  }

  function Continue(s: State, steps: seq<Step>): State
    decreases |steps|
  {
    if steps == [] then s else Continue(if Enabled(s, steps[0]) then Do(s, steps[0]) else s, steps[1..])
  }

  lemma {:induction false} SendsReach(s: State, h: Instance, m: nat, order: seq<Socket>, working: set<Socket>)
    requires h in s.hubs && s.hubs[h].delivery.Sending? && s.hubs[h].delivery.message == m
    requires forall w: Socket :: w in s.hubs[h].delivery.targets <==> w in order
    requires forall i, j :: 0 <= i < j < |order| ==> order[i] != order[j]
    requires forall w: Socket :: w in order ==> w in s.received
    ensures var s' := Continue(s, Sends(h, order, working) + [Finish(h)]);
      && h in s'.hubs && s'.hubs[h].delivery == Idle && s'.received.Keys == s.received.Keys
      && forall w: Socket :: w in s.received ==>
           s'.received[w] == if w in order && w in working then s.received[w] + [m] else s.received[w]
    decreases |order|
  {
    hide Do, Enabled;
    var steps := Sends(h, order, working) + [Finish(h)];
    if order == [] {
      assert steps == [Finish(h)] && steps[1..] == [];
      assert s.hubs[h].delivery.targets == {};
      FinishStep(s, h);
    } else {
      var w := order[0];
      assert steps[0] == Send(h, w, w in working);
      assert w in order;
      SendStep(s, h, w, w in working);
      assert steps[1..] == Sends(h, order[1..], working) + [Finish(h)];
      assert forall v: Socket :: v in order[1..] <==> v in order && v != w;
      SendsReach(Do(s, steps[0]), h, m, order[1..], working);
    }
  }

  lemma FinishStep(s: State, h: Instance)
    requires h in s.hubs && s.hubs[h].delivery.Sending? && s.hubs[h].delivery.targets == {}
    ensures Enabled(s, Finish(h))
    ensures var s' := Do(s, Finish(h)); h in s'.hubs && s'.hubs[h].delivery == Idle && s'.received == s.received
  {}

  lemma SendStep(s: State, h: Instance, w: Socket, works: bool)
    requires h in s.hubs && s.hubs[h].delivery.Sending? && w in s.hubs[h].delivery.targets && w in s.received
    ensures Enabled(s, Send(h, w, works))
    ensures var s' := Do(s, Send(h, w, works)); var m := s.hubs[h].delivery.message;
      && h in s'.hubs && s'.hubs[h].delivery == Sending(m, s.hubs[h].delivery.targets - {w})
      && s'.received == if works then s.received[w := s.received[w] + [m]] else s.received
  {}

  /** One round of the protocol on an instance does what the loop of `_deliver` does: the message at the head of the queue
      reaches exactly the sockets that `Deliver` sends to, once each, and then the instance is idle again. */
  lemma DeliveryReaches(steps: seq<Step>, h: Instance, order: seq<Socket>, working: set<Socket>)
    requires Enabled(Reached(steps), TakeUp(h))
    requires var s := Reached(steps);
      s.hubs[h].inbox[0] < |s.log| ==>
        forall w: Socket :: w in order <==> w in Targets(s.hubs[h].cases, s.hubs[h].tenants, s.log[s.hubs[h].inbox[0]])
    requires forall i, j :: 0 <= i < j < |order| ==> order[i] != order[j]
    ensures var s := Reached(steps);
      var m := s.hubs[h].inbox[0];
      var s' := Continue(s, [TakeUp(h)] + (Sends(h, order, working) + [Finish(h)]));
      && m < |s.log| && h in s'.hubs && s'.hubs[h].delivery == Idle && s'.received.Keys == s.received.Keys
      && forall w: Socket :: w in s.received ==>
           s'.received[w] ==
           if w in Targets(s.hubs[h].cases, s.hubs[h].tenants, s.log[m]) * working then s.received[w] + [m] else s.received[w]
  {
    hide Inv, Targets;
    var s := Reached(steps);
    var m := s.hubs[h].inbox[0];
    ReachedKeeps(steps);
    HubIn(s, h);
    var targets := Targets(s.hubs[h].cases, s.hubs[h].tenants, s.log[m]);
    forall w: Socket | w in targets ensures w in s.received {
      RegisteredIsTarget(s.hubs[h], s.home, h, CaseTopic(""), w, s.log[m]);
      SocketHome(s, w);
    }
    var round := [TakeUp(h)] + (Sends(h, order, working) + [Finish(h)]);
    assert round[1..] == Sends(h, order, working) + [Finish(h)];
    SendsReach(Do(s, TakeUp(h)), h, m, order, working);
  }
}
