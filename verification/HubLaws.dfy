/**
 What a connection is worth, from the connect on and from the disconnect on, read off the steps of the protocol: a socket
 that connects to a listening instance gets its messages until something ends the connection, and hardly one after that.
 */
module HubLaws {
  import opened Wrappers
  import opened RealtimeHub

  // ---------- From the connect on ----------

  /** The instance was started, its listener was started after that, and has not been stopped since. */
  predicate Listens(steps: seq<Step>, h: Instance) {
    exists i, j :: 0 <= i < j < |steps| && steps[i] == StartInstance(h) && steps[j] == StartListener(h)
      && forall k :: j < k < |steps| ==> steps[k] != StopListener(h)
  }

  predicate Started(steps: seq<Step>, h: Instance) {
    StartInstance(h) in steps
  }

  lemma {:induction false} StartedIsThere(steps: seq<Step>, h: Instance)
    ensures Started(steps, h) <==> h in Reached(steps).hubs
    decreases |steps|
  {
    if steps != [] {
      var n := |steps| - 1;
      StartedIsThere(steps[..n], h);
      assert steps == steps[..n] + [steps[n]];
    }
  }

  lemma ListensMore(steps: seq<Step>, h: Instance)
    requires steps != []
    ensures var n := |steps| - 1;
      Listens(steps, h) <==>
        if steps[n] == StartListener(h) then Started(steps[..n], h)
        else Listens(steps[..n], h) && steps[n] != StopListener(h)
  {
    var n := |steps| - 1;
    var front := steps[..n];
    if Listens(steps, h) {
      var i, j :| 0 <= i < j < |steps| && steps[i] == StartInstance(h) && steps[j] == StartListener(h)
        && forall k :: j < k < |steps| ==> steps[k] != StopListener(h);
      assert front[i] == steps[i] && (j < n ==> front[j] == steps[j]);
    }
    if steps[n] == StartListener(h) {
      if Started(front, h) {
        var i :| 0 <= i < n && front[i] == StartInstance(h);
        assert steps[i] == StartInstance(h);
      }
    } else if Listens(front, h) && steps[n] != StopListener(h) {
      var i, j :| 0 <= i < j < |front| && front[i] == StartInstance(h) && front[j] == StartListener(h)
        && forall k :: j < k < |front| ==> front[k] != StopListener(h);
      assert steps[i] == front[i] && steps[j] == front[j];
      assert forall k :: j < k < n ==> steps[k] == front[k];
    }
  }

  /** Whether an instance listens can be read off the steps. */
  lemma {:induction false} ListensIff(steps: seq<Step>, h: Instance)
    ensures Listens(steps, h) <==> h in Reached(steps).hubs && Reached(steps).hubs[h].listening
    decreases |steps|
  {
    hide Listens;
    if steps == [] {
      assert !Listens([], h) by { NobodyListens(h); }
    } else {
      var n := |steps| - 1;
      ListensIff(steps[..n], h);
      StartedIsThere(steps[..n], h);
      ListensMore(steps, h);
    }
  }

  lemma NobodyListens(h: Instance)
    ensures !Listens([], h)
  {}

  /** The step neither ends the connection of the socket, nor stops the listener of its instance, nor fails to send to it. */
  predicate Spares(step: Step, h: Instance, w: Socket) {
    step != Disconnect(w) && step != StopListener(h) && step != Send(h, w, false)
  }

  /** The socket lives on the instance under its topic, and has expected every message since `first`. */
  predicate Attached(s: State, h: Instance, w: Socket, t: Topic, first: nat) {
    w in s.home && s.home[w] == Home(h, t) && w in s.clean && s.clean[w] == first
  }

  lemma StepSpares(s: State, step: Step, h: Instance, w: Socket, t: Topic, first: nat)
    requires Inv(s) && Enabled(s, step) && Attached(s, h, w, t, first) && Spares(step, h, w)
    ensures Attached(Do(s, step), h, w, t, first)
  {
    hide HubInv, SocketInv;
    if step.Send? && step.socket == w {
      assert HubInv(s, step.hub);
      TargetHome(s, step.hub, w);
    }
  }

  lemma TargetHome(s: State, h: Instance, w: Socket)
    requires h in s.hubs && HubInv(s, h) && s.hubs[h].delivery.Sending? && w in s.hubs[h].delivery.targets
    ensures w in s.home && s.home[w].hub == h
  {}

  lemma {:induction false} RunSpares(before: seq<Step>, h: Instance, w: Socket, t: Topic, more: seq<Step>)
    requires Enabled(Reached(before), Connect(h, w, t)) && Reached(before).hubs[h].listening
    requires forall i :: 0 <= i < |more| ==> Spares(more[i], h, w)
    ensures Attached(Reached(before + [Connect(h, w, t)] + more), h, w, t, Reached(before).hubs[h].cursor)
    decreases |more|
  {
    var first := Reached(before).hubs[h].cursor;
    hide Inv, Do, Enabled, Attached;
    var steps := before + [Connect(h, w, t)] + more;
    var n := |more| - 1;
    if more == [] {
      assert steps[..|steps| - 1] == before && steps[|steps| - 1] == Connect(h, w, t);
      ConnectAttaches(Reached(before), h, w, t);
    } else {
      assert steps[..|steps| - 1] == before + [Connect(h, w, t)] + more[..n] && steps[|steps| - 1] == more[n];
      RunSpares(before, h, w, t, more[..n]);
      ReachedKeeps(steps[..|steps| - 1]);
      if Enabled(Reached(steps[..|steps| - 1]), more[n]) {
        StepSpares(Reached(steps[..|steps| - 1]), more[n], h, w, t, first);
      }
    }
  }

  lemma ConnectAttaches(s: State, h: Instance, w: Socket, t: Topic)
    requires Enabled(s, Connect(h, w, t)) && s.hubs[h].listening
    ensures Attached(Do(s, Connect(h, w, t)), h, w, t, s.hubs[h].cursor)
  {}

  /** A socket that connects to a listening instance, and that is neither disconnected, nor failed, nor left without its
      listener by the steps that follow, has been sent exactly the messages of its topic, in order, from the first one
      that the instance had not taken up when it connected to the last one that the instance has settled. */
  lemma ConnectedGetsItsMessages(before: seq<Step>, h: Instance, w: Socket, t: Topic, more: seq<Step>)
    requires Enabled(Reached(before), Connect(h, w, t)) && Listens(before, h)
    requires forall i :: 0 <= i < |more| ==> Spares(more[i], h, w)
    ensures var first := Reached(before).hubs[h].cursor;
      var s := Reached(before + [Connect(h, w, t)] + more);
      && first <= |Reached(before).log|
      && h in s.hubs && w in s.received && Horizon(s.hubs[h], w) <= |s.log|
      && s.received[w] == Own(s.log, t, first, Horizon(s.hubs[h], w))
  {
    hide Inv, Enabled;
    ListensIff(before, h);
    RunSpares(before, h, w, t, more);
    NothingMissed(before + [Connect(h, w, t)] + more, w);
    ReachedKeeps(before);
    HubIn(Reached(before), h);
  }

  // ---------- Everything is settled in the end ----------

  lemma {:induction false} ReachedContinues(steps: seq<Step>, more: seq<Step>)
    ensures Reached(steps + more) == Continue(Reached(steps), more)
    decreases |more|
  {
    hide Do, Enabled;
    if more == [] {
      assert steps + more == steps;
    } else {
      assert steps + more == (steps + [more[0]]) + more[1..];
      ReachedContinues(steps + [more[0]], more[1..]);
      assert (steps + [more[0]])[..|steps|] == steps;
    }
  }

  lemma {:induction false} ContinueTwice(s: State, a: seq<Step>, b: seq<Step>)
    ensures Continue(s, a + b) == Continue(Continue(s, a), b)
    decreases |a|
  {
    hide Do, Enabled;
    if a == [] {
      assert a + b == b;
    } else {
      assert (a + b)[1..] == a[1..] + b;
      ContinueTwice(if Enabled(s, a[0]) then Do(s, a[0]) else s, a[1..], b);
    }
  }

  /** A step of the delivery loop of the instance, with no failure. */
  predicate Delivers(step: Step, h: Instance) {
    step == TakeUp(h) || step == Finish(h) || (step.Send? && step.hub == h && step.works)
  }

  /** The log, the sockets and the other instances are as before, and this one is what it was but for its deliveries. */
  predicate OnlyDelivered(s: State, s': State, h: Instance) {
    && s'.log == s.log && s'.home == s.home && h in s.hubs && h in s'.hubs
    && s'.hubs[h].listening == s.hubs[h].listening
  }

  lemma {:induction false} FinishDelivery(s: State, h: Instance) returns (more: seq<Step>)
    requires h in s.hubs && s.hubs[h].delivery.Sending?
    ensures forall i :: 0 <= i < |more| ==> Delivers(more[i], h)
    ensures var s' := Continue(s, more);
      OnlyDelivered(s, s', h) && s'.hubs[h] == s.hubs[h].(delivery := Idle)
    decreases s.hubs[h].delivery.targets
  {
    var targets := s.hubs[h].delivery.targets;
    if targets == {} {
      more := [Finish(h)];
      assert more[1..] == [];
    } else {
      var w :| w in targets;
      var step := Send(h, w, true);
      var rest := FinishDelivery(Do(s, step), h);
      more := [step] + rest;
      assert more[1..] == rest;
    }
  }

  lemma {:induction false} DrainQueue(s: State, h: Instance) returns (more: seq<Step>)
    requires h in s.hubs && s.hubs[h].listening && s.hubs[h].delivery.Idle?
    ensures forall i :: 0 <= i < |more| ==> Delivers(more[i], h)
    ensures var s' := Continue(s, more);
      OnlyDelivered(s, s', h) && s'.hubs[h].inbox == [] && s'.hubs[h].delivery == Idle
    decreases |s.hubs[h].inbox|
  {
    if s.hubs[h].inbox == [] {
      more := [];
    } else {
      var s1 := Do(s, TakeUp(h));
      var a := FinishDelivery(s1, h);
      var b := DrainQueue(Continue(s1, a), h);
      more := [TakeUp(h)] + (a + b);
      assert more[1..] == a + b;
      ContinueTwice(s1, a, b);
    }
  }

  /** From every reachable state, a listening instance can settle all that was published, by its own steps alone. */
  lemma EverythingSettles(steps: seq<Step>, h: Instance) returns (more: seq<Step>)
    requires Listens(steps, h)
    ensures forall i :: 0 <= i < |more| ==> Delivers(more[i], h)
    ensures var s, s' := Reached(steps), Reached(steps + more);
      && s'.log == s.log && h in s'.hubs
      && s'.hubs[h].delivery == Idle && s'.hubs[h].inbox == [] && s'.hubs[h].cursor == |s.log|
  {
    hide Inv, Do, Enabled, Listens;
    ListensIff(steps, h);
    var s := Reached(steps);
    var first := [];
    if s.hubs[h].delivery.Sending? {
      first := FinishDelivery(s, h);
    }
    var rest := DrainQueue(Continue(s, first), h);
    more := first + rest;
    ContinueTwice(s, first, rest);
    ReachedContinues(steps, more);
    ReachedKeeps(steps + more);
    HubIn(Reached(steps + more), h);
  }

  /** So a socket that stays connected gets every message of its topic that is published after it has connected. */
  lemma EveryMessageArrives(before: seq<Step>, h: Instance, w: Socket, t: Topic, more: seq<Step>) returns (rest: seq<Step>)
    requires Enabled(Reached(before), Connect(h, w, t)) && Listens(before, h)
    requires forall i :: 0 <= i < |more| ==> Spares(more[i], h, w)
    ensures forall i :: 0 <= i < |rest| ==> Delivers(rest[i], h)
    ensures var all := before + [Connect(h, w, t)] + more;
      var s := Reached(all + rest);
      && s.log == Reached(all).log && w in s.received
      && forall m :: |Reached(before).log| <= m < |s.log| && ParseChannel(s.log[m]) == Some(t) ==> m in s.received[w]
  {
    var first := Reached(before).hubs[h].cursor;
    hide Inv, Do, Enabled, Listens, Own, Attached, Reached;
    var all := before + [Connect(h, w, t)] + more;
    StillListens(before, h, Connect(h, w, t), w, more);
    rest := EverythingSettles(all, h);
    assert all + rest == before + [Connect(h, w, t)] + (more + rest);
    ConnectedGetsItsMessages(before, h, w, t, more + rest);
    var s := Reached(all + rest);
    forall m | |Reached(before).log| <= m < |s.log| && ParseChannel(s.log[m]) == Some(t) ensures m in s.received[w] {
      OwnIsFilter(s.log, t, first, |s.log|, m);
    }
  }

  lemma StillListens(before: seq<Step>, h: Instance, step: Step, w: Socket, more: seq<Step>)
    requires Listens(before, h) && step != StopListener(h)
    requires forall i :: 0 <= i < |more| ==> Spares(more[i], h, w)
    ensures Listens(before + [step] + more, h)
  {
    var all := before + [step] + more;
    var i, j :| 0 <= i < j < |before| && before[i] == StartInstance(h) && before[j] == StartListener(h)
      && forall k :: j < k < |before| ==> before[k] != StopListener(h);
    assert all[i] == before[i] && all[j] == before[j];
    forall k | j < k < |all| ensures all[k] != StopListener(h) {
      if k > |before| {
        assert all[k] == more[k - |before| - 1];
      }
    }
  }

  // ---------- From the disconnect on ----------

  /** The message on its way to the socket, if there is one. */
  function OnItsWay(s: State, w: Socket): Option<nat> {
    if w in s.home && s.home[w].hub in s.hubs && s.hubs[s.home[w].hub].delivery.Sending?
       && w in s.hubs[s.home[w].hub].delivery.targets
    then Some(s.hubs[s.home[w].hub].delivery.message) else None
  }

  /** The socket is registered nowhere, and at most the message `last` may still be added to what it had got. */
  ghost predicate Detached(s: State, w: Socket, got: seq<nat>, last: Option<nat>) {
    && w in s.home && s.home[w].hub in s.hubs && w in s.received
    && !Registered(s.hubs[s.home[w].hub].cases, s.hubs[s.home[w].hub].tenants, s.home[w].topic, w)
    && (if s.received[w] == got then OnItsWay(s, w) == None || OnItsWay(s, w) == last
        else last.Some? && s.received[w] == got + [last.value] && OnItsWay(s, w) == None)
  }

  lemma DisconnectDetaches(s: State, w: Socket)
    requires Inv(s) && Enabled(s, Disconnect(w))
    ensures w in s.received && Detached(Do(s, Disconnect(w)), w, s.received[w], OnItsWay(s, w))
  {
    hide ParseChannel;
    assert SocketInv(s, w);
  }

  lemma StepDetached(s: State, step: Step, w: Socket, got: seq<nat>, last: Option<nat>)
    requires Inv(s) && Enabled(s, step) && Detached(s, w, got, last)
    ensures Detached(Do(s, step), w, got, last)
  {
    hide HubInv, SocketInv, Registered, Targets, ParseChannel;
    match step
    case StartInstance(_) =>
    case StartListener(_) =>
    case StopListener(_) =>
    case Connect(h, v, t) => OthersRegister(s.hubs[h], t, v, s.home[w].topic, w);
    case Disconnect(v) => OthersLeave(s.hubs[s.home[v].hub], s.home[v].topic, v, s.home[w].topic, w);
    case Publish(_) =>
    case TakeUp(h) =>
      if s.home[w].hub == h {
        HubIn(s, h);
        NotTaken(s, h, w);
      }
    case Send(h, v, works) =>
      if v == w {
        assert HubInv(s, h);
        TargetHome(s, h, w);
      }
    case Finish(_) =>
  }

  lemma OthersRegister(hub: Hub, t: Topic, v: Socket, u: Topic, w: Socket)
    requires v != w
    ensures var hub' := WithSocket(hub, t, v);
      Registered(hub'.cases, hub'.tenants, u, w) <==> Registered(hub.cases, hub.tenants, u, w)
  {}

  lemma OthersLeave(hub: Hub, t: Topic, v: Socket, u: Topic, w: Socket)
    ensures var hub' := WithoutSocket(hub, t, v);
      Registered(hub'.cases, hub'.tenants, u, w) ==> Registered(hub.cases, hub.tenants, u, w)
  {}

  lemma NotTaken(s: State, h: Instance, w: Socket)
    requires Inv(s) && h in s.hubs && w in s.home && s.home[w].hub == h
    requires !Registered(s.hubs[h].cases, s.hubs[h].tenants, s.home[w].topic, w)
    ensures forall channel: string :: w !in Targets(s.hubs[h].cases, s.hubs[h].tenants, channel)
  {
    hide HubInv, SocketInv;
    assert HubInv(s, h);
    HubMaps(s, h);
    forall channel: string ensures w !in Targets(s.hubs[h].cases, s.hubs[h].tenants, channel) {
      TargetIsRegistered(s.hubs[h], channel, w);
    }
  }

  lemma TargetIsRegistered(hub: Hub, channel: string, w: Socket)
    ensures w in Targets(hub.cases, hub.tenants, channel) ==>
      ParseChannel(channel).Some? && Registered(hub.cases, hub.tenants, ParseChannel(channel).value, w)
  {}

  lemma HubMaps(s: State, h: Instance)
    requires h in s.hubs && HubInv(s, h)
    ensures MapsInv(s.hubs[h].cases, s.hubs[h].tenants, s.home, h)
  {}

  /** A socket that disconnects gets at most the one message that was already on its way to it, whatever happens then. */
  lemma {:induction false} DisconnectedGetsNoMore(before: seq<Step>, w: Socket, more: seq<Step>)
    requires Enabled(Reached(before), Disconnect(w))
    ensures var s, s' := Reached(before), Reached(before + [Disconnect(w)] + more);
      && w in s.received && w in s'.received && Detached(s', w, s.received[w], OnItsWay(s, w))
      && (s'.received[w] == s.received[w]
          || (OnItsWay(s, w).Some? && s'.received[w] == s.received[w] + [OnItsWay(s, w).value]))
    decreases |more|
  {
    hide Inv, Do, Enabled, OnItsWay, Registered;
    var steps := before + [Disconnect(w)] + more;
    var n := |more| - 1;
    ReachedKeeps(before);
    DisconnectDetaches(Reached(before), w);
    if more == [] {
      assert steps[..|steps| - 1] == before && steps[|steps| - 1] == Disconnect(w);
    } else {
      var s := Reached(before);
      assert steps[..|steps| - 1] == before + [Disconnect(w)] + more[..n] && steps[|steps| - 1] == more[n];
      DisconnectedGetsNoMore(before, w, more[..n]);
      ReachedKeeps(steps[..|steps| - 1]);
      if Enabled(Reached(steps[..|steps| - 1]), more[n]) {
        StepDetached(Reached(steps[..|steps| - 1]), more[n], w, s.received[w], OnItsWay(s, w));
      }
    }
  }
}
