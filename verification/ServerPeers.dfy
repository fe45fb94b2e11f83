/** What the server makes of its peers: each of them runs as a peer on its own would, and the shutdown
    makes every one of them leave. */
module ServerPeers {
  import opened Basics
  import Peer
  import opened Server
  import opened ServerDiscovery

  // ---------------------------------------------------------------- every peer runs as on its own

  /** Only these reasons are given for a disconnection, the second only to stop. */
  predicate ReasonsOk(acts: seq<Peer.Action>, quit: bool) {
    forall k :: 0 <= k < |acts| && acts[k].TakeDisconnect? ==> acts[k].reason == 1 || (acts[k].reason == 8 && quit)
  }

  ghost predicate RunsTo(pss: seq<Peer.State>, acts: seq<Peer.Action>, topics: nat, protocols: nat, quit: bool, p: Peer.State) {
    Peer.Run(pss, acts, topics, protocols) && pss[|acts|] == p && ReasonsOk(acts, quit)
  }

  /** Some run of a single peer leads to p. */
  ghost predicate Ran(topics: nat, protocols: nat, quit: bool, p: Peer.State) {
    exists pss: seq<Peer.State>, acts: seq<Peer.Action> :: RunsTo(pss, acts, topics, protocols, quit, p)
  }

  /** A dropping goroutine holds the error of a peer that has returned. */
  ghost predicate StageRan(topics: nat, protocols: nat, quit: bool, st: Stage) {
    match st
    case Running(p) => Ran(topics, protocols, quit, p)
    case Dropping(err) => exists p: Peer.State :: Ran(topics, protocols, quit, p) && p.pc == Peer.Returned && p.err == err
  }

  ghost predicate AllRan(s: State) {
    forall h :: h in s.live ==> StageRan(s.topics, s.protocols, s.quit, s.live[h].stage)
  }

  lemma RanStart(topics: nat, protocols: nat, quit: bool)
    ensures Ran(topics, protocols, quit, Peer.Init(topics, protocols))
  {
    var pss, acts := [Peer.Init(topics, protocols)], [];
    assert RunsTo(pss, acts, topics, protocols, quit, Peer.Init(topics, protocols));
  }

  lemma RanOn(topics: nat, protocols: nat, quit: bool, p: Peer.State, a: Peer.Action)
    requires Ran(topics, protocols, quit, p) && Peer.Ready(p, a) && Peer.HasRoom(p, a)
    requires a.TakeDisconnect? ==> a.reason == 1 || (a.reason == 8 && quit)
    ensures Ran(topics, protocols, quit, Peer.Apply(p, a))
  {
    hide Peer.Apply, Peer.Ready, Peer.HasRoom, Peer.Init;
    var pss: seq<Peer.State>, acts: seq<Peer.Action> :| RunsTo(pss, acts, topics, protocols, quit, p);
    var more, acts' := pss + [Peer.Apply(p, a)], acts + [a];
    forall i | 0 <= i < |acts'| ensures Peer.Next(more[i], acts'[i], more[i + 1]) {
      if i < |acts| { assert Peer.Next(pss[i], acts[i], pss[i + 1]); }
    }
    assert RunsTo(more, acts', topics, protocols, quit, Peer.Apply(p, a));
  }

  lemma RanLater(topics: nat, protocols: nat, p: Peer.State)
    requires Ran(topics, protocols, false, p)
    ensures Ran(topics, protocols, true, p)
  {
    hide Peer.Run;
    var pss: seq<Peer.State>, acts: seq<Peer.Action> :| RunsTo(pss, acts, topics, protocols, false, p);
    assert RunsTo(pss, acts, topics, protocols, true, p);
  }

  lemma StageLater(topics: nat, protocols: nat, quit: bool, st: Stage)
    requires StageRan(topics, protocols, quit, st)
    ensures StageRan(topics, protocols, true, st)
  {
    hide Ran;
    if !quit {
      match st {
        case Running(p) => RanLater(topics, protocols, p);
        case Dropping(err) =>
          var p: Peer.State :| Ran(topics, protocols, quit, p) && p.pc == Peer.Returned && p.err == err;
          RanLater(topics, protocols, p);
      }
    }
  }

  lemma DisconnectRan(s: State, reason: nat)
    requires Inv(s) && AllRan(s) && Enabled(s, Disconnect(reason))
    ensures AllRan(Apply(s, Disconnect(reason)))
  {
    hide Peer.Apply, Peer.Ready, Peer.HasRoom, Peer.Inv, Ran;
    var st := s.live[s.loop.h].stage;
    if st.Running? && !st.p.closed {
      ReadyAnyReason(st.p, reason);
      RoomToDisconnect(st.p, reason);
      RanOn(s.topics, s.protocols, s.quit, st.p, Peer.TakeDisconnect(reason));
    }
  }

  lemma RoomToDisconnect(p: Peer.State, reason: nat)
    ensures Peer.HasRoom(p, Peer.TakeDisconnect(reason))
  {
  }

  lemma AllRanStep(s: State, a: Action)
    requires Inv(s) && AllRan(s) && Enabled(s, a)
    ensures AllRan(Apply(s, a)) && Apply(s, a).topics == s.topics && Apply(s, a).protocols == s.protocols
  {
    hide Peer.Apply, Peer.Ready, Peer.HasRoom, Peer.Inv, Peer.Init, Ran, Inv;
    match a {
      case Stop =>
        forall h | h in s.live ensures StageRan(s.topics, s.protocols, true, s.live[h].stage) {
          StageLater(s.topics, s.protocols, s.quit, s.live[h].stage);
        }
      case TakeSlot => RanStart(s.topics, s.protocols, s.quit);
      case PeerStep(h, b) => RanOn(s.topics, s.protocols, s.quit, s.live[h].stage.p, b);
      case Disconnect(reason) => DisconnectRan(s, reason);
      case _ =>
    }
  }

  /** Over every run of the server each of its peers is where some run of a single peer leads, so all that
      holds over such runs holds of it; and runPeer reports the error its peer returned. */
  lemma {:induction false} PeersRunAsPeers(
      ss: seq<State>, acts: seq<Action>, maxPeers: nat, topics: nat, protocols: nat, i: nat)
    requires Run(ss, acts, maxPeers, topics, protocols) && i < |ss|
    ensures AllRan(ss[i]) && ss[i].topics == topics && ss[i].protocols == protocols
  {
    hide Apply, Enabled, Inv, AllRan;
    if i == 0 {
      NoPeers(maxPeers, topics, protocols);
    } else {
      PeersRunAsPeers(ss, acts, maxPeers, topics, protocols, i - 1);
      Reachable(ss, acts, maxPeers, topics, protocols, i - 1);
      assert Next(ss[i - 1], acts[i - 1], ss[i - 1 + 1]);
      AllRanStep(ss[i - 1], acts[i - 1]);
    }
  }

  lemma NoPeers(maxPeers: nat, topics: nat, protocols: nat)
    ensures AllRan(Init(maxPeers, topics, protocols)) && AllTold(Init(maxPeers, topics, protocols))
    ensures var s := Init(maxPeers, topics, protocols); s.topics == topics && s.protocols == protocols
  {
  }

  // ---------------------------------------------------------------- the shutdown reaches every peer

  predicate Left(s: State, h: Handle)
    requires h in s.live
  {
    Leaving(s.live[h].stage)
  }

  /** The shutdown loop has told every peer to leave but those still to do. */
  ghost predicate AllTold(s: State) {
    match s.loop
    case Shutdown(todo) => forall h :: h in s.live && h !in todo ==> Left(s, h)
    case Disconnecting(h0, Some(rest)) => forall h :: h in s.live && h != h0 && h !in rest ==> Left(s, h)
    case Draining => forall h :: h in s.live ==> Left(s, h)
    case _ => true
  }

  lemma DisconnectTells(s: State, reason: nat)
    requires Inv(s) && AllTold(s) && Enabled(s, Disconnect(reason))
    ensures AllTold(Apply(s, Disconnect(reason)))
  {
    hide Peer.Apply, Peer.Ready, Peer.HasRoom, Peer.Inv, Peer.Exited;
    var st := s.live[s.loop.h].stage;
    if st.Running? {
      if st.p.closed {
        ClosedExited(st.p);
      } else {
        ReadyAnyReason(st.p, reason);
        PeerExits(st.p, Peer.TakeDisconnect(reason));
      }
    }
  }

  lemma PeerStepTells(s: State, h: Handle, b: Peer.Action)
    requires AllTold(s) && Enabled(s, PeerStep(h, b))
    ensures AllTold(Apply(s, PeerStep(h, b)))
  {
    hide Peer.Apply, Peer.Ready, Peer.HasRoom, Peer.Inv, Peer.Exited;
    PeerExits(s.live[h].stage.p, b);
  }

  lemma AllToldStep(s: State, a: Action)
    requires Inv(s) && AllTold(s) && Enabled(s, a)
    ensures AllTold(Apply(s, a))
  {
    hide Peer.Apply, Peer.Ready, Peer.HasRoom, Peer.Inv, Peer.Exited, Peer.Init, PeersSound, WithinLimit;
    match a {
      case PeerStep(h, b) => PeerStepTells(s, h, b);
      case Disconnect(reason) => DisconnectTells(s, reason);
      case _ =>
    }
  }

  lemma {:induction false} AllToldAt(ss: seq<State>, acts: seq<Action>, maxPeers: nat, topics: nat, protocols: nat, i: nat)
    requires Run(ss, acts, maxPeers, topics, protocols) && i < |ss|
    ensures AllTold(ss[i])
  {
    hide Apply, Enabled, Inv, AllTold;
    if i == 0 {
      NoPeers(maxPeers, topics, protocols);
    } else {
      AllToldAt(ss, acts, maxPeers, topics, protocols, i - 1);
      Reachable(ss, acts, maxPeers, topics, protocols, i - 1);
      assert Next(ss[i - 1], acts[i - 1], ss[i - 1 + 1]);
      AllToldStep(ss[i - 1], acts[i - 1]);
    }
  }

  /** While the server waits for its peers to shut down every one of them has left its run loop. */
  lemma ShutdownReachesAll(
      ss: seq<State>, acts: seq<Action>, maxPeers: nat, topics: nat, protocols: nat, i: nat, h: Handle)
    requires Run(ss, acts, maxPeers, topics, protocols) && i < |ss| && h in ss[i].live
    requires ss[i].loop == Draining || ss[i].loop == Done
    ensures ss[i].loop == Draining && Leaving(ss[i].live[h].stage)
  {
    AllToldAt(ss, acts, maxPeers, topics, protocols, i);
    if ss[i].loop == Done { StoppedMeansNoneLive(ss, acts, maxPeers, topics, protocols, i); }
  }

  // ---------------------------------------------------------------- who is a peer

  /** Peers come and go only here: the node taken from the channel becomes a peer with a goroutine of its
      own, and a goroutine that has reported its error is gone together with its entry. */
  lemma MembersExact(s: State, a: Action)
    requires Inv(s) && Enabled(s, a)
    ensures var t := Apply(s, a); match a
      case TakeSlot =>
        && t.peers.Keys == s.peers.Keys + {s.slot.value} && t.live.Keys == s.live.Keys + {s.next} && s.next !in s.live
        && t.slot.None? && t.live[s.next] == RunPeer(s.slot.value, Running(Peer.Init(s.topics, s.protocols)))
      case DelPeer(h) => t.peers.Keys == s.peers.Keys - {s.live[h].id} && t.live.Keys == s.live.Keys - {h}
      case _ => t.peers == s.peers && t.live.Keys == s.live.Keys
  {
    hide Peer.Apply, Peer.Ready, Peer.HasRoom, Peer.Inv, Peer.Exited, Peer.Init, WithinLimit, LoopSound;
  }

  /** Whatever else happens a peer's goroutine goes on, until it reports its error. */
  lemma {:induction false} StaysLive(
      ss: seq<State>, acts: seq<Action>, maxPeers: nat, topics: nat, protocols: nat, i: nat, j: nat, h: Handle)
    requires Run(ss, acts, maxPeers, topics, protocols) && i <= j < |ss| && h in ss[i].live
    ensures h in ss[j].live <==> forall l :: i <= l < j ==> acts[l] != DelPeer(h)
    ensures h < ss[i].next <= ss[j].next
    decreases j
  {
    hide Apply, Enabled, Inv;
    Reachable(ss, acts, maxPeers, topics, protocols, i);
    HandlesKnown(ss[i], h);
    if i < j {
      StaysLive(ss, acts, maxPeers, topics, protocols, i, j - 1, h);
      Reachable(ss, acts, maxPeers, topics, protocols, j - 1);
      assert Next(ss[j - 1], acts[j - 1], ss[j - 1 + 1]);
      MembersExact(ss[j - 1], acts[j - 1]);
      NextGrows(ss[j - 1], acts[j - 1]);
    }
  }

  lemma HandlesKnown(s: State, h: Handle)
    requires Inv(s) && h in s.live
    ensures h < s.next
  {
    hide Peer.Inv;
  }

  lemma NextGrows(s: State, a: Action)
    requires Enabled(s, a)
    ensures Apply(s, a).next >= s.next
  {
    hide Peer.Apply, Peer.Ready, Peer.HasRoom, Peer.Init;
  }

  // ---------------------------------------------------------------- the shutdown never gets stuck

  lemma PeerMoves(p: Peer.State) returns (a: Peer.Action)
    requires Peer.Inv(p) && p.pc != Peer.Selecting && p.pc != Peer.Returned
    ensures Peer.Ready(p, a) && Peer.HasRoom(p, a) && !a.TakeDisconnect?
  {
    a := match p.pc
      case Starting => Peer.StartProtocols
      case HandsOn => Peer.AllowNextWrite
      case Leaving => Peer.Close
      case _ =>
        if p.readers > 0 then Peer.ReaderFails(Peer.Failure(""))
        else if p.protos > 0 then Peer.ProtocolReturns(None) else Peer.Finish;
  }

  /** The steps that bring the shutdown forward: the loop's own, and those of the peers it waits for. */
  predicate Progress(s: State, a: Action) {
    match s.loop
    case Shutdown(_) => a.ShutdownNext? || a.ShutdownDone?
    case Disconnecting(h, _) => a.Disconnect? || (a.PeerStep? && a.h == h) || (a.PeerReturns? && a.h == h)
    case Draining => a.Finish? || a.DelPeer? || a.PeerStep? || a.PeerReturns?
    case _ => false
  }

  lemma DisconnectingMoves(s: State) returns (a: Action)
    requires Inv(s) && s.loop.Disconnecting?
    ensures Enabled(s, a) && Progress(s, a)
  {
    hide Peer.Apply, WithinLimit, OneToOne;
    var h, st := s.loop.h, s.live[s.loop.h].stage;
    if st.Dropping? || st.p.closed || st.p.pc == Peer.Selecting {
      a := Disconnect(if s.loop.rest.None? then NETWORK_ERROR else QUITTING);
    } else {
      ClosedWhen(st.p);
      var b := PeerMoves(st.p);
      a := PeerStep(h, b);
    }
  }

  lemma ClosedWhen(p: Peer.State)
    requires Peer.Inv(p)
    ensures p.closed <==> p.pc in {Peer.Waiting, Peer.Returned}
  {
  }

  lemma DrainingMoves(s: State) returns (a: Action)
    requires Inv(s) && AllTold(s) && s.loop == Draining
    ensures Enabled(s, a) && Progress(s, a)
  {
    hide Peer.Apply, WithinLimit, Peer.Ready, Peer.HasRoom, Peer.Inv;
    if |s.peers| == 0 {
      a := Finish;
    } else {
      var id :| id in s.peers;
      var h := s.peers[id];
      assert Left(s, h);
      match s.live[h].stage {
        case Dropping(_) => a := DelPeer(h);
        case Running(p) =>
          if p.pc == Peer.Returned {
            a := PeerReturns(h);
          } else {
            var b := PeerMoves(p);
            a := PeerStep(h, b);
          }
      }
    }
  }

  /** From the moment the server has begun to disconnect its peers, and during every disconnection before,
      some step brings it forward: it never waits for something that cannot happen. */
  lemma NeverStuck(ss: seq<State>, acts: seq<Action>, maxPeers: nat, topics: nat, protocols: nat, i: nat) returns (a: Action)
    requires Run(ss, acts, maxPeers, topics, protocols) && i < |ss|
    requires ss[i].loop.Shutdown? || ss[i].loop.Disconnecting? || ss[i].loop.Draining?
    ensures Enabled(ss[i], a) && Progress(ss[i], a)
  {
    hide Peer.Apply, Peer.Ready, Peer.HasRoom, Inv, AllTold;
    Reachable(ss, acts, maxPeers, topics, protocols, i);
    AllToldAt(ss, acts, maxPeers, topics, protocols, i);
    match ss[i].loop {
      case Disconnecting(_, _) => a := DisconnectingMoves(ss[i]);
      case Draining => a := DrainingMoves(ss[i]);
      case Shutdown(todo) =>
        if todo == {} {
          a := ShutdownDone;
        } else {
          var h :| h in todo;
          a := ShutdownNext(h);
        }
    }
  }

  /** An idle loop takes whatever comes: a request, which sees the live peers and changes nothing; the
      stop; a pending node; an event; a goroutine that reports its error. */
  lemma IdleTakesAll(ss: seq<State>, acts: seq<Action>, maxPeers: nat, topics: nat, protocols: nat, i: nat)
    requires Run(ss, acts, maxPeers, topics, protocols) && i < |ss| && ss[i].loop == Select
    ensures var s := ss[i];
      && Enabled(s, Ask) && Enabled(Apply(s, Ask), AskDone) && Apply(Apply(s, Ask), AskDone) == s
      && (s.quit ==> Enabled(s, SeeQuit)) && (s.slot.Some? ==> Enabled(s, TakeSlot))
      && (forall id :: Enabled(s, Disc(id)) && (s.dbHome ==> Enabled(s, Conn(id))))
      && (forall h :: h in s.live && s.live[h].stage.Dropping? ==> Enabled(s, DelPeer(h)))
    ensures forall id :: id in Apply(ss[i], Ask).loop.seen <==> exists h :: h in ss[i].live && ss[i].live[h].id == id
  {
    hide Peer.Apply, Peer.Ready, Peer.HasRoom;
    Reachable(ss, acts, maxPeers, topics, protocols, i);
    forall id | id in ss[i].peers ensures exists h :: h in ss[i].live && ss[i].live[h].id == id {
      assert ss[i].peers[id] in ss[i].live;
    }
  }
}
