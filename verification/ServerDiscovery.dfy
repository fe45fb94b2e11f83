/** How the server follows the discovery events: exactly which steps leave it serving a node that was
    last reported gone, or not serving one that was last reported connected. */
module ServerDiscovery {
  import opened Basics
  import Peer
  import opened Server

  /** The nodes whose last event is a connection. */
  function Reported(acts: seq<Action>): (r: set<ID>) {
    if acts == [] then {} else Report(Reported(acts[..|acts| - 1]), acts[|acts| - 1])
  }

  function Report(before: set<ID>, a: Action): (r: set<ID>) {
    match a
    case Conn(id) => before + {id}
    case Disc(id) => before - {id}
    case _ => before
  }

  lemma ReportedSnoc(acts: seq<Action>, a: Action)
    ensures Reported(acts + [a]) == Report(Reported(acts), a)
  {
    assert (acts + [a])[..|acts|] == acts;
  }

  /** The goroutine's peer has left its run loop. */
  predicate Leaving(st: Stage) { st.Dropping? || Peer.Exited(st.p) }

  /** Accepted, and on the way to becoming a peer. */
  predicate Pending(s: State, id: ID) { s.slot == Some(id) || (s.loop.SendSlot? && s.loop.id == id) }

  /** A peer that is in its run loop and is not being told to leave it after a disconnection. */
  predicate Working(s: State, id: ID) {
    && id in s.peers && s.peers[id] in s.live && !Leaving(s.live[s.peers[id]].stage)
    && !(s.loop.Disconnecting? && s.loop.rest.None? && s.loop.h == s.peers[id])
  }

  predicate Serves(s: State, id: ID) { Pending(s, id) || Working(s, id) }

  // ---------------------------------------------------------------- the ways of losing track

  /** A connection is reported while the old peer of that node is still leaving, or at the limit. */
  predicate ConnIgnored(s: State, a: Action, id: ID) {
    a == Conn(id) && !Serves(s, id) && (id in s.peers || |s.peers| >= s.maxPeers)
  }

  /** A disconnection is reported while the node waits in the server's own channel. */
  predicate DiscIgnored(s: State, a: Action, id: ID) { a == Disc(id) && s.slot == Some(id) }

  /** The node's peer ends its run loop by itself, on an error it takes from one of its channels. */
  predicate PeerEnds(s: State, a: Action, id: ID) {
    && Working(s, id) && a.PeerStep? && a.h == s.peers[id]
    && (a.a.TakeReadError? || a.a.TakeProtocolError? ||
        (a.a.TakeWriteResult? && s.live[a.h].stage.p.writeErr != [] && s.live[a.h].stage.p.writeErr[0].Some?))
  }

  /** The stopping server disconnects it. */
  predicate ShutsDown(s: State, a: Action, id: ID) {
    Working(s, id) && a.Disconnect? && s.loop.Disconnecting? && s.loop.h == s.peers[id]
  }

  predicate LosesTrack(s: State, a: Action, id: ID) {
    ConnIgnored(s, a, id) || DiscIgnored(s, a, id) || PeerEnds(s, a, id) || ShutsDown(s, a, id)
  }

  // ---------------------------------------------------------------- one step

  lemma PeerExits(p: Peer.State, a: Peer.Action)
    requires Peer.Ready(p, a)
    ensures Peer.Exited(Peer.Apply(p, a)) <==>
      Peer.Exited(p) || a.TakeReadError? || a.TakeProtocolError? || a.TakeDisconnect? || (a.TakeWriteResult? && p.writeErr[0].Some?)
  {
  }

  lemma ClosedExited(p: Peer.State)
    requires Peer.Inv(p) && p.closed
    ensures Peer.Exited(p)
  {
  }

  lemma StartsWorking(topics: nat, protocols: nat)
    ensures !Peer.Exited(Peer.Init(topics, protocols))
  {
  }

  lemma PeerStepServes(s: State, h: Handle, b: Peer.Action, id: ID)
    requires Inv(s) && Enabled(s, PeerStep(h, b))
    ensures Serves(Apply(s, PeerStep(h, b)), id) <==> Serves(s, id) && !PeerEnds(s, PeerStep(h, b), id)
  {
    hide Peer.Inv, Peer.Ready, Peer.Apply, Peer.HasRoom, Peer.Exited;
    PeerExits(s.live[h].stage.p, b);
    if b.TakeWriteResult? { ReadyTakes(s.live[h].stage.p, b); }
  }

  lemma ReadyTakes(p: Peer.State, a: Peer.Action)
    requires Peer.Ready(p, a) && a.TakeWriteResult?
    ensures p.writeErr != []
  {
  }

  lemma DisconnectServes(s: State, reason: nat, id: ID)
    requires Inv(s) && Enabled(s, Disconnect(reason))
    ensures Serves(Apply(s, Disconnect(reason)), id) <==> Serves(s, id) && !ShutsDown(s, Disconnect(reason), id)
  {
    hide Peer.Inv, Peer.Ready, Peer.Apply, Peer.HasRoom, Peer.Exited;
    var st := s.live[s.loop.h].stage;
    if st.Running? {
      if st.p.closed {
        ClosedExited(st.p);
      } else {
        ReadyAnyReason(st.p, reason);
        PeerExits(st.p, Peer.TakeDisconnect(reason));
      }
    }
  }

  lemma ReturnedExited(p: Peer.State)
    requires p.pc == Peer.Returned
    ensures Peer.Exited(p)
  {
  }

  lemma RemoveServes(s: State, h: Handle, id: ID)
    requires Inv(s) && Enabled(s, DelPeer(h))
    ensures Serves(Apply(s, DelPeer(h)), id) <==> Serves(s, id)
  {
    hide Peer.Inv, Peer.Ready, Peer.Apply, Peer.HasRoom, Peer.Exited;
  }

  lemma TakeServes(s: State, id: ID)
    requires Inv(s) && Enabled(s, TakeSlot)
    ensures Serves(Apply(s, TakeSlot), id) <==> Serves(s, id)
  {
    hide Peer.Inv, Peer.Ready, Peer.Apply, Peer.HasRoom, Peer.Exited, Peer.Init;
    StartsWorking(s.topics, s.protocols);
  }

  lemma ReturnServes(s: State, h: Handle, id: ID)
    requires Inv(s) && Enabled(s, PeerReturns(h))
    ensures Serves(Apply(s, PeerReturns(h)), id) <==> Serves(s, id)
  {
    hide Peer.Inv, Peer.Ready, Peer.Apply, Peer.HasRoom, Peer.Exited, Peer.Init;
    ReturnedExited(s.live[h].stage.p);
  }

  /** Steps of the loop that touch neither its map nor a goroutine. */
  lemma LoopServes(s: State, a: Action, id: ID)
    requires Inv(s) && Enabled(s, a) && !a.TakeSlot? && !a.DelPeer? && !a.Disconnect? && !a.PeerStep? && !a.PeerReturns?
    ensures Serves(Apply(s, a), id) <==>
      if a == Conn(id) then Serves(s, id) || (id !in s.peers && |s.peers| < s.maxPeers)
      else if a == Disc(id) then s.slot == Some(id)
      else Serves(s, id)
  {
    hide Peer.Inv, Peer.Ready, Peer.Apply, Peer.HasRoom, Peer.Exited, Peer.Init, PeersSound, AddPeer, RemovePeer, WithStage;
  }

  /** Whether the server serves a node after a step. */
  lemma ServesStep(s: State, a: Action, id: ID)
    requires Inv(s) && Enabled(s, a)
    ensures Serves(Apply(s, a), id) <==>
      if a == Conn(id) then Serves(s, id) || (id !in s.peers && |s.peers| < s.maxPeers)
      else if a == Disc(id) then s.slot == Some(id)
      else Serves(s, id) && !PeerEnds(s, a, id) && !ShutsDown(s, a, id)
  {
    hide Inv, Enabled, Apply, Serves;
    match a {
      case PeerStep(h, b) => PeerStepServes(s, h, b, id);
      case Disconnect(reason) => DisconnectServes(s, reason, id);
      case TakeSlot => TakeServes(s, id);
      case PeerReturns(h) => ReturnServes(s, h, id);
      case DelPeer(h) => RemoveServes(s, h, id);
      case _ => LoopServes(s, a, id);
    }
  }

  /** A step makes the server lose track of a node it was following exactly in these four ways. */
  lemma LosesTrackExact(s: State, acts: seq<Action>, a: Action, id: ID)
    requires Inv(s) && Enabled(s, a) && (id in Reported(acts) <==> Serves(s, id))
    ensures (id in Reported(acts + [a]) <==> Serves(Apply(s, a), id)) <==> !LosesTrack(s, a, id)
  {
    hide Apply, Enabled, Inv, Working;
    ServesStep(s, a, id);
    ReportedSnoc(acts, a);
  }

  /** A node that is not served stays so until the next connection is reported. */
  lemma UnservedStays(s: State, a: Action, id: ID)
    requires Inv(s) && Enabled(s, a) && !Serves(s, id) && a != Conn(id)
    ensures !Serves(Apply(s, a), id)
  {
    hide Apply, Enabled, Inv, Working;
    ServesStep(s, a, id);
  }

  // ---------------------------------------------------------------- whole runs

  /** Over every run without such a step the server serves exactly the nodes reported connected. */
  lemma {:induction false} FollowsDiscovery(
      ss: seq<State>, acts: seq<Action>, maxPeers: nat, topics: nat, protocols: nat, i: nat, id: ID)
    requires Run(ss, acts, maxPeers, topics, protocols) && i < |ss|
    requires forall j :: 0 <= j < i ==> !LosesTrack(ss[j], acts[j], id)
    ensures id in Reported(acts[..i]) <==> Serves(ss[i], id)
  {
    hide Apply, Enabled, Inv, LosesTrack;
    if i == 0 {
      assert !Serves(ss[0], id);
    } else {
      FollowsDiscovery(ss, acts, maxPeers, topics, protocols, i - 1, id);
      Reachable(ss, acts, maxPeers, topics, protocols, i - 1);
      assert Next(ss[i - 1], acts[i - 1], ss[i - 1 + 1]);
      LosesTrackExact(ss[i - 1], acts[..i - 1], acts[i - 1], id);
      assert acts[..i] == acts[..i - 1] + [acts[i - 1]];
    }
  }

  /** The actions are possible one after the other and lead to s. */
  ghost predicate Leads(maxPeers: nat, topics: nat, protocols: nat, acts: seq<Action>, s: State) {
    exists ss: seq<State> :: Run(ss, acts, maxPeers, topics, protocols) && ss[|acts|] == s
  }

  lemma LeadsStart(maxPeers: nat, topics: nat, protocols: nat)
    ensures Leads(maxPeers, topics, protocols, [], Init(maxPeers, topics, protocols))
  {
    var ss := [Init(maxPeers, topics, protocols)];
    assert Run(ss, [], maxPeers, topics, protocols);
  }

  lemma LeadsOn(maxPeers: nat, topics: nat, protocols: nat, acts: seq<Action>, s: State, a: Action)
    requires Leads(maxPeers, topics, protocols, acts, s) && Enabled(s, a)
    ensures Leads(maxPeers, topics, protocols, acts + [a], Apply(s, a))
    ensures Reported(acts + [a]) == Report(Reported(acts), a)
  {
    hide Enabled, Apply, Init;
    ReportedSnoc(acts, a);
    var ss: seq<State> :| Run(ss, acts, maxPeers, topics, protocols) && ss[|acts|] == s;
    var more := ss + [Apply(s, a)];
    forall i | 0 <= i < |acts + [a]| ensures Next(more[i], (acts + [a])[i], more[i + 1]) {
      if i < |acts| { assert Next(ss[i], acts[i], ss[i + 1]); }
    }
    assert Run(more, acts + [a], maxPeers, topics, protocols);
  }

  /** A node reported connected has been accepted and waits in the channel. */
  lemma Accepted(maxPeers: nat, topics: nat, protocols: nat) returns (acts: seq<Action>, s: State)
    requires maxPeers > 0
    ensures Leads(maxPeers, topics, protocols, acts, s) && Reported(acts) == {1}
    ensures s == Init(maxPeers, topics, protocols).(dbHome := true, homenode := true, slot := Some(1))
  {
    hide Leads, Reported;
    LeadsStart(maxPeers, topics, protocols);
    assert Reported([]) == {} by { NothingReported(); }
    s := Init(maxPeers, topics, protocols);
    LeadsOn(maxPeers, topics, protocols, [], s, SetHome);
    s := Apply(s, SetHome);
    LeadsOn(maxPeers, topics, protocols, [] + [SetHome], s, Conn(1));
    s := Apply(s, Conn(1));
    LeadsOn(maxPeers, topics, protocols, [] + [SetHome] + [Conn(1)], s, PutSlot);
    s := Apply(s, PutSlot);
    acts := [] + [SetHome] + [Conn(1)] + [PutSlot];
  }

  lemma NothingReported()
    ensures Reported([]) == {}
  {
  }

  /** Reported gone there, it becomes a peer all the same. */
  lemma DiscLost(maxPeers: nat, topics: nat, protocols: nat) returns (acts: seq<Action>, s: State, t: State)
    requires maxPeers > 0
    ensures Leads(maxPeers, topics, protocols, acts, s) && DiscIgnored(s, Disc(1), 1)
    ensures Leads(maxPeers, topics, protocols, acts + [Disc(1)] + [TakeSlot], t)
    ensures Reported(acts + [Disc(1)] + [TakeSlot]) == {} && Working(t, 1)
  {
    hide Leads, Reported;
    acts, s := Accepted(maxPeers, topics, protocols);
    LeadsOn(maxPeers, topics, protocols, acts, s, Disc(1));
    t := Apply(s, Disc(1));
    LeadsOn(maxPeers, topics, protocols, acts + [Disc(1)], t, TakeSlot);
    t := Apply(t, TakeSlot);
  }

  /** The node has become peer 0, was reported gone and told to leave. */
  lemma Leaves(maxPeers: nat, topics: nat, protocols: nat) returns (acts: seq<Action>, s: State)
    requires maxPeers > 0
    ensures Leads(maxPeers, topics, protocols, acts, s) && Reported(acts) == {}
    ensures s.loop == Select && s.dbHome && 1 in s.peers && s.slot.None?
    ensures s.peers[1] in s.live && Leaving(s.live[s.peers[1]].stage)
  {
    hide Leads, Reported;
    acts, s := Accepted(maxPeers, topics, protocols);
    LeadsOn(maxPeers, topics, protocols, acts, s, TakeSlot);
    s := Apply(s, TakeSlot);
    LeadsOn(maxPeers, topics, protocols, acts + [TakeSlot], s, PeerStep(0, Peer.StartProtocols));
    s := Apply(s, PeerStep(0, Peer.StartProtocols));
    LeadsOn(maxPeers, topics, protocols, acts + [TakeSlot] + [PeerStep(0, Peer.StartProtocols)], s, Disc(1));
    s := Apply(s, Disc(1));
    acts := acts + [TakeSlot] + [PeerStep(0, Peer.StartProtocols)] + [Disc(1)];
    LeadsOn(maxPeers, topics, protocols, acts, s, Disconnect(NETWORK_ERROR));
    s := Apply(s, Disconnect(NETWORK_ERROR));
    acts := acts + [Disconnect(NETWORK_ERROR)];
  }

  /** Reported connected again before it is gone, it is not served. */
  lemma ConnLost(maxPeers: nat, topics: nat, protocols: nat) returns (acts: seq<Action>, s: State, t: State)
    requires maxPeers > 0
    ensures Leads(maxPeers, topics, protocols, acts, s) && ConnIgnored(s, Conn(1), 1)
    ensures Leads(maxPeers, topics, protocols, acts + [Conn(1)], t)
    ensures 1 in Reported(acts + [Conn(1)]) && !Serves(t, 1)
  {
    hide Leads, Reported;
    acts, s := Leaves(maxPeers, topics, protocols);
    LeadsOn(maxPeers, topics, protocols, acts, s, Conn(1));
    t := Apply(s, Conn(1));
  }
}
