/** The server: its run loop, one runPeer goroutine per connected peer, and the discovery events
    that drive it, as steps that may interleave in any order. */
module Server {
  import opened Basics
  import Peer

  type ID = nat
  /** A runPeer goroutine. */
  type Handle = nat

  /** runPeer is inside Peer.run, or has its error in hand and is sending it to delpeer. */
  datatype Stage = Running(p: Peer.State) | Dropping(err: Option<Peer.Err>)

  datatype RunPeer = RunPeer(id: ID, stage: Stage)

  /** Where the run loop is.  Answering: it ran a Peers or PeerCount request, which saw these
      identities, and is handing control back to the caller.  SendSlot: inside the send to its own one-slot channel.
      Disconnecting: inside Peer.Disconnect, back to the select (None) or to the shutdown loop. */
  datatype Loop =
    | Select
    | Answering(seen: set<ID>)
    | SendSlot(id: ID)
    | Disconnecting(h: Handle, rest: Option<set<Handle>>)
    | Shutdown(todo: set<Handle>)
    | Draining
    | Done

  datatype State = State(
    loop: Loop,
    peers: map<ID, Handle>,
    live: map<Handle, RunPeer>,
    // The buffered node in checkpointAddPeer.
    slot: Option<ID>,
    quit: bool,
    maxPeers: nat,
    next: Handle,
    // Whether the node database and the server know the local node.
    dbHome: bool,
    homenode: bool,
    // Read loops and protocols of every peer.
    topics: nat,
    protocols: nat)

  function Init(maxPeers: nat, topics: nat, protocols: nat): (r: State) {
    State(Select, map[], map[], None, false, maxPeers, 0, false, false, topics, protocols)
  }

  datatype Action =
    | Stop
    | SetHome
    | Ask
    | AskDone
    | Conn(id: ID)
    | PutSlot
    | TakeSlot
    | Disc(id: ID)
    | Disconnect(reason: nat)
    | PeerStep(h: Handle, a: Peer.Action)
    | PeerReturns(h: Handle)
    | DelPeer(h: Handle)
    | SeeQuit
    | ShutdownNext(h: Handle)
    | ShutdownDone
    | Finish

  // The `DiscReason` of a reported disconnection and of the shutdown.
  const NETWORK_ERROR: nat := 1
  const QUITTING: nat := 8

  predicate LoopAction(a: Action) { !(a.Stop? || a.SetHome? || a.PeerStep? || a.PeerReturns?) }

  /** What Disconnect does to a peer that is not closed yet: the run loop takes the reason. */
  predicate CanTakeDisconnect(p: Peer.State) { Peer.Ready(p, Peer.TakeDisconnect(0)) }

  predicate Enabled(s: State, a: Action) {
    match a
    case Stop => true
    case SetHome => true
    case Ask => s.loop == Select
    case AskDone => s.loop.Answering?
    case Conn(_) => s.loop == Select && s.dbHome  // discovery reports nodes only once it knows the local one
    case PutSlot => s.loop.SendSlot? && s.slot.None?
    case TakeSlot => s.loop == Select && s.slot.Some?
    case Disc(_) => s.loop == Select
    case Disconnect(reason) =>
      s.loop.Disconnecting? && s.loop.h in s.live && reason == (if s.loop.rest.None? then NETWORK_ERROR else QUITTING) &&
      (var st := s.live[s.loop.h].stage; st.Dropping? || st.p.closed || CanTakeDisconnect(st.p))
    case PeerStep(h, a) =>
      h in s.live && s.live[h].stage.Running? && !a.TakeDisconnect? &&
      Peer.Ready(s.live[h].stage.p, a) && Peer.HasRoom(s.live[h].stage.p, a)
    case PeerReturns(h) => h in s.live && s.live[h].stage.Running? && s.live[h].stage.p.pc == Peer.Returned
    case DelPeer(h) => s.loop in {Select, Draining} && h in s.live && s.live[h].stage.Dropping?
    case SeeQuit => s.loop == Select && s.quit
    case ShutdownNext(h) => s.loop.Shutdown? && h in s.loop.todo
    case ShutdownDone => s.loop.Shutdown? && s.loop.todo == {}
    case Finish => s.loop == Draining && |s.peers| == 0
  }

  function WithStage(s: State, h: Handle, st: Stage): (r: State)
    requires h in s.live
  {
    s.(live := s.live[h := s.live[h].(stage := st)])
  }

  /** A new peer: its goroutine starts and the map points at it. */
  function AddPeer(s: State): (r: State)
    requires s.slot.Some?
  {
    var g := RunPeer(s.slot.value, Running(Peer.Init(s.topics, s.protocols)));
    s.(slot := None, peers := s.peers[s.slot.value := s.next], next := s.next + 1, live := s.live[s.next := g])
  }

  function RemovePeer(s: State, h: Handle): (r: State)
    requires h in s.live
  {
    s.(peers := s.peers - {s.live[h].id}, live := s.live - {h})
  }

  function Apply(s: State, a: Action): (r: State)
    requires Enabled(s, a)
  {
    match a
    case Stop => s.(quit := true)
    case SetHome => s.(dbHome := true)
    case Ask => s.(loop := Answering(s.peers.Keys))
    case AskDone => s.(loop := Select)
    case Conn(id) =>
      s.(homenode := true, loop := if |s.peers| >= s.maxPeers || id in s.peers then Select else SendSlot(id))
    case PutSlot => s.(slot := Some(s.loop.id), loop := Select)
    case TakeSlot => AddPeer(s)
    case Disc(id) => if id in s.peers then s.(loop := Disconnecting(s.peers[id], None)) else s
    case Disconnect(reason) =>
      var st := s.live[s.loop.h].stage;
      var back := if s.loop.rest.None? then Select else Shutdown(s.loop.rest.value);
      (if st.Dropping? || st.p.closed then s
       else WithStage(s, s.loop.h, Running(Peer.Apply(st.p, Peer.TakeDisconnect(reason))))).(loop := back)
    case PeerStep(h, a) => WithStage(s, h, Running(Peer.Apply(s.live[h].stage.p, a)))
    case PeerReturns(h) => WithStage(s, h, Dropping(s.live[h].stage.p.err))
    case DelPeer(h) => RemovePeer(s, h)
    case SeeQuit => s.(loop := Shutdown(s.peers.Values))
    case ShutdownNext(h) => s.(loop := Disconnecting(h, Some(s.loop.todo - {h})))
    case ShutdownDone => s.(loop := Draining)
    case Finish => s.(loop := Done)
  }

  ghost predicate Next(s: State, a: Action, s': State) { Enabled(s, a) && s' == Apply(s, a) }

  // ---------------------------------------------------------------- what every state keeps

  /** The map entries and the live goroutines are each other's inverses. */
  ghost predicate OneToOne(s: State) {
    && (forall id :: id in s.peers ==> s.peers[id] in s.live && s.live[s.peers[id]].id == id)
    && (forall h :: h in s.live ==> s.live[h].id in s.peers && s.peers[s.live[h].id] == h)
  }

  ghost predicate PeersSound(s: State) {
    forall h :: h in s.live ==> h < s.next && match s.live[h].stage
      case Running(p) => Peer.Inv(p)
      case Dropping(err) => err.Some?
  }

  ghost predicate WithinLimit(s: State) {
    && |s.peers| + (if s.slot.Some? then 1 else 0) <= s.maxPeers
    && (s.slot.Some? ==> s.slot.value !in s.peers && s.homenode)
    && (s.loop.SendSlot? ==> s.loop.id !in s.peers && |s.peers| < s.maxPeers && s.homenode)
    && (|s.peers| > 0 ==> s.homenode)
  }

  ghost predicate LoopSound(s: State) {
    && (s.loop.Disconnecting? ==> s.loop.h in s.live && (s.loop.rest.Some? ==> s.loop.rest.value <= s.live.Keys && s.quit))
    && (s.loop.Shutdown? ==> s.loop.todo <= s.live.Keys && s.quit)
    && (s.loop.Answering? ==> s.loop.seen == s.peers.Keys)
    && (s.loop.Draining? ==> s.quit)
    && (s.loop.Done? ==> |s.peers| == 0 && s.quit)
  }

  ghost predicate Inv(s: State) { OneToOne(s) && PeersSound(s) && WithinLimit(s) && LoopSound(s) }

  lemma InvInit(maxPeers: nat, topics: nat, protocols: nat)
    ensures Inv(Init(maxPeers, topics, protocols))
  {
  }

  lemma AddPeerOneToOne(s: State)
    requires OneToOne(s) && s.slot.Some? && s.slot.value !in s.peers && s.next !in s.live
    ensures OneToOne(AddPeer(s))
  {
    hide Peer.Init;
  }

  lemma RemovePeerOneToOne(s: State, h: Handle)
    requires OneToOne(s) && h in s.live
    ensures OneToOne(RemovePeer(s, h))
  {
  }

  lemma WithStageOneToOne(s: State, h: Handle, st: Stage)
    requires OneToOne(s) && h in s.live
    ensures OneToOne(WithStage(s, h, st))
  {
  }

  lemma OneToOneStep(s: State, a: Action)
    requires Inv(s) && Enabled(s, a)
    ensures OneToOne(Apply(s, a))
  {
    hide Peer.Inv, Peer.Ready, Peer.Apply, Peer.HasRoom, Peer.Init, LoopSound, AddPeer, RemovePeer, WithStage;
    match a {
      case TakeSlot => AddPeerOneToOne(s);
      case DelPeer(h) => RemovePeerOneToOne(s, h);
      case PeerStep(h, b) => WithStageOneToOne(s, h, Running(Peer.Apply(s.live[h].stage.p, b)));
      case PeerReturns(h) => WithStageOneToOne(s, h, Dropping(s.live[h].stage.p.err));
      case Disconnect(reason) =>
        var st := s.live[s.loop.h].stage;
        if st.Running? && !st.p.closed {
          ReadyAnyReason(st.p, reason);
          WithStageOneToOne(s, s.loop.h, Running(Peer.Apply(st.p, Peer.TakeDisconnect(reason))));
        }
      case _ =>
    }
  }

  lemma PeersSoundStep(s: State, a: Action)
    requires Inv(s) && Enabled(s, a)
    ensures PeersSound(Apply(s, a))
  {
    hide Peer.Inv, Peer.Ready, Peer.Apply, Peer.HasRoom, OneToOne, WithinLimit;
    match a {
      case TakeSlot => Peer.InvInit(s.topics, s.protocols);
      case Disconnect(reason) =>
        var st := s.live[s.loop.h].stage;
        if st.Running? && !st.p.closed {
          ReadyAnyReason(st.p, reason);
          Peer.InvApply(st.p, Peer.TakeDisconnect(reason));
        }
      case PeerStep(h, b) => Peer.InvApply(s.live[h].stage.p, b);
      case PeerReturns(h) => ReturnedHasError(s.live[h].stage.p);
      case DelPeer(h) =>
      case _ => SameLive(s, a);
    }
  }

  lemma SameLive(s: State, a: Action)
    requires Enabled(s, a) && !a.TakeSlot? && !a.DelPeer? && !a.Disconnect? && !a.PeerStep? && !a.PeerReturns?
    ensures Apply(s, a).live == s.live && Apply(s, a).next == s.next
  {
    hide Peer.Apply, Peer.Ready, Peer.HasRoom, AddPeer, RemovePeer, WithStage;
  }

  lemma ReadyAnyReason(p: Peer.State, reason: nat)
    ensures Peer.Ready(p, Peer.TakeDisconnect(0)) <==> Peer.Ready(p, Peer.TakeDisconnect(reason))
  {
  }

  lemma ReturnedHasError(p: Peer.State)
    requires Peer.Inv(p) && p.pc == Peer.Returned
    ensures p.err.Some?
  {
  }

  /** Steps of the peers, and loop steps that neither add nor drop a peer, leave the count alone. */
  lemma SamePeers(s: State, a: Action)
    requires Enabled(s, a) && !a.TakeSlot? && !a.DelPeer? && !a.Conn? && !a.PutSlot?
    ensures var t := Apply(s, a); t.peers == s.peers && t.slot == s.slot && t.maxPeers == s.maxPeers && t.homenode == s.homenode
    ensures Apply(s, a).loop.SendSlot? ==> Apply(s, a).loop == s.loop
  {
    hide Peer.Apply, Peer.Ready, Peer.HasRoom;
  }

  lemma AddPeerLimit(s: State)
    requires s.loop == Select && s.slot.Some? && WithinLimit(s)
    ensures WithinLimit(AddPeer(s))
  {
    assert s.peers[s.slot.value := s.next].Keys == s.peers.Keys + {s.slot.value};
  }

  lemma RemovePeerLimit(s: State, h: Handle)
    requires h in s.live && !s.loop.SendSlot? && WithinLimit(s)
    ensures WithinLimit(RemovePeer(s, h))
  {
    var id := s.live[h].id;
    assert (s.peers - {id}).Keys == s.peers.Keys - {id};
    assert |s.peers.Keys - {id}| <= |s.peers.Keys|;
  }

  lemma WithinLimitStep(s: State, a: Action)
    requires Inv(s) && Enabled(s, a)
    ensures WithinLimit(Apply(s, a))
  {
    hide OneToOne, PeersSound, LoopSound, AddPeer, RemovePeer, WithStage, Peer.Apply, Peer.Inv, Peer.Ready, Peer.HasRoom;
    match a {
      case TakeSlot => AddPeerLimit(s);
      case DelPeer(h) => RemovePeerLimit(s, h);
      case Conn(_) =>
      case PutSlot =>
      case _ => SamePeers(s, a);
    }
  }

  lemma SeeQuitLoop(s: State)
    requires OneToOne(s) && Enabled(s, SeeQuit)
    ensures LoopSound(Apply(s, SeeQuit))
  {
    hide Peer.Apply, Peer.Ready, Peer.HasRoom;
  }

  lemma DiscLoop(s: State, id: ID)
    requires OneToOne(s) && LoopSound(s) && Enabled(s, Disc(id))
    ensures LoopSound(Apply(s, Disc(id)))
  {
    hide Peer.Apply, Peer.Ready, Peer.HasRoom;
  }

  /** Steps of the peers keep the set of live goroutines and the loop. */
  lemma PeerStepLoop(s: State, a: Action)
    requires LoopSound(s) && Enabled(s, a) && (a.PeerStep? || a.PeerReturns? || a.Disconnect?)
    ensures LoopSound(Apply(s, a))
  {
    hide Peer.Apply, Peer.Ready, Peer.HasRoom;
    assert Apply(s, a).live.Keys == s.live.Keys && Apply(s, a).peers == s.peers;
  }

  lemma AddPeerLoop(s: State)
    requires s.slot.Some?
    ensures AddPeer(s).loop == s.loop && AddPeer(s).quit == s.quit
  {
  }

  lemma RemovePeerLoop(s: State, h: Handle)
    requires h in s.live
    ensures RemovePeer(s, h).loop == s.loop && RemovePeer(s, h).quit == s.quit
  {
  }

  lemma SelectLoop(s: State, a: Action)
    requires LoopSound(s) && Enabled(s, a) && (a.Conn? || a.PutSlot? || a.TakeSlot? || a.DelPeer?)
    ensures LoopSound(Apply(s, a))
  {
    hide Peer.Apply, Peer.Ready, Peer.HasRoom, AddPeer, RemovePeer;
    if a.TakeSlot? { AddPeerLoop(s); }
    if a.DelPeer? { RemovePeerLoop(s, a.h); }
  }

  lemma LoopSoundStep(s: State, a: Action)
    requires Inv(s) && Enabled(s, a)
    ensures LoopSound(Apply(s, a))
  {
    hide OneToOne, PeersSound, WithinLimit, Peer.Apply, Peer.Ready, Peer.HasRoom, Peer.Init;
    match a {
      case SeeQuit => SeeQuitLoop(s);
      case Disc(id) => DiscLoop(s, id);
      case PeerStep(_, _) => PeerStepLoop(s, a);
      case PeerReturns(_) => PeerStepLoop(s, a);
      case Disconnect(_) => PeerStepLoop(s, a);
      case Conn(_) => SelectLoop(s, a);
      case PutSlot => SelectLoop(s, a);
      case TakeSlot => SelectLoop(s, a);
      case DelPeer(_) => SelectLoop(s, a);
      case _ =>
    }
  }

  lemma InvStep(s: State, a: Action)
    requires Inv(s) && Enabled(s, a)
    ensures Inv(Apply(s, a))
  {
    hide Apply, Enabled, OneToOne, PeersSound, WithinLimit, LoopSound;
    OneToOneStep(s, a);
    PeersSoundStep(s, a);
    WithinLimitStep(s, a);
    LoopSoundStep(s, a);
  }

  ghost predicate Run(ss: seq<State>, acts: seq<Action>, maxPeers: nat, topics: nat, protocols: nat) {
    && |ss| == |acts| + 1 && ss[0] == Init(maxPeers, topics, protocols)
    && forall i :: 0 <= i < |acts| ==> Next(ss[i], acts[i], ss[i + 1])
  }

  lemma {:induction false} Reachable(ss: seq<State>, acts: seq<Action>, maxPeers: nat, topics: nat, protocols: nat, i: nat)
    requires Run(ss, acts, maxPeers, topics, protocols) && i < |ss|
    ensures Inv(ss[i]) && ss[i].maxPeers == maxPeers
  {
    hide Inv, Apply, Enabled;
    if i == 0 {
      InvInit(maxPeers, topics, protocols);
    } else {
      Reachable(ss, acts, maxPeers, topics, protocols, i - 1);
      assert Next(ss[i - 1], acts[i - 1], ss[i - 1 + 1]);
      InvStep(ss[i - 1], acts[i - 1]);
      MaxPeersFixed(ss[i - 1], acts[i - 1]);
    }
  }

  lemma MaxPeersFixed(s: State, a: Action)
    requires Enabled(s, a)
    ensures Apply(s, a).maxPeers == s.maxPeers
  {
    hide Peer.Apply;
  }

  // ---------------------------------------------------------------- main results

  /** Map entries and live goroutines correspond one to one, a pending node is not in the map, and
      the peers together with the pending node never exceed the limit. */
  lemma PeersAndLimit(ss: seq<State>, acts: seq<Action>, maxPeers: nat, topics: nat, protocols: nat, i: nat)
    requires Run(ss, acts, maxPeers, topics, protocols) && i < |ss|
    ensures OneToOne(ss[i]) && |ss[i].peers| == |ss[i].live|
    ensures ss[i].slot.Some? ==> ss[i].slot.value !in ss[i].peers
    ensures |ss[i].live| + (if ss[i].slot.Some? then 1 else 0) <= maxPeers
  {
    Reachable(ss, acts, maxPeers, topics, protocols, i);
    SameCount(ss[i].peers, ss[i].live);
  }

  lemma {:induction false} SameCount(peers: map<ID, Handle>, live: map<Handle, RunPeer>)
    requires forall id :: id in peers ==> peers[id] in live && live[peers[id]].id == id
    requires forall h :: h in live ==> live[h].id in peers && peers[live[h].id] == h
    ensures |peers| == |live|
    decreases |live|
  {
    if live == map[] {
      assert forall id :: id !in peers;
      assert peers == map[];
    } else {
      var h :| h in live;
      var id := live[h].id;
      assert (live - {h}).Keys == live.Keys - {h} && (peers - {id}).Keys == peers.Keys - {id};
      SameCount(peers - {id}, live - {h});
    }
  }

  /** A Peers or PeerCount request sees exactly the live peers, never more than the limit. */
  lemma AnswersExact(ss: seq<State>, acts: seq<Action>, maxPeers: nat, topics: nat, protocols: nat, i: nat)
    requires Run(ss, acts, maxPeers, topics, protocols) && i < |ss| && ss[i].loop.Answering?
    ensures forall id :: id in ss[i].loop.seen <==> exists h :: h in ss[i].live && ss[i].live[h].id == id
    ensures |ss[i].loop.seen| == |ss[i].live| <= maxPeers
  {
    PeersAndLimit(ss, acts, maxPeers, topics, protocols, i);
    Reachable(ss, acts, maxPeers, topics, protocols, i);
    forall id | id in ss[i].peers ensures exists h :: h in ss[i].live && ss[i].live[h].id == id {
      assert ss[i].peers[id] in ss[i].live;
    }
  }

  /** When the shutdown loop has ended, no runPeer is live or waiting on delpeer. */
  lemma StoppedMeansNoneLive(ss: seq<State>, acts: seq<Action>, maxPeers: nat, topics: nat, protocols: nat, i: nat)
    requires Run(ss, acts, maxPeers, topics, protocols) && i < |ss| && ss[i].loop == Done
    ensures ss[i].live == map[] && ss[i].quit
  {
    Reachable(ss, acts, maxPeers, topics, protocols, i);
    SameCount(ss[i].peers, ss[i].live);
  }

  /** Whenever runPeer reports a dropped peer it has an error to report, and the local node is known
      whenever a peer is created. */
  lemma DropHasError(ss: seq<State>, acts: seq<Action>, maxPeers: nat, topics: nat, protocols: nat, i: nat, h: Handle)
    requires Run(ss, acts, maxPeers, topics, protocols) && i < |ss|
    ensures h in ss[i].live && ss[i].live[h].stage.Dropping? ==> ss[i].live[h].stage.err.Some?
    ensures Enabled(ss[i], TakeSlot) ==> ss[i].homenode
  {
    Reachable(ss, acts, maxPeers, topics, protocols, i);
  }

  /** The peer-level guarantees hold for every peer of a running server. */
  lemma PeersKeepTheirs(ss: seq<State>, acts: seq<Action>, maxPeers: nat, topics: nat, protocols: nat, i: nat, h: Handle, a: Peer.Action)
    requires Run(ss, acts, maxPeers, topics, protocols) && i < |ss|
    requires h in ss[i].live && ss[i].live[h].stage.Running?
    ensures ss[i].live[h].stage.p.writing <= 1
    ensures Peer.Ready(ss[i].live[h].stage.p, a) ==> Peer.HasRoom(ss[i].live[h].stage.p, a)
  {
    Reachable(ss, acts, maxPeers, topics, protocols, i);
    if Peer.Ready(ss[i].live[h].stage.p, a) {
      Peer.InvRoom(ss[i].live[h].stage.p, a);
    }
  }

  // ---------------------------------------------------------------- the loop can block itself

  /** The run loop sends to its own full channel, which only it empties. */
  predicate SelfBlocked(s: State) { s.loop.SendSlot? && s.slot.Some? }

  /** A step leads into this state exactly when it accepts a new node while another is pending. */
  lemma SelfBlockedWhen(s: State, a: Action)
    requires Enabled(s, a) && !SelfBlocked(s)
    ensures SelfBlocked(Apply(s, a)) <==>
      a.Conn? && s.slot.Some? && |s.peers| < s.maxPeers && a.id !in s.peers
  {
    hide Peer.Apply;
  }

  /** From then on the loop takes no step: the server never drops a peer and never stops. */
  lemma SelfBlockedStays(s: State, a: Action)
    requires SelfBlocked(s) && Enabled(s, a)
    ensures !LoopAction(a) && SelfBlocked(Apply(s, a)) && Apply(s, a).peers == s.peers
  {
    hide Peer.Apply;
  }

  /** It happens: two nodes reported before the first is taken out of the channel. */
  lemma SelfBlockedReachable(maxPeers: nat, topics: nat, protocols: nat)
    requires maxPeers > 0
    ensures exists ss, acts :: Run(ss, acts, maxPeers, topics, protocols) && SelfBlocked(ss[|ss| - 1])
  {
    var s0 := Init(maxPeers, topics, protocols);
    var s1 := Apply(s0, SetHome);
    var s2 := Apply(s1, Conn(1));
    var s3 := Apply(s2, PutSlot);
    var s4 := Apply(s3, Conn(2));
    var ss, acts := [s0, s1, s2, s3, s4], [SetHome, Conn(1), PutSlot, Conn(2)];
    assert Run(ss, acts, maxPeers, topics, protocols) && SelfBlocked(ss[4]);
  }
}
