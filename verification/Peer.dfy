/** One peer: a run loop, read loops and protocol handlers joined by bounded channels, as steps
    that may interleave in any order. */
module Peer {
  import opened Basics

  /** A Go error value; `DiscReason` values are errors too. */
  datatype Err = DiscReason(code: nat) | Failure(what: string)

  const PROTOCOL_RETURNED := Failure("protocol returned")

  /** Where the run loop is.  HandsOn: a write succeeded and the next one is about to be allowed. */
  datatype Pc = Starting | Selecting | HandsOn | Leaving | Waiting | Returned

  datatype State = State(
    pc: Pc,
    err: Option<Err>,
    remoteRequested: bool,
    // Buffered channels: tokens in writeStart (room 1) and queued errors; None is a nil error.
    writeStart: nat,
    writeErr: seq<Option<Err>>,
    readErr: seq<Option<Err>>,
    protoErr: seq<Option<Err>>,
    // Channel capacities: one slot per read loop and per protocol.
    readCap: nat,
    protoCap: nat,
    // Goroutines that have not ended: writes holding the token, read loops, protocols.
    writing: nat,
    readers: nat,
    protos: nat,
    closed: bool)

  const WRITE_CAP: nat := 1

  /** The state in which `run` has launched the read loops and is about to start the protocols. */
  function Init(topics: nat, protocols: nat): (r: State) {
    State(Starting, None, false, 0, [], [], [], topics, protocols, 0, topics, 0, false)
  }

  predicate Exited(s: State) { s.pc in {Leaving, Waiting, Returned} }

  datatype Action =
    | StartProtocols
    | BeginWrite                       // WriteMsg takes the token
    | EndWrite(result: Option<Err>)    // WriteMsg reports its result
    | ReaderFails(error: Err)          // a read loop reports its error and ends
    | ProtocolReturns(result: Option<Err>)
    | TakeWriteResult | AllowNextWrite | TakeReadError | TakeProtocolError | TakeDisconnect(reason: nat)
    | Close | Finish

  /** A goroutine is at the point of performing the action. */
  predicate Ready(s: State, a: Action) {
    match a
    case StartProtocols => s.pc == Starting
    case BeginWrite => s.pc != Starting && s.writeStart > 0
    case EndWrite(_) => s.writing > 0
    case ReaderFails(_) => s.readers > 0
    case ProtocolReturns(_) => s.protos > 0
    case TakeWriteResult => s.pc == Selecting && s.writeErr != []
    case AllowNextWrite => s.pc == HandsOn
    case TakeReadError => s.pc == Selecting && s.readErr != []
    case TakeProtocolError => s.pc == Selecting && s.protoErr != []
    case TakeDisconnect(_) => s.pc == Selecting
    case Close => s.pc == Leaving
    case Finish => s.pc == Waiting && s.readers == 0 && s.protos == 0
  }

  /** The channel the action sends on has a free slot. */
  predicate HasRoom(s: State, a: Action) {
    match a
    case StartProtocols => s.writeStart < WRITE_CAP
    case AllowNextWrite => s.writeStart < WRITE_CAP
    case EndWrite(_) => |s.writeErr| < WRITE_CAP
    case ReaderFails(_) => |s.readErr| < s.readCap
    case ProtocolReturns(_) => |s.protoErr| < s.protoCap
    case _ => true
  }

  predicate IsDiscReason(e: Option<Err>) { e.Some? && e.value.DiscReason? }

  function Apply(s: State, a: Action): (r: State)
    requires Ready(s, a)
  {
    match a
    case StartProtocols => s.(writeStart := s.writeStart + 1, protos := s.protoCap, pc := Selecting)
    case BeginWrite => s.(writeStart := s.writeStart - 1, writing := s.writing + 1)
    case EndWrite(r) => s.(writing := s.writing - 1, writeErr := s.writeErr + [r])
    case ReaderFails(e) => s.(readers := s.readers - 1, readErr := s.readErr + [Some(e)])
    case ProtocolReturns(r) =>
      s.(protos := s.protos - 1, protoErr := s.protoErr + [if r.None? then Some(PROTOCOL_RETURNED) else r])
    case TakeWriteResult =>
      var r := s.writeErr[0];
      s.(writeErr := s.writeErr[1..], err := r, pc := if r.Some? then Leaving else HandsOn)
    case AllowNextWrite => s.(writeStart := s.writeStart + 1, pc := Selecting)
    case TakeReadError =>
      s.(readErr := s.readErr[1..], err := s.readErr[0], pc := Leaving,
         remoteRequested := IsDiscReason(s.readErr[0]))
    case TakeProtocolError => s.(protoErr := s.protoErr[1..], err := s.protoErr[0], pc := Leaving)
    case TakeDisconnect(reason) => s.(err := Some(DiscReason(reason)), pc := Leaving)
    case Close => s.(closed := true, pc := Waiting)
    case Finish => s.(pc := Returned)
  }

  predicate Next(s: State, a: Action, s': State) { Ready(s, a) && HasRoom(s, a) && s' == Apply(s, a) }

  /** The single write token: in the channel, held by a write, in its result, or in the loop's hand. */
  function Tokens(s: State): (r: nat) {
    s.writeStart + s.writing + |s.writeErr| + (if s.pc == HandsOn then 1 else 0)
  }

  predicate AllSome(es: seq<Option<Err>>) { forall i :: 0 <= i < |es| ==> es[i].Some? }

  predicate Inv(s: State) {
    && Tokens(s) <= 1 && (s.pc == Starting ==> Tokens(s) == 0) && (s.pc in {Selecting, HandsOn} ==> Tokens(s) == 1)
    && |s.readErr| + s.readers <= s.readCap && |s.protoErr| + s.protos <= s.protoCap
    && AllSome(s.readErr) && AllSome(s.protoErr)
    && (s.pc == Starting ==> s.protoErr == [] && s.protos == 0)
    && (Exited(s) ==> s.err.Some?)
    && (s.remoteRequested ==> IsDiscReason(s.err) && Exited(s))
    && (s.closed <==> s.pc in {Waiting, Returned})
    && (s.pc == Returned ==> s.readers == 0 && s.protos == 0)
  }

  lemma InvInit(topics: nat, protocols: nat)
    ensures Inv(Init(topics, protocols))
    ensures Init(topics, protocols).readCap == topics && Init(topics, protocols).protoCap == protocols
  {
  }

  lemma InvApply(s: State, a: Action)
    requires Inv(s) && Ready(s, a)
    ensures Inv(Apply(s, a))
    ensures Apply(s, a).readCap == s.readCap && Apply(s, a).protoCap == s.protoCap
  {
  }

  /** Whoever is about to send finds a free slot, so no sender ever blocks. */
  lemma InvRoom(s: State, a: Action)
    requires Inv(s) && Ready(s, a)
    ensures HasRoom(s, a)
  {
  }

  ghost predicate Run(ss: seq<State>, acts: seq<Action>, topics: nat, protocols: nat) {
    && |ss| == |acts| + 1 && ss[0] == Init(topics, protocols)
    && forall i :: 0 <= i < |acts| ==> Next(ss[i], acts[i], ss[i + 1])
  }

  lemma {:induction false} Reachable(ss: seq<State>, acts: seq<Action>, topics: nat, protocols: nat, i: nat)
    requires Run(ss, acts, topics, protocols) && i < |ss|
    ensures Inv(ss[i]) && ss[i].readCap == topics && ss[i].protoCap == protocols
  {
    hide Inv, Apply, Ready, HasRoom;
    if i == 0 {
      InvInit(topics, protocols);
    } else {
      Reachable(ss, acts, topics, protocols, i - 1);
      assert Next(ss[i - 1], acts[i - 1], ss[i - 1 + 1]);
      InvApply(ss[i - 1], acts[i - 1]);
    }
  }

  /** While the run loop is live there is exactly one token, so at most one write runs at a time, across
      all protocols; after the loop there is none to add. */
  lemma OneToken(ss: seq<State>, acts: seq<Action>, topics: nat, protocols: nat, i: nat)
    requires Run(ss, acts, topics, protocols) && i < |ss|
    ensures ss[i].pc in {Selecting, HandsOn} ==> Tokens(ss[i]) == 1
    ensures ss[i].writing <= 1 && Tokens(ss[i]) <= 1
  {
    Reachable(ss, acts, topics, protocols, i);
  }

  /** In every interleaving, before and after shutdown begins, no send blocks. */
  lemma NoSenderBlocks(ss: seq<State>, acts: seq<Action>, topics: nat, protocols: nat, i: nat, a: Action)
    requires Run(ss, acts, topics, protocols) && i < |ss| && Ready(ss[i], a)
    ensures HasRoom(ss[i], a)
  {
    Reachable(ss, acts, topics, protocols, i);
    InvRoom(ss[i], a);
  }

  /** The loop only ends with an error, so the caller may ask it for its text; when run returns, no
      read loop and no protocol is left; and a disconnect counts as requested by the remote side
      only if that is what the error says. */
  lemma ExitHasError(ss: seq<State>, acts: seq<Action>, topics: nat, protocols: nat, i: nat)
    requires Run(ss, acts, topics, protocols) && i < |ss|
    ensures Exited(ss[i]) ==> ss[i].err.Some?
    ensures ss[i].pc == Returned ==> ss[i].readers == 0 && ss[i].protos == 0 && ss[i].closed
    ensures ss[i].remoteRequested ==> IsDiscReason(ss[i].err)
  {
    Reachable(ss, acts, topics, protocols, i);
  }
}
