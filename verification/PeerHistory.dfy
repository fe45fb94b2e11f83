/** What the actions of a peer's run decide: which writes can still start, and the error it ends with. */
module PeerHistory {
  import opened Basics
  import opened Peer

  // ---------------------------------------------------------------- writes

  /** A failed write has been reported: its result is in the channel, or the loop has ended on it. */
  predicate WriteFailed(s: State) {
    && s.writeStart == 0 && s.writing == 0 && s.pc != Starting && s.pc != HandsOn
    && if s.writeErr == [] then Exited(s) else s.writeErr[0].Some?
  }

  /** No token is left for another write. */
  predicate Spent(s: State) { Exited(s) && s.writeStart == 0 }

  lemma WriteFailedStep(s: State, a: Action)
    requires Inv(s) && Ready(s, a)
    ensures a.EndWrite? && a.result.Some? ==> WriteFailed(Apply(s, a))
    ensures WriteFailed(s) ==> a != BeginWrite && WriteFailed(Apply(s, a))
  {
  }

  lemma SpentStep(s: State, a: Action)
    requires Inv(s) && Ready(s, a)
    ensures Exited(s) ==> Exited(Apply(s, a)) && (a == BeginWrite ==> Spent(Apply(s, a)))
    ensures Spent(s) ==> a != BeginWrite && Spent(Apply(s, a))
  {
  }

  lemma {:induction false} WriteFailedStays(ss: seq<State>, acts: seq<Action>, topics: nat, protocols: nat, i: nat, j: nat)
    requires Run(ss, acts, topics, protocols) && i < j < |ss| && acts[i].EndWrite? && acts[i].result.Some?
    ensures WriteFailed(ss[j])
  {
    hide Apply, Ready, HasRoom, WriteFailed, Inv;
    Reachable(ss, acts, topics, protocols, j - 1);
    assert Next(ss[j - 1], acts[j - 1], ss[j - 1 + 1]);
    if i < j - 1 { WriteFailedStays(ss, acts, topics, protocols, i, j - 1); }
    WriteFailedStep(ss[j - 1], acts[j - 1]);
  }

  /** Once a write has failed no other write starts, in any interleaving. */
  lemma NoWriteAfterFailure(ss: seq<State>, acts: seq<Action>, topics: nat, protocols: nat, i: nat, j: nat)
    requires Run(ss, acts, topics, protocols) && i < j < |acts| && acts[i].EndWrite? && acts[i].result.Some?
    ensures acts[j] != BeginWrite
  {
    hide Apply, HasRoom, WriteFailed, Inv;
    WriteFailedStays(ss, acts, topics, protocols, i, j);
    Reachable(ss, acts, topics, protocols, j);
    assert Next(ss[j], acts[j], ss[j + 1]);
    WriteFailedStep(ss[j], acts[j]);
  }

  lemma {:induction false} SpentStays(ss: seq<State>, acts: seq<Action>, topics: nat, protocols: nat, i: nat, j: nat)
    requires Run(ss, acts, topics, protocols) && i < j < |ss| && Exited(ss[i])
    ensures Exited(ss[j]) && (acts[i] == BeginWrite ==> Spent(ss[j]))
  {
    hide Apply, Ready, HasRoom, Spent, Inv;
    Reachable(ss, acts, topics, protocols, j - 1);
    assert Next(ss[j - 1], acts[j - 1], ss[j - 1 + 1]);
    if i < j - 1 { SpentStays(ss, acts, topics, protocols, i, j - 1); }
    SpentStep(ss[j - 1], acts[j - 1]);
  }

  /** After the loop has ended at most one write starts. */
  lemma OneWriteAfterExit(ss: seq<State>, acts: seq<Action>, topics: nat, protocols: nat, i: nat, j: nat)
    requires Run(ss, acts, topics, protocols) && i < j < |acts| && Exited(ss[i])
    requires acts[i] == BeginWrite
    ensures acts[j] != BeginWrite
  {
    hide Apply, HasRoom, Spent, Inv;
    SpentStays(ss, acts, topics, protocols, i, j);
    Reachable(ss, acts, topics, protocols, j);
    assert Next(ss[j], acts[j], ss[j + 1]);
    SpentStep(ss[j], acts[j]);
  }

  // ---------------------------------------------------------------- errors

  /** The errors the read loops have reported, in order. */
  function ReadErrors(acts: seq<Action>): (r: seq<Option<Err>>) {
    if acts == [] then []
    else
      var a := acts[|acts| - 1];
      ReadErrors(acts[..|acts| - 1]) + if a.ReaderFails? then [Some(a.error)] else []
  }

  /** The errors the protocols have reported; a protocol that returns none counts as an error too. */
  function ProtocolErrors(acts: seq<Action>): (r: seq<Option<Err>>) {
    if acts == [] then []
    else
      var a := acts[|acts| - 1];
      ProtocolErrors(acts[..|acts| - 1]) +
        if a.ProtocolReturns? then [if a.result.Some? then a.result else Some(Failure("protocol returned"))] else []
  }

  /** The result of the last write. */
  function LastWrite(acts: seq<Action>): (r: Option<Err>) {
    if acts == [] then None
    else
      var a := acts[|acts| - 1];
      if a.EndWrite? then a.result else LastWrite(acts[..|acts| - 1])
  }

  /** While the loop runs, the channels hold what was reported. */
  predicate Queued(s: State, acts: seq<Action>) {
    && s.readErr == ReadErrors(acts) && s.protoErr == ProtocolErrors(acts) && !s.remoteRequested
    && (s.writeErr != [] ==> s.writeErr == [LastWrite(acts)])
  }

  lemma QueuedStep(s: State, acts: seq<Action>, a: Action)
    requires Inv(s) && Ready(s, a) && Queued(s, acts) && !Exited(Apply(s, a))
    ensures Queued(Apply(s, a), acts + [a])
  {
    assert (acts + [a])[..|acts|] == acts;
    if a.ReaderFails? { assert ReadErrors(acts + [a]) == ReadErrors(acts) + [Some(a.error)]; }
  }

  lemma {:induction false} QueuedAt(ss: seq<State>, acts: seq<Action>, topics: nat, protocols: nat, i: nat)
    requires Run(ss, acts, topics, protocols) && i < |ss| && !Exited(ss[i])
    ensures Queued(ss[i], acts[..i])
  {
    hide Apply, Ready, HasRoom, Queued, Inv, Exited;
    if i == 0 {
      StartsEmpty(topics, protocols);
    } else {
      Reachable(ss, acts, topics, protocols, i - 1);
      assert Next(ss[i - 1], acts[i - 1], ss[i - 1 + 1]);
      if Exited(ss[i - 1]) { ExitedStays(ss[i - 1], acts[i - 1]); }
      QueuedAt(ss, acts, topics, protocols, i - 1);
      QueuedStep(ss[i - 1], acts[..i - 1], acts[i - 1]);
      assert acts[..i] == acts[..i - 1] + [acts[i - 1]];
    }
  }

  lemma StartsEmpty(topics: nat, protocols: nat)
    ensures Queued(Init(topics, protocols), [])
  {
  }

  /** An ended loop stays ended, with its error. */
  lemma ExitedStays(s: State, a: Action)
    requires Ready(s, a) && Exited(s)
    ensures Exited(Apply(s, a)) && Apply(s, a).err == s.err && Apply(s, a).remoteRequested == s.remoteRequested
  {
  }

  lemma {:induction false} ErrorStays(ss: seq<State>, acts: seq<Action>, topics: nat, protocols: nat, i: nat, j: nat)
    requires Run(ss, acts, topics, protocols) && i <= j < |ss| && Exited(ss[i])
    ensures Exited(ss[j]) && ss[j].err == ss[i].err && ss[j].remoteRequested == ss[i].remoteRequested
    decreases j
  {
    hide Apply, Ready, HasRoom, Exited;
    if i < j {
      ErrorStays(ss, acts, topics, protocols, i, j - 1);
      assert Next(ss[j - 1], acts[j - 1], ss[j - 1 + 1]);
      ExitedStays(ss[j - 1], acts[j - 1]);
    }
  }

  /** What run returns: the failed write's error, the first read error, the first protocol error or the
      reason, according to the action that ends the loop; and the remote side has requested it exactly
      if that is a read error saying so. */
  lemma ExitError(ss: seq<State>, acts: seq<Action>, topics: nat, protocols: nat, k: nat, i: nat)
    requires Run(ss, acts, topics, protocols) && k < i < |ss| && !Exited(ss[k]) && Exited(ss[k + 1])
    ensures var e := ss[i].err; e.Some? && match acts[k]
      case TakeWriteResult => e == LastWrite(acts[..k]) && !ss[i].remoteRequested
      case TakeReadError =>
        ReadErrors(acts[..k]) != [] && e == ReadErrors(acts[..k])[0] && (ss[i].remoteRequested <==> e.value.DiscReason?)
      case TakeProtocolError =>
        ProtocolErrors(acts[..k]) != [] && e == ProtocolErrors(acts[..k])[0] && !ss[i].remoteRequested
      case TakeDisconnect(reason) => e == Some(DiscReason(reason)) && !ss[i].remoteRequested
      case _ => false
  {
    hide ReadErrors, ProtocolErrors, LastWrite, HasRoom;
    QueuedAt(ss, acts, topics, protocols, k);
    Reachable(ss, acts, topics, protocols, k);
    assert Next(ss[k], acts[k], ss[k + 1]);
    hide Inv;
    ErrorStays(ss, acts, topics, protocols, k + 1, i);
  }

  // ---------------------------------------------------------------- progress

  /** Every goroutine that was started has reported or still runs. */
  predicate Counted(s: State, acts: seq<Action>, topics: nat, protocols: nat) {
    && s.readers + |ReadErrors(acts)| == topics
    && (if s.pc == Starting then ProtocolErrors(acts) == [] && s.protos == 0
        else s.protos + |ProtocolErrors(acts)| == protocols)
  }

  lemma CountedStep(s: State, acts: seq<Action>, a: Action, topics: nat, protocols: nat)
    requires Inv(s) && Ready(s, a) && Counted(s, acts, topics, protocols) && s.protoCap == protocols
    ensures Counted(Apply(s, a), acts + [a], topics, protocols)
  {
    assert (acts + [a])[..|acts|] == acts;
  }

  /** One read loop runs for every topic and one goroutine for every protocol, each until it reports its
      error; so when run returns every one of them has. */
  lemma {:induction false} AllReport(ss: seq<State>, acts: seq<Action>, topics: nat, protocols: nat, i: nat)
    requires Run(ss, acts, topics, protocols) && i < |ss|
    ensures Counted(ss[i], acts[..i], topics, protocols)
    ensures ss[i].pc == Returned ==> |ReadErrors(acts[..i])| == topics && |ProtocolErrors(acts[..i])| == protocols
  {
    hide Apply, Ready, HasRoom;
    Reachable(ss, acts, topics, protocols, i);
    if i > 0 {
      AllReport(ss, acts, topics, protocols, i - 1);
      Reachable(ss, acts, topics, protocols, i - 1);
      assert Next(ss[i - 1], acts[i - 1], ss[i - 1 + 1]);
      CountedStep(ss[i - 1], acts[..i - 1], acts[i - 1], topics, protocols);
      assert acts[..i] == acts[..i - 1] + [acts[i - 1]];
    }
  }

  /** A peer's loop that waits takes whatever has been reported to it, in particular every error, and one
      that does not wait goes on by itself until only its own goroutines are left to end. */
  lemma LoopGoesOn(ss: seq<State>, acts: seq<Action>, topics: nat, protocols: nat, i: nat)
    requires Run(ss, acts, topics, protocols) && i < |ss|
    ensures var s := ss[i]; match s.pc
      case Starting => Next(s, StartProtocols, Apply(s, StartProtocols))
      case Selecting =>
        && (s.writeErr != [] ==> Ready(s, TakeWriteResult))
        && (ReadErrors(acts[..i]) != [] ==> Ready(s, TakeReadError))
        && (ProtocolErrors(acts[..i]) != [] ==> Ready(s, TakeProtocolError))
        && (forall reason :: Ready(s, TakeDisconnect(reason)))
        && (s.writing == 0 && s.writeErr == [] ==> s.writeStart == 1)
      case HandsOn => Next(s, AllowNextWrite, Apply(s, AllowNextWrite))
      case Leaving => Ready(s, Close)
      case Waiting => s.readers == 0 && s.protos == 0 ==> Ready(s, Finish)
      case Returned => true
    ensures ss[i].pc != Starting && ss[i].writeStart > 0 ==> Ready(ss[i], BeginWrite)
  {
    Reachable(ss, acts, topics, protocols, i);
    if !Exited(ss[i]) { QueuedAt(ss, acts, topics, protocols, i); }
  }
}
