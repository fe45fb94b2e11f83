/** Ownership of buffers, the close protocol and the counters, over every interleaving. */
module PoolSafety {
  import opened Basics
  import opened BufferPool
  import opened PoolClasses

  // ---------------------------------------------------------------- ownership

  ghost predicate HeldPlaced(held: map<nat, Buf>, place: map<nat, Place>) {
    forall id :: id in held ==> held[id].id == id && id in place && place[id] == Held
  }

  ghost predicate QueuesPlaced(queues: seq<seq<Buf>>, place: map<nat, Place>) {
    && (forall q, i :: 0 <= q < |queues| && 0 <= i < |queues[q]| ==>
          queues[q][i].id in place && place[queues[q][i].id] == Queued(q))
    && (forall q, i, j :: 0 <= q < |queues| && 0 <= i < j < |queues[q]| ==> queues[q][i].id != queues[q][j].id)
  }

  ghost predicate ThreadsPlaced(threads: map<nat, Pc>, place: map<nat, Place>, except: set<nat>) {
    forall t :: t in threads && t !in except && HasBuf(threads[t]) ==>
      threads[t].b.id in place && place[threads[t].b.id] == InHand(t)
  }

  ghost predicate PlacesKnown(place: map<nat, Place>, next: nat) { forall id :: id in place ==> id < next }

  /** Every buffer is where its history says, so it is in one place only. */
  ghost predicate Owned(s: Pool, except: set<nat>) {
    && HeldPlaced(s.held, s.place) && QueuesPlaced(s.queues, s.place)
    && ThreadsPlaced(s.threads, s.place, except) && PlacesKnown(s.place, s.next)
  }

  predicate InHandOf(s: Pool, t: nat, b: Buf) { b.id in s.place && s.place[b.id] == InHand(t) }

  lemma MoveOwned(s: Pool, t: nat, pc: Pc)
    requires Owned(s, {t}) && (HasBuf(pc) ==> InHandOf(s, t, pc.b))
    ensures Owned(Move(s, t, pc), {})
  {
    hide HeldPlaced, QueuesPlaced, PlacesKnown;
  }

  lemma MakeOwned(s: Pool, t: nat, n: nat, cap: nat)
    requires Owned(s, {t})
    ensures Owned(Make(s, t, n, cap), {})
  {
  }

  lemma DropOwned(s: Pool, t: nat, b: Buf)
    requires Owned(s, {t}) && InHandOf(s, t, b)
    ensures Owned(Drop(s, b), {t})
  {
  }

  lemma PushPlaced(queues: seq<seq<Buf>>, place: map<nat, Place>, q: nat, b: Buf)
    requires q < |queues| && QueuesPlaced(queues, place) && b.id in place && !place[b.id].Queued?
    ensures QueuesPlaced(queues[q := queues[q] + [b]], place[b.id := Queued(q)])
  {
  }

  lemma PopPlaced(queues: seq<seq<Buf>>, place: map<nat, Place>, q: nat, to: Place)
    requires q < |queues| && queues[q] != [] && QueuesPlaced(queues, place)
    ensures queues[q][0].id in place && place[queues[q][0].id] == Queued(q)
    ensures QueuesPlaced(queues[q := queues[q][1..]], place[queues[q][0].id := to])
  {
    var b := queues[q][0];
    var rest := queues[q][1..];
    assert forall i :: 0 <= i < |rest| ==> rest[i] == queues[q][i + 1];
  }

  lemma TrySendOwned(s: Pool, t: nat, q: nat, b: Buf)
    requires Owned(s, {t}) && InHandOf(s, t, b) && q < 6
    ensures Owned(TrySend(s, q, b), {t})
  {
    hide QueuesPlaced, ClassOf;
    if |s.queues[q]| < QUEUE_CAP[q] {
      PushPlaced(s.queues, s.place, q, b);
    } else {
      DropOwned(s, t, b);
    }
  }

  lemma LeaveOwned(s: Pool, t: nat)
    requires Owned(s, {t})
    ensures Owned(Leave(s, t), {})
  {
  }

  lemma TakeOwned(s: Pool, t: nat, q: nat)
    requires Owned(s, {t}) && q < 6 && s.queues[q] != []
    ensures var s1 := s.(queues := s.queues[q := s.queues[q][1..]], place := s.place[s.queues[q][0].id := InHand(t)]);
      Owned(s1, {t}) && InHandOf(s1, t, s.queues[q][0])
  {
    hide QueuesPlaced, ClassOf;
    PopPlaced(s.queues, s.place, q, InHand(t));
  }

  lemma ReceiveOwned(s: Pool, t: nat, n: nat)
    requires Owned(s, {t})
    ensures Owned(ReceiveStep(s, t, n), {})
  {
    hide Owned, ClassOf, Move, InHandOf;
    var q := Class(s, n);
    if s.queues[q] == [] {
      MoveOwned(s, t, Missed(n));
    } else {
      TakeOwned(s, t, q);
      var b := s.queues[q][0];
      MoveOwned(s.(queues := s.queues[q := s.queues[q][1..]], place := s.place[b.id := InHand(t)]), t, Got(n, b));
    }
  }

  lemma DoneOwned(s: Pool, t: nat, b: Buf)
    requires Owned(s, {t}) && InHandOf(s, t, b)
    ensures Owned(DoneStep(s, t, b), {})
  {
  }

  /** The steps of a goroutine that has a buffer in hand. */
  lemma StepOwnedWithBuf(s: Pool, t: nat)
    requires Owned(s, {}) && CanStep(s, t) && HasBuf(s.threads[t])
    ensures Owned(StepThread(s, t), {})
  {
    hide HeldPlaced, QueuesPlaced, ThreadsPlaced, PlacesKnown, ClassOf, Move, Make, Leave, Drop, TrySend, DoneStep;
    OwnExcept(s, t);
    var b := s.threads[t].b;
    DropOwned(s, t, b);
    match s.threads[t] {
      case Got(n, _) => ClassifyOwned(s, t, n, b);
      case Half(n, _) => HalfOwned(s, t, n, b);
      case StoreHalf(n, _) => StoreHalfOwned(s, t, n, b);
      case Back(n, _) => TrySendOwned(s, t, Class(s, n), b); MakeOwned(TrySend(s, Class(s, n), b), t, n, n);
      case Greater(n, _) => MoveOwned(s, t, GreaterBack(n, b)); MoveOwned(Drop(s, b), t, Alloc(n));
      case GreaterBack(n, _) => TrySendOwned(s, t, Class(s, n), b); MoveOwned(TrySend(s, Class(s, n), b), t, Alloc(n));
      case Done(n, _) => DoneOwned(s, t, b);
      case PutEntered(_) => PutEnteredOwned(s, t, b);
      case PutCounted(_) => TrySendOwned(s, t, Class(s, b.cap), b); LeaveOwned(TrySend(s, Class(s, b.cap), b), t);
    }
  }

  lemma OwnExcept(s: Pool, t: nat)
    requires Owned(s, {}) && t in s.threads
    ensures Owned(s, {t}) && (HasBuf(s.threads[t]) ==> InHandOf(s, t, s.threads[t].b))
  {
    hide HeldPlaced, QueuesPlaced, PlacesKnown;
  }

  lemma ClassifyOwned(s: Pool, t: nat, n: nat, b: Buf)
    requires Owned(s, {t}) && InHandOf(s, t, b)
    ensures Owned(ClassifyStep(s, t, n, b), {})
  {
    hide HeldPlaced, QueuesPlaced, ThreadsPlaced, PlacesKnown, ClassOf, Move, Drop, U32;
    if b.cap > n && b.cap - n >= n {
      MoveOwned(s.(c := s.c.(half := U32(s.c.half + 1))), t, if Class(s, n) == 0 then Back(n, b) else Half(n, b));
    } else if b.cap > n {
      MoveOwned(s.(c := s.c.(less := U32(s.c.less + 1))), t, Done(n, b));
    } else if b.cap == n {
      MoveOwned(s.(c := s.c.(equal := U32(s.c.equal + 1))), t, Done(n, b));
    } else {
      var s1 := s.(c := s.c.(greater := U32(s.c.greater + 1)));
      DropOwned(s1, t, b);
      MoveOwned(Drop(s1, b), t, Alloc(n));
      MoveOwned(s1, t, Greater(n, b));
    }
  }

  lemma HalfOwned(s: Pool, t: nat, n: nat, b: Buf)
    requires Owned(s, {t}) && InHandOf(s, t, b) && Class(s, n) > 0
    ensures Owned(HalfStep(s, t, n, b), {})
  {
    hide HeldPlaced, QueuesPlaced, ThreadsPlaced, PlacesKnown, ClassOf, Move;
    var v := U32(s.sizeHalf[Class(s, n) - 1] + 1);
    MoveOwned(s.(sizeHalf := s.sizeHalf[Class(s, n) - 1 := v]), t, if v == 20 then StoreHalf(n, b) else Back(n, b));
  }

  lemma StoreHalfOwned(s: Pool, t: nat, n: nat, b: Buf)
    requires Owned(s, {t}) && InHandOf(s, t, b) && Class(s, n) > 0
    ensures Owned(StoreHalfStep(s, t, n, b), {})
  {
    hide HeldPlaced, QueuesPlaced, ThreadsPlaced, PlacesKnown, ClassOf, Move;
    DropOwned(s, t, b);
    MoveOwned(SetSize(Drop(s, b), n, b.cap / 2), t, ResetHalf(n));
  }

  lemma PutEnteredOwned(s: Pool, t: nat, b: Buf)
    requires Owned(s, {t}) && InHandOf(s, t, b)
    ensures Owned(PutEnteredStep(s, t, b), {})
  {
    hide HeldPlaced, QueuesPlaced, ThreadsPlaced, PlacesKnown, Move, Drop, Leave;
    DropOwned(s, t, b);
    LeaveOwned(Drop(s, b), t);
    MoveOwned(s.(c := s.c.(put := U32(s.c.put + 1))), t, PutCounted(b));
  }

  lemma EnteredOwned(s: Pool, t: nat, n: nat)
    requires Owned(s, {t})
    ensures Owned(EnteredStep(s, t, n), {})
  {
    hide HeldPlaced, QueuesPlaced, ThreadsPlaced, PlacesKnown, ClassOf, Move, Make, U32;
    MakeOwned(s, t, n, n);
    MoveOwned(s.(c := s.c.(get := U32(s.c.get + 1))), t, Counted(n));
  }

  lemma MissedOwned(s: Pool, t: nat, n: nat)
    requires Owned(s, {t})
    ensures Owned(MissedStep(s, t, n), {})
  {
    hide HeldPlaced, QueuesPlaced, ThreadsPlaced, PlacesKnown, ClassOf, Move, Make, U32;
    MoveOwned(s.(c := s.c.(miss := U32(s.c.miss + 1))), t, Alloc(n));
  }

  lemma ResetHalfOwned(s: Pool, t: nat, n: nat)
    requires Owned(s, {t}) && Class(s, n) > 0
    ensures Owned(ResetHalfStep(s, t, n), {})
  {
    hide HeldPlaced, QueuesPlaced, ThreadsPlaced, PlacesKnown, ClassOf, Move, Make, U32;
    MakeOwned(s.(sizeHalf := s.sizeHalf[Class(s, n) - 1 := 0]), t, n, n);
  }

  lemma AllocOwned(s: Pool, t: nat, n: nat)
    requires Owned(s, {t})
    ensures Owned(AllocStep(s, t, n), {})
  {
    hide HeldPlaced, QueuesPlaced, ThreadsPlaced, PlacesKnown, ClassOf, Move, Make, U32;
    MakeOwned(s, t, n, s.b);
    if Class(s, n) > 0 { MoveOwned(s, t, Sized(n, s.size[Class(s, n) - 1])); }
  }

  lemma SwapOwned(s: Pool, t: nat, n: nat)
    requires Owned(s, {t}) && Class(s, n) > 0
    ensures Owned(SwapStep(s, t, n), {})
  {
    hide HeldPlaced, QueuesPlaced, ThreadsPlaced, PlacesKnown, ClassOf, Move, Make, U32;
    MakeOwned(SetSize(s, n, n), t, n, n);
    MakeOwned(s, t, n, n);
  }

  lemma MissOwned(s: Pool, t: nat, n: nat)
    requires Owned(s, {t}) && Class(s, n) > 0
    ensures Owned(MissStep(s, t, n), {})
  {
    hide HeldPlaced, QueuesPlaced, ThreadsPlaced, PlacesKnown, ClassOf, Move, Make, U32;
    var v := U32(s.sizeMiss[Class(s, n) - 1] + 1);
    var s1 := s.(sizeMiss := s.sizeMiss[Class(s, n) - 1 := v]);
    MoveOwned(s1, t, StoreMiss(n));
    MakeOwned(s1, t, n, n);
  }

  lemma StoreMissOwned(s: Pool, t: nat, n: nat)
    requires Owned(s, {t}) && Class(s, n) > 0
    ensures Owned(StoreMissStep(s, t, n), {})
  {
    hide HeldPlaced, QueuesPlaced, ThreadsPlaced, PlacesKnown, ClassOf, Move, Make, U32;
    MoveOwned(SetSize(s, n, n), t, ResetMiss(n));
  }

  lemma ResetMissOwned(s: Pool, t: nat, n: nat)
    requires Owned(s, {t}) && Class(s, n) > 0
    ensures Owned(ResetMissStep(s, t, n), {})
  {
    hide HeldPlaced, QueuesPlaced, ThreadsPlaced, PlacesKnown, ClassOf, Move, Make, U32;
    MakeOwned(s.(sizeMiss := s.sizeMiss[Class(s, n) - 1 := 0]), t, n, n);
  }

  lemma DecideOwned(s: Pool, t: nat, n: nat, size: nat)
    requires Owned(s, {t})
    ensures Owned(DecideStep(s, t, n, size), {})
  {
    hide HeldPlaced, QueuesPlaced, ThreadsPlaced, PlacesKnown, ClassOf, Move, Make, U32;
    MoveOwned(s, t, Swap(n));
    MoveOwned(s, t, BumpMiss(n));
    MoveOwned(s, t, Panicked(n));
    MakeOwned(s, t, n, size);
  }

  lemma StepOwnedNoBuf(s: Pool, t: nat)
    requires Owned(s, {}) && CanStep(s, t) && !HasBuf(s.threads[t])
    ensures Owned(StepThread(s, t), {})
  {
    hide Owned, ClassOf, EnteredStep, MissedStep, ReceiveStep, ResetHalfStep, AllocStep, DecideStep, SwapStep, MissStep,
      StoreMissStep, ResetMissStep;
    OwnExcept(s, t);
    match s.threads[t] {
      case Entered(n) => EnteredOwned(s, t, n);
      case Counted(n) => ReceiveOwned(s, t, n);
      case Missed(n) => MissedOwned(s, t, n);
      case ResetHalf(n) => ResetHalfOwned(s, t, n);
      case Alloc(n) => AllocOwned(s, t, n);
      case Sized(n, size) => DecideOwned(s, t, n, size);
      case Swap(n) => SwapOwned(s, t, n);
      case BumpMiss(n) => MissOwned(s, t, n);
      case StoreMiss(n) => StoreMissOwned(s, t, n);
      case ResetMiss(n) => ResetMissOwned(s, t, n);
      case Panicked(_) => LeaveOwned(s, t);
    }
  }

  lemma StartPutOwned(s: Pool, t: nat, id: nat)
    requires Owned(s, {}) && Enabled(s, StartPut(t, id))
    ensures Owned(Apply(s, StartPut(t, id)), {})
  {
    hide QueuesPlaced, StepThread;
    SameQueues(s.queues, s.place, id, InHand(t));
  }

  lemma ForeignOwned(s: Pool, cap: nat)
    requires Owned(s, {})
    ensures Owned(Apply(s, Foreign(cap)), {})
  {
    hide QueuesPlaced, StepThread;
    NewPlace(s.queues, s.place, s.next, Held);
  }

  lemma DrainOwned(s: Pool, q: nat)
    requires Owned(s, {}) && Enabled(s, DrainTick(q))
    ensures Owned(Apply(s, DrainTick(q)), {})
  {
    hide QueuesPlaced, StepThread;
    PopPlaced(s.queues, s.place, q, Gone);
  }

  lemma OwnedStep(s: Pool, a: Action)
    requires Owned(s, {}) && Enabled(s, a)
    ensures Owned(Apply(s, a), {})
  {
    hide ClassOf, StepThread, HeldPlaced, QueuesPlaced, PlacesKnown;
    match a {
      case Step(t) => if HasBuf(s.threads[t]) { StepOwnedWithBuf(s, t); } else { StepOwnedNoBuf(s, t); }
      case DrainTick(q) => DrainOwned(s, q);
      case StartPut(t, id) => StartPutOwned(s, t, id);
      case Foreign(cap) => ForeignOwned(s, cap);
      case _ =>
    }
  }

  lemma SameQueues(queues: seq<seq<Buf>>, place: map<nat, Place>, id: nat, to: Place)
    requires QueuesPlaced(queues, place) && id in place && !place[id].Queued?
    ensures QueuesPlaced(queues, place[id := to])
  {
  }

  lemma NewPlace(queues: seq<seq<Buf>>, place: map<nat, Place>, id: nat, to: Place)
    requires QueuesPlaced(queues, place) && id !in place
    ensures QueuesPlaced(queues, place[id := to])
  {
  }

  // ---------------------------------------------------------------- what one step does besides

  /** The positions whose next action touches a queue or the shared sizes. */
  predicate Touching(pc: Pc) { !pc.Entered? && !pc.Done? && !pc.Panicked? && !pc.PutEntered? }

  /** Counted as a Get, outcome not yet counted. */
  predicate InGet(pc: Pc) { pc.Counted? || pc.Missed? || pc.Got? }

  function Outcomes(c: Counters): (r: nat) { c.half + c.less + c.equal + c.greater + c.miss }

  /** get moves on when a Get is counted, one outcome when its outcome is; otherwise neither. */
  predicate CountersMove(c: Counters, c': Counters, before: bool, after: bool) {
    || (before == after && c'.get == c.get && Outcomes(c') == Outcomes(c))
    || (!before && after && c'.get == U32(c.get + 1) && Outcomes(c') == Outcomes(c))
    || (before && !after && c'.get == c.get && OneMore(c, c'))
  }

  predicate OneMore(c: Counters, c': Counters) {
    || c' == c.(half := U32(c.half + 1)) || c' == c.(less := U32(c.less + 1)) || c' == c.(equal := U32(c.equal + 1))
    || c' == c.(greater := U32(c.greater + 1)) || c' == c.(miss := U32(c.miss + 1))
  }

  predicate SameFlags(s: Pool, s': Pool) {
    s'.b == s.b && s'.writer == s.writer && s'.closed == s.closed && s'.closeSends == s.closeSends && s'.queuesClosed == s.queuesClosed
  }

  ghost predicate StepKeeps(s: Pool, t: nat, s': Pool)
    requires t in s.threads
  {
    && SameFlags(s, s')
    && (|| (s'.threads == s.threads - {t} && CountersMove(s.c, s'.c, InGet(s.threads[t]), false))
        || (t in s'.threads && s'.threads == s.threads[t := s'.threads[t]]
            && (Touching(s'.threads[t]) ==> Touching(s.threads[t]) || !s.closed)
            && CountersMove(s.c, s'.c, InGet(s.threads[t]), InGet(s'.threads[t]))))
  }

  /** A pool that differs in queues, sizes and places only. */
  predicate SameRest(s: Pool, s': Pool) { SameFlags(s, s') && s'.threads == s.threads && s'.c == s.c }

  lemma TrySendKeeps(s: Pool, q: nat, b: Buf)
    requires q < 6
    ensures SameRest(s, TrySend(s, q, b))
  {
    hide ClassOf;
  }

  lemma SetSizeKeeps(s: Pool, n: nat, v: nat)
    requires Class(s, n) > 0
    ensures SameRest(s, SetSize(s, n, v))
  {
    hide ClassOf;
  }

  lemma MoveKeeps(s: Pool, s1: Pool, t: nat, pc: Pc)
    requires t in s.threads && SameFlags(s, s1) && s1.threads == s.threads
    requires Touching(pc) ==> Touching(s.threads[t]) || !s.closed
    requires CountersMove(s.c, s1.c, InGet(s.threads[t]), InGet(pc))
    ensures StepKeeps(s, t, Move(s1, t, pc))
  {
    hide CountersMove;
  }

  lemma MakeKeeps(s: Pool, s1: Pool, t: nat, n: nat, cap: nat)
    requires t in s.threads && SameRest(s, s1) && !InGet(s.threads[t])
    ensures StepKeeps(s, t, Make(s1, t, n, cap))
  {
  }

  lemma LeaveKeeps(s: Pool, s1: Pool, t: nat)
    requires t in s.threads && SameRest(s, s1) && !InGet(s.threads[t])
    ensures StepKeeps(s, t, Leave(s1, t))
  {
  }

  lemma ReceiveKeeps(s: Pool, t: nat, n: nat)
    requires t in s.threads && s.threads[t] == Counted(n)
    ensures StepKeeps(s, t, ReceiveStep(s, t, n))
  {
    hide StepKeeps, ClassOf, Move;
    var q := Class(s, n);
    if s.queues[q] == [] {
      MoveKeeps(s, s, t, Missed(n));
    } else {
      var b := s.queues[q][0];
      MoveKeeps(s, s.(queues := s.queues[q := s.queues[q][1..]], place := s.place[b.id := InHand(t)]), t, Got(n, b));
    }
  }

  lemma ClassifyKeeps(s: Pool, t: nat, n: nat, b: Buf)
    requires t in s.threads && s.threads[t] == Got(n, b)
    ensures StepKeeps(s, t, ClassifyStep(s, t, n, b))
  {
    hide StepKeeps, ClassOf, Move, U32;
    if b.cap > n && b.cap - n >= n {
      MoveKeeps(s, s.(c := s.c.(half := U32(s.c.half + 1))), t, if Class(s, n) == 0 then Back(n, b) else Half(n, b));
    } else if b.cap > n {
      MoveKeeps(s, s.(c := s.c.(less := U32(s.c.less + 1))), t, Done(n, b));
    } else if b.cap == n {
      MoveKeeps(s, s.(c := s.c.(equal := U32(s.c.equal + 1))), t, Done(n, b));
    } else {
      var s1 := s.(c := s.c.(greater := U32(s.c.greater + 1)));
      MoveKeeps(s, Drop(s1, b), t, Alloc(n));
      MoveKeeps(s, s1, t, Greater(n, b));
    }
  }

  lemma HalfKeeps(s: Pool, t: nat, n: nat, b: Buf)
    requires CanStep(s, t) && s.threads[t] == Half(n, b)
    ensures StepKeeps(s, t, HalfStep(s, t, n, b))
  {
    hide StepKeeps, ClassOf, Move, U32;
    var v := U32(s.sizeHalf[Class(s, n) - 1] + 1);
    MoveKeeps(s, s.(sizeHalf := s.sizeHalf[Class(s, n) - 1 := v]), t, if v == 20 then StoreHalf(n, b) else Back(n, b));
  }

  lemma StoreHalfKeeps(s: Pool, t: nat, n: nat, b: Buf)
    requires CanStep(s, t) && s.threads[t] == StoreHalf(n, b)
    ensures StepKeeps(s, t, StoreHalfStep(s, t, n, b))
  {
    hide StepKeeps, ClassOf, Move, SetSize;
    SetSizeKeeps(Drop(s, b), n, b.cap / 2);
    MoveKeeps(s, SetSize(Drop(s, b), n, b.cap / 2), t, ResetHalf(n));
  }

  lemma SwapKeeps(s: Pool, t: nat, n: nat)
    requires CanStep(s, t) && s.threads[t] == Swap(n)
    ensures StepKeeps(s, t, SwapStep(s, t, n))
  {
    hide StepKeeps, ClassOf, Make, SetSize;
    SetSizeKeeps(s, n, n);
    MakeKeeps(s, SetSize(s, n, n), t, n, n);
    MakeKeeps(s, s, t, n, n);
  }

  lemma MissKeeps(s: Pool, t: nat, n: nat)
    requires CanStep(s, t) && s.threads[t] == BumpMiss(n)
    ensures StepKeeps(s, t, MissStep(s, t, n))
  {
    hide StepKeeps, ClassOf, Make, Move, U32;
    var v := U32(s.sizeMiss[Class(s, n) - 1] + 1);
    var s1 := s.(sizeMiss := s.sizeMiss[Class(s, n) - 1 := v]);
    MoveKeeps(s, s1, t, StoreMiss(n));
    MakeKeeps(s, s1, t, n, n);
  }

  lemma SlowStepKeeps(s: Pool, t: nat)
    requires CanStep(s, t) && Slow(s.threads[t])
    ensures StepKeeps(s, t, StepThread(s, t))
  {
    hide StepKeeps, ClassOf, Move, Make, TrySend, SetSize, HalfStep, StoreHalfStep, SwapStep, MissStep;
    match s.threads[t] {
      case Half(n, b) => HalfKeeps(s, t, n, b);
      case StoreHalf(n, b) => StoreHalfKeeps(s, t, n, b);
      case ResetHalf(n) => MakeKeeps(s, s.(sizeHalf := s.sizeHalf[Class(s, n) - 1 := 0]), t, n, n);
      case Greater(n, b) => MoveKeeps(s, s, t, GreaterBack(n, b)); MoveKeeps(s, Drop(s, b), t, Alloc(n));
      case GreaterBack(n, b) => TrySendKeeps(s, Class(s, n), b); MoveKeeps(s, TrySend(s, Class(s, n), b), t, Alloc(n));
      case Sized(n, size) =>
        MoveKeeps(s, s, t, if size == 0 then Swap(n) else BumpMiss(n));
        MoveKeeps(s, s, t, Panicked(n));
        MakeKeeps(s, s, t, n, size);
      case Swap(n) => SwapKeeps(s, t, n);
      case BumpMiss(n) => MissKeeps(s, t, n);
      case StoreMiss(n) => SetSizeKeeps(s, n, n); MoveKeeps(s, SetSize(s, n, n), t, ResetMiss(n));
      case ResetMiss(n) => MakeKeeps(s, s.(sizeMiss := s.sizeMiss[Class(s, n) - 1 := 0]), t, n, n);
    }
  }

  lemma FastStepKeeps(s: Pool, t: nat)
    requires CanStep(s, t) && !Slow(s.threads[t])
    ensures StepKeeps(s, t, StepThread(s, t))
  {
    hide StepKeeps, ClassOf, Move, Make, Leave, TrySend, SetSize, ReceiveStep, ClassifyStep, U32;
    match s.threads[t] {
      case Entered(n) =>
        MakeKeeps(s, s, t, n, n);
        if !s.closed { MoveKeeps(s, s.(c := s.c.(get := U32(s.c.get + 1))), t, Counted(n)); }
      case Counted(n) => ReceiveKeeps(s, t, n);
      case Missed(n) => MoveKeeps(s, s.(c := s.c.(miss := U32(s.c.miss + 1))), t, Alloc(n));
      case Got(n, b) => ClassifyKeeps(s, t, n, b);
      case Back(n, b) => TrySendKeeps(s, Class(s, n), b); MakeKeeps(s, TrySend(s, Class(s, n), b), t, n, n);
      case Alloc(n) =>
        MakeKeeps(s, s, t, n, s.b);
        if Class(s, n) > 0 { MoveKeeps(s, s, t, Sized(n, s.size[Class(s, n) - 1])); }
      case Done(n, b) => DoneKeeps(s, t, b);
      case Panicked(_) => LeaveKeeps(s, s, t);
      case PutEntered(b) =>
        LeaveKeeps(s, Drop(s, b), t);
        if !s.closed { MoveKeeps(s, s.(c := s.c.(put := U32(s.c.put + 1))), t, PutCounted(b)); }
      case PutCounted(b) => TrySendKeeps(s, Class(s, b.cap), b); LeaveKeeps(s, TrySend(s, Class(s, b.cap), b), t);
    }
  }

  lemma DoneKeeps(s: Pool, t: nat, b: Buf)
    requires t in s.threads && s.threads[t].Done?
    ensures StepKeeps(s, t, DoneStep(s, t, b))
  {
  }

  // ---------------------------------------------------------------- closing

  /** Closing waits for every Get and Put, and whoever is past the check of `closed` knows that the
      pool is open. */
  ghost predicate Locked(s: Pool) {
    && (s.writer ==> s.threads == map[])
    && (s.queuesClosed ==> s.closed) && s.closeSends == (if s.closed then 1 else 0)
    && (forall t :: t in s.threads && Touching(s.threads[t]) ==> !s.closed)
  }

  lemma LockedStep(s: Pool, a: Action)
    requires Locked(s) && Enabled(s, a)
    ensures Locked(Apply(s, a))
  {
    hide ClassOf, StepThread, CountersMove;
    if a.Step? { StepThreadKeeps(s, a.t); }
  }

  lemma StepThreadKeeps(s: Pool, t: nat)
    requires CanStep(s, t)
    ensures StepKeeps(s, t, StepThread(s, t))
  {
    hide StepKeeps, StepThread;
    if Slow(s.threads[t]) { SlowStepKeeps(s, t); } else { FastStepKeeps(s, t); }
  }

  // ---------------------------------------------------------------- counting

  ghost function InFlight(threads: map<nat, Pc>): (r: set<nat>) { set t | t in threads && InGet(threads[t]) }

  /** get counts the outcomes and the Gets still in progress, modulo 2^32. */
  ghost predicate Balanced(s: Pool) { s.c.get == U32(Outcomes(s.c) + |InFlight(s.threads)|) }

  lemma ModShift(x: nat, r: nat)
    ensures U32(U32(x) + r) == U32(x + r)
  {
    var y := x % TWO_32 + r;
    assert x + r == TWO_32 * (x / TWO_32 + y / TWO_32) + y % TWO_32;
  }

  /** One more of one outcome. */
  lemma OutcomeOn(x: nat, others: nat, k: nat)
    ensures U32(U32(x + 1) + others + k) == U32(x + others + (k + 1))
  {
    ModShift(x + 1, others + k);
  }

  lemma CountOn(c: Counters, c': Counters, before: bool, after: bool, k: nat, k': nat)
    requires CountersMove(c, c', before, after) && c.get == U32(Outcomes(c) + k)
    requires k' + (if before then 1 else 0) == k + (if after then 1 else 0)
    ensures c'.get == U32(Outcomes(c') + k')
  {
    hide U32;
    if !before && after && c'.get == U32(c.get + 1) {
      ModShift(Outcomes(c) + k, 1);
    }
    if before && !after {
      OutcomeOn(c.half, Outcomes(c) - c.half, k');
      OutcomeOn(c.less, Outcomes(c) - c.less, k');
      OutcomeOn(c.equal, Outcomes(c) - c.equal, k');
      OutcomeOn(c.greater, Outcomes(c) - c.greater, k');
      OutcomeOn(c.miss, Outcomes(c) - c.miss, k');
    }
  }

  lemma SameButOne(a: set<nat>, a': set<nat>, t: nat)
    requires forall u :: u != t ==> (u in a <==> u in a')
    ensures |a'| + (if t in a then 1 else 0) == |a| + (if t in a' then 1 else 0)
  {
    assert a - {t} == a' - {t};
    if t in a { assert |a - {t}| == |a| - 1; } else { assert a - {t} == a; }
    if t in a' { assert |a' - {t}| == |a'| - 1; } else { assert a' - {t} == a'; }
  }

  lemma InFlightAfter(threads: map<nat, Pc>, t: nat, threads': map<nat, Pc>)
    requires t in threads
    requires threads' == threads - {t} || (t in threads' && threads' == threads[t := threads'[t]])
    ensures |InFlight(threads')| + (if InGet(threads[t]) then 1 else 0)
         == |InFlight(threads)| + (if t in threads' && InGet(threads'[t]) then 1 else 0)
  {
    var a, a' := InFlight(threads), InFlight(threads');
    hide InGet;
    forall u | u != t ensures u in a <==> u in a' { }
    SameButOne(a, a', t);
  }

  lemma BalancedStep(s: Pool, a: Action)
    requires Balanced(s) && Enabled(s, a)
    ensures Balanced(Apply(s, a))
  {
    hide ClassOf, StepThread, CountersMove, U32;
    match a {
      case Step(t) =>
        var s' := StepThread(s, t);
        StepThreadKeeps(s, t);
        InFlightAfter(s.threads, t, s'.threads);
        CountOn(s.c, s'.c, InGet(s.threads[t]), t in s'.threads && InGet(s'.threads[t]),
          |InFlight(s.threads)|, |InFlight(s'.threads)|);
      case StartGet(t, n) => assert InFlight(s.threads[t := Entered(n)]) == InFlight(s.threads);
      case StartPut(t, id) => assert InFlight(Apply(s, a).threads) == InFlight(s.threads);
      case _ =>
    }
  }

  // ---------------------------------------------------------------- main results

  /** large: something was too large for the 32-bit sizes before. */
  ghost predicate Inv(s: Pool, large: bool) { Classes(s, large, {}) && Owned(s, {}) && Locked(s) && Balanced(s) }

  lemma InvInit(baseline: nat)
    requires baseline > 0
    ensures Inv(Init(baseline), false)
  {
    InitClasses(baseline);
    assert InFlight(map[]) == {};
  }

  lemma InvStep(s: Pool, large: bool, a: Action)
    requires Inv(s, large) && Enabled(s, a)
    ensures Inv(Apply(s, a), large || TooLarge(a))
  {
    hide Enabled, Apply, Classes, Owned, Locked, Balanced, TooLarge;
    LargeClasses(s, large);
    ClassesStep(s, large || TooLarge(a), a);
    OwnedStep(s, a);
    LockedStep(s, a);
    BalancedStep(s, a);
  }

  /** Something too large was asked for or brought along in the run. */
  predicate SomeTooLarge(acts: seq<Action>) { exists j :: 0 <= j < |acts| && TooLarge(acts[j]) }

  lemma {:induction false} Reachable(ss: seq<Pool>, acts: seq<Action>, baseline: nat, i: nat)
    requires Run(ss, acts, baseline) && i < |ss|
    ensures Inv(ss[i], SomeTooLarge(acts[..i]))
  {
    hide Inv, Apply, Enabled, Init, TooLarge;
    if i == 0 {
      InvInit(baseline);
    } else {
      Reachable(ss, acts, baseline, i - 1);
      assert Next(ss[i - 1], acts[i - 1], ss[i - 1 + 1]);
      InvStep(ss[i - 1], SomeTooLarge(acts[..i - 1]), acts[i - 1]);
      assert acts[..i] == acts[..i - 1] + [acts[i - 1]];
      assert TooLarge(acts[i - 1]) ==> TooLarge(acts[..i][i - 1]);
      assert forall j :: 0 <= j < i - 1 ==> acts[..i][j] == acts[..i - 1][j];
    }
  }

  /** Get(n) hands out at least n bytes in n's size class, so a later Put sends the buffer back to
      the queue the Get looked at, whatever sizes were asked for and put in before.  So do the sends
      inside Get, and the "half" branch is never taken in class 0. */
  lemma GetStaysInClass(ss: seq<Pool>, acts: seq<Action>, baseline: nat, i: nat, t: nat)
    requires Run(ss, acts, baseline) && i < |ss| && t in ss[i].threads
    ensures CanStep(ss[i], t)
    ensures var pc := ss[i].threads[t]; pc.Done? ==> pc.b.cap >= pc.n && Class(ss[i], pc.b.cap) == Class(ss[i], pc.n)
    ensures var pc := ss[i].threads[t]; pc.Panicked? ==> pc.n >= TWO_32 && Class(ss[i], pc.n) > 0
    ensures var pc := ss[i].threads[t]; pc.Back? ==> Class(ss[i], pc.n) > 0
    ensures var pc := ss[i].threads[t]; pc.Back? || pc.GreaterBack? ==> Class(ss[i], pc.b.cap) == Class(ss[i], pc.n)
  {
    hide ClassOf, Owned, Locked, Balanced;
    Reachable(ss, acts, baseline, i);
    LeaveOut(ss[i], SomeTooLarge(acts[..i]), t);
  }

  /** Adaptive sizes are unset or sizes of their class cut to 32 bits; as long as nothing was too large they
      are unset or in their class. */
  lemma SizesStayInClass(ss: seq<Pool>, acts: seq<Action>, baseline: nat, i: nat, k: nat)
    requires Run(ss, acts, baseline) && i < |ss| && k < 5
    ensures NotAbove(ss[i].b, k + 1, ss[i].size[k]) && (ss[i].size[k] == 0 || CutOf(ss[i].b, k + 1, ss[i].size[k]))
    ensures !SomeTooLarge(acts[..i]) ==> ss[i].size[k] == 0 || Class(ss[i], ss[i].size[k]) == k + 1
  {
    hide ClassOf, NotAbove, CutOf, Owned, Locked, Balanced, Next;
    Reachable(ss, acts, baseline, i);
    assert SizeOk(ss[i].b, SomeTooLarge(acts[..i]), k + 1, ss[i].size[k]);
  }

  /** If every holder puts a buffer back at most once, no buffer is with two callers, twice in the
      queues, or both with a caller and in a queue. */
  lemma OneOwner(ss: seq<Pool>, acts: seq<Action>, baseline: nat, i: nat)
    requires Run(ss, acts, baseline) && i < |ss|
    ensures var s := ss[i];
      && (forall q, k :: 0 <= q < 6 && 0 <= k < |s.queues[q]| ==> s.queues[q][k].id !in s.held)
      && (forall q, k, q', k' ::
            0 <= q < 6 && 0 <= k < |s.queues[q]| && 0 <= q' < 6 && 0 <= k' < |s.queues[q']| && (q, k) != (q', k') ==>
            s.queues[q][k].id != s.queues[q'][k'].id)
    ensures var s := ss[i];
      && (forall t :: t in s.threads && HasBuf(s.threads[t]) ==> s.threads[t].b.id !in s.held)
      && (forall t, t' ::
            t in s.threads && t' in s.threads && t != t' && HasBuf(s.threads[t]) && HasBuf(s.threads[t']) ==>
            s.threads[t].b.id != s.threads[t'].b.id)
      && (forall t, q, k ::
            t in s.threads && HasBuf(s.threads[t]) && 0 <= q < 6 && 0 <= k < |s.queues[q]| ==>
            s.threads[t].b.id != s.queues[q][k].id)
  {
    hide ClassOf, Classes, Locked, Balanced, Next;
    Reachable(ss, acts, baseline, i);
    var s := ss[i];
    forall q, k, q', k' | 0 <= q < 6 && 0 <= k < |s.queues[q]| && 0 <= q' < 6 && 0 <= k' < |s.queues[q']| && (q, k) != (q', k')
      ensures s.queues[q][k].id != s.queues[q'][k'].id
    {
      if q == q' && k > k' { assert s.queues[q][k'].id != s.queues[q][k].id; }
    }
  }

  /** No Get or Put ever touches a closed queue. */
  lemma NoClosedQueueTouched(ss: seq<Pool>, acts: seq<Action>, baseline: nat, i: nat, t: nat)
    requires Run(ss, acts, baseline) && i < |ss| && t in ss[i].threads && Touching(ss[i].threads[t])
    ensures !ss[i].closed && !ss[i].queuesClosed && !ss[i].writer
  {
    hide Classes, Owned, Balanced, Next;
    Reachable(ss, acts, baseline, i);
  }

  /** However often Close is called, it notifies the drain goroutine exactly once, so it never sends on
      the channel that goroutine then closes; and queues are closed only on a closed pool. */
  lemma ClosedOnce(ss: seq<Pool>, acts: seq<Action>, baseline: nat, i: nat)
    requires Run(ss, acts, baseline) && i < |ss|
    ensures ss[i].closeSends == (if ss[i].closed then 1 else 0)
    ensures ss[i].queuesClosed ==> ss[i].closed
    ensures ss[i].closed && !ss[i].queuesClosed ==> Enabled(ss[i], DrainClose)
  {
    hide Classes, Owned, Balanced, Next;
    Reachable(ss, acts, baseline, i);
  }

  /** When no Get is in progress, the outcomes add up to the Gets, modulo 2^32. */
  lemma CountersAgree(ss: seq<Pool>, acts: seq<Action>, baseline: nat, i: nat)
    requires Run(ss, acts, baseline) && i < |ss|
    requires forall t :: t in ss[i].threads ==> !InGet(ss[i].threads[t])
    ensures ss[i].c.get == U32(Outcomes(ss[i].c))
  {
    hide Classes, Owned, Locked, Next, U32;
    Reachable(ss, acts, baseline, i);
    assert InFlight(ss[i].threads) == {};
  }
}
