/** The buffer pool: six bounded queues of buffers, one for each size class, with adaptive sizes,
    counters and a close protocol.  Every step is one atomic action of one goroutine. */
module BufferPool {
  import opened Basics

  // ---------------------------------------------------------------- size classes

  /** The size class of n: (b/2, b] is class 0, the others are 1 to 5 from small to large. */
  function ClassOf(b: nat, n: nat): (r: nat)
    ensures r <= 5
  {
    if b / 2 < n <= b then 0
    else if n <= b / 4 then 1
    else if n <= b / 2 then 2
    else if n <= b * 2 then 3
    else if n <= b * 4 then 4
    else 5
  }

  /** `poolNum` */
  method PoolNum(baseline0: nat, baseline: seq<nat>, n: nat) returns (k: nat)
    requires baseline == [baseline0 / 4, baseline0 / 2, baseline0 * 2, baseline0 * 4]
    ensures k == ClassOf(baseline0, n) <= 5
  {
    if n <= baseline0 && n > baseline0 / 2 {
      return 0;
    }
    for i := 0 to |baseline|
      invariant forall j :: 0 <= j < i ==> n > baseline[j]
    {
      assert baseline[0] == baseline0 / 4 && baseline[1] == baseline0 / 2;
      assert baseline[2] == baseline0 * 2 && baseline[3] == baseline0 * 4;
      if n <= baseline[i] {
        return i + 1;
      }
    }
    assert n > baseline[0] && n > baseline[1] && n > baseline[2] && n > baseline[3];
    return |baseline| + 1;
  }

  /** Classes are intervals: what lies between two sizes of a class is in the class.  In class 0 no
      size is twice another. */
  lemma ClassConvex(b: nat, x: nat, y: nat, z: nat)
    requires ClassOf(b, x) == ClassOf(b, z) && x <= y <= z
    ensures ClassOf(b, y) == ClassOf(b, x)
    ensures ClassOf(b, x) == 0 ==> z < 2 * x
  {
  }

  /** The classes of a pool with baseline 100. */
  lemma ClassesInFull(n: nat)
    ensures ClassOf(100, n) ==
      if n <= 25 then 1 else if n <= 50 then 2 else if n <= 100 then 0 else if n <= 200 then 3 else if n <= 400 then 4 else 5
  {
  }

  // ---------------------------------------------------------------- state

  datatype Buf = Buf(id: nat, cap: nat)

  /** Where a goroutine is inside Get(n) or Put(b).  A buffer in hand is part of the position. */
  datatype Pc =
    | Entered(n: nat)
    | Counted(n: nat)
    | Missed(n: nat)
    | Got(n: nat, b: Buf)
    | Half(n: nat, b: Buf)
    | StoreHalf(n: nat, b: Buf)
    | ResetHalf(n: nat)
    | Back(n: nat, b: Buf)
    | Greater(n: nat, b: Buf)
    | GreaterBack(n: nat, b: Buf)
    | Alloc(n: nat)
    | Sized(n: nat, size: nat)
    | Swap(n: nat)
    | BumpMiss(n: nat)
    | StoreMiss(n: nat)
    | ResetMiss(n: nat)
    | Done(n: nat, b: Buf)
    | Panicked(n: nat)   // make([]byte, n, size) with n above size
    | PutEntered(b: Buf)
    | PutCounted(b: Buf)

  /** History: where each buffer that ever existed is now. */
  datatype Place = Held | Queued(q: nat) | InHand(t: nat) | Gone

  datatype Counters = Counters(get: nat, put: nat, half: nat, less: nat, equal: nat, greater: nat, miss: nat)

  datatype State = State(
    b: nat,
    queues: seq<seq<Buf>>,
    size: seq<nat>,
    sizeHalf: seq<nat>,
    sizeMiss: seq<nat>,
    c: Counters,
    // Goroutines inside Get or Put; each holds the read lock.
    threads: map<nat, Pc>,
    // Buffers in the hands of callers.
    held: map<nat, Buf>,
    writer: bool,
    closed: bool,
    // Sends to closeC so far.
    closeSends: nat,
    queuesClosed: bool,
    next: nat,
    place: map<nat, Place>)

  const QUEUE_CAP: seq<nat> := [2, 2, 4, 4, 2, 1]

  predicate Shaped(s: State) {
    s.b > 0 && |s.queues| == 6 && |s.size| == 5 && |s.sizeHalf| == 5 && |s.sizeMiss| == 5
  }

  type Pool = s: State | Shaped(s) witness Init(1)

  /** `NewBufferPool` */
  function Init(baseline: nat): (r: State) {
    State(baseline, [[], [], [], [], [], []], [0, 0, 0, 0, 0], [0, 0, 0, 0, 0], [0, 0, 0, 0, 0],
      Counters(0, 0, 0, 0, 0, 0, 0), map[], map[], false, false, 0, false, 0, map[])
  }

  /** Go's uint32. */
  function U32(x: nat): (r: nat) { x % TWO_32 }

  function Class(s: Pool, n: nat): (q: nat)
    ensures q < 6
  {
    ClassOf(s.b, n)
  }

  // ---------------------------------------------------------------- one step of a goroutine

  function Move(s: Pool, t: nat, pc: Pc): (r: Pool) { s.(threads := s.threads[t := pc]) }

  function Leave(s: Pool, t: nat): (r: Pool) { s.(threads := s.threads - {t}) }

  /** `make([]byte, n, cap)`, about to be returned. */
  function Make(s: Pool, t: nat, n: nat, cap: nat): (r: Pool) {
    s.(threads := s.threads[t := Done(n, Buf(s.next, cap))], next := s.next + 1, place := s.place[s.next := InHand(t)])
  }

  /** The buffer is left to the garbage collector. */
  function Drop(s: Pool, b: Buf): (r: Pool) { s.(place := s.place[b.id := Gone]) }

  /** A send with a default branch on queue q. */
  function TrySend(s: Pool, q: nat, b: Buf): (r: Pool)
    requires q < 6
  {
    if |s.queues[q]| < QUEUE_CAP[q]
    then s.(queues := s.queues[q := s.queues[q] + [b]], place := s.place[b.id := Queued(q)])
    else Drop(s, b)
  }

  /** `case b := <-pool`, or its default branch. */
  function ReceiveStep(s: Pool, t: nat, n: nat): (r: Pool) {
    var q := Class(s, n);
    if s.queues[q] == [] then Move(s, t, Missed(n))
    else
      var b := s.queues[q][0];
      Move(s.(queues := s.queues[q := s.queues[q][1..]], place := s.place[b.id := InHand(t)]), t, Got(n, b))
  }

  /** The switch on the capacity of a received buffer. */
  function ClassifyStep(s: Pool, t: nat, n: nat, b: Buf): (r: Pool) {
    var q := Class(s, n);
    if b.cap > n && b.cap - n >= n then
      Move(s.(c := s.c.(half := U32(s.c.half + 1))), t, if q == 0 then Back(n, b) else Half(n, b))
    else if b.cap > n then Move(s.(c := s.c.(less := U32(s.c.less + 1))), t, Done(n, b))
    else if b.cap == n then Move(s.(c := s.c.(equal := U32(s.c.equal + 1))), t, Done(n, b))
    else
      var s1 := s.(c := s.c.(greater := U32(s.c.greater + 1)));
      if q == 0 then Move(Drop(s1, b), t, Alloc(n)) else Move(s1, t, Greater(n, b))
  }

  /** Sized: the adaptive size was loaded and decides how to allocate. */
  function DecideStep(s: Pool, t: nat, n: nat, size: nat): (r: Pool) {
    if U32(n) > size then Move(s, t, if size == 0 then Swap(n) else BumpMiss(n))
    else if n > size then Move(s, t, Panicked(n))
    else Make(s, t, n, size)
  }

  function SetSize(s: Pool, n: nat, v: nat): (r: Pool)
    requires Class(s, n) > 0
  {
    s.(size := s.size[Class(s, n) - 1 := U32(v)])
  }

  function HalfStep(s: Pool, t: nat, n: nat, b: Buf): (r: Pool)
    requires Class(s, n) > 0
  {
    var k := Class(s, n) - 1;
    var v := U32(s.sizeHalf[k] + 1);
    Move(s.(sizeHalf := s.sizeHalf[k := v]), t, if v == 20 then StoreHalf(n, b) else Back(n, b))
  }

  function MissStep(s: Pool, t: nat, n: nat): (r: Pool)
    requires Class(s, n) > 0
  {
    var k := Class(s, n) - 1;
    var v := U32(s.sizeMiss[k] + 1);
    var s1 := s.(sizeMiss := s.sizeMiss[k := v]);
    if v == 20 then Move(s1, t, StoreMiss(n)) else Make(s1, t, n, n)
  }

  function GreaterStep(s: Pool, t: nat, n: nat, b: Buf): (r: Pool)
    requires Class(s, n) > 0
  {
    if U32(b.cap) >= s.size[Class(s, n) - 1] then Move(s, t, GreaterBack(n, b)) else Move(Drop(s, b), t, Alloc(n))
  }

  function AllocStep(s: Pool, t: nat, n: nat): (r: Pool) {
    if Class(s, n) == 0 then Make(s, t, n, s.b) else Move(s, t, Sized(n, s.size[Class(s, n) - 1]))
  }

  function SwapStep(s: Pool, t: nat, n: nat): (r: Pool)
    requires Class(s, n) > 0
  {
    Make(if s.size[Class(s, n) - 1] == 0 then SetSize(s, n, n) else s, t, n, n)
  }

  function DoneStep(s: Pool, t: nat, b: Buf): (r: Pool) {
    s.(threads := s.threads - {t}, held := s.held[b.id := b], place := s.place[b.id := Held])
  }

  /** The positions in which only sizes above class 0 occur. */
  predicate Slow(pc: Pc) {
    pc.Half? || pc.StoreHalf? || pc.ResetHalf? || pc.Greater? || pc.GreaterBack? || pc.Sized? || pc.Swap?
    || pc.BumpMiss? || pc.StoreMiss? || pc.ResetMiss?
  }

  predicate HasBuf(pc: Pc) {
    pc.Got? || pc.Half? || pc.StoreHalf? || pc.Back? || pc.Greater? || pc.GreaterBack? || pc.Done?
    || pc.PutEntered? || pc.PutCounted?
  }

  predicate CanStep(s: Pool, t: nat) { t in s.threads && (Slow(s.threads[t]) ==> Class(s, s.threads[t].n) > 0) }

  function EnteredStep(s: Pool, t: nat, n: nat): (r: Pool) {
    if s.closed then Make(s, t, n, n) else Move(s.(c := s.c.(get := U32(s.c.get + 1))), t, Counted(n))
  }

  function MissedStep(s: Pool, t: nat, n: nat): (r: Pool) { Move(s.(c := s.c.(miss := U32(s.c.miss + 1))), t, Alloc(n)) }

  function StoreHalfStep(s: Pool, t: nat, n: nat, b: Buf): (r: Pool)
    requires Class(s, n) > 0
  {
    Move(SetSize(Drop(s, b), n, b.cap / 2), t, ResetHalf(n))
  }

  function ResetHalfStep(s: Pool, t: nat, n: nat): (r: Pool)
    requires Class(s, n) > 0
  {
    Make(s.(sizeHalf := s.sizeHalf[Class(s, n) - 1 := 0]), t, n, n)
  }

  function BackStep(s: Pool, t: nat, n: nat, b: Buf): (r: Pool) { Make(TrySend(s, Class(s, n), b), t, n, n) }

  function GreaterBackStep(s: Pool, t: nat, n: nat, b: Buf): (r: Pool) { Move(TrySend(s, Class(s, n), b), t, Alloc(n)) }

  function StoreMissStep(s: Pool, t: nat, n: nat): (r: Pool)
    requires Class(s, n) > 0
  {
    Move(SetSize(s, n, n), t, ResetMiss(n))
  }

  function ResetMissStep(s: Pool, t: nat, n: nat): (r: Pool)
    requires Class(s, n) > 0
  {
    Make(s.(sizeMiss := s.sizeMiss[Class(s, n) - 1 := 0]), t, n, n)
  }

  function PutEnteredStep(s: Pool, t: nat, b: Buf): (r: Pool) {
    if s.closed then Leave(Drop(s, b), t) else Move(s.(c := s.c.(put := U32(s.c.put + 1))), t, PutCounted(b))
  }

  function PutCountedStep(s: Pool, t: nat, b: Buf): (r: Pool) { Leave(TrySend(s, Class(s, b.cap), b), t) }

  function StepThread(s: Pool, t: nat): (r: Pool)
    requires CanStep(s, t)
  {
    match s.threads[t]
    case Entered(n) => EnteredStep(s, t, n)
    case Counted(n) => ReceiveStep(s, t, n)
    case Missed(n) => MissedStep(s, t, n)
    case Got(n, b) => ClassifyStep(s, t, n, b)
    case Half(n, b) => HalfStep(s, t, n, b)
    case StoreHalf(n, b) => StoreHalfStep(s, t, n, b)
    case ResetHalf(n) => ResetHalfStep(s, t, n)
    case Back(n, b) => BackStep(s, t, n, b)
    case Greater(n, b) => GreaterStep(s, t, n, b)
    case GreaterBack(n, b) => GreaterBackStep(s, t, n, b)
    case Alloc(n) => AllocStep(s, t, n)
    case Sized(n, size) => DecideStep(s, t, n, size)
    case Swap(n) => SwapStep(s, t, n)
    case BumpMiss(n) => MissStep(s, t, n)
    case StoreMiss(n) => StoreMissStep(s, t, n)
    case ResetMiss(n) => ResetMissStep(s, t, n)
    case Done(n, b) => DoneStep(s, t, b)
    case Panicked(n) => Leave(s, t)
    case PutEntered(b) => PutEnteredStep(s, t, b)
    case PutCounted(b) => PutCountedStep(s, t, b)
  }

  // ---------------------------------------------------------------- all steps

  datatype Action =
    | StartGet(t: nat, n: nat)
    | StartPut(t: nat, id: nat)
    | Step(t: nat)
    | Foreign(cap: nat)   // a caller makes a buffer of its own
    | CloseLock | CloseBody | CloseUnlock
    | DrainTick(q: nat)
    | DrainClose

  /** A size asked for, or a buffer brought along, that is too large for the 32-bit sizes. */
  predicate TooLarge(a: Action) { (a.StartGet? && a.n >= TWO_32) || (a.Foreign? && a.cap >= 2 * TWO_32) }

  predicate Enabled(s: Pool, a: Action) {
    match a
    case StartGet(t, _) => t !in s.threads && !s.writer
    case StartPut(t, id) => t !in s.threads && !s.writer && id in s.held
    case Step(t) => CanStep(s, t)
    case Foreign(_) => true
    case CloseLock => !s.writer && |s.threads| == 0
    case CloseBody => s.writer
    case CloseUnlock => s.writer
    case DrainTick(q) => q < 6 && !s.queuesClosed && s.queues[q] != []
    case DrainClose => s.closeSends > 0 && !s.queuesClosed
  }

  function Apply(s: Pool, a: Action): (r: Pool)
    requires Enabled(s, a)
  {
    match a
    case StartGet(t, n) => Move(s, t, Entered(n))
    case StartPut(t, id) =>
      Move(s.(held := s.held - {id}, place := s.place[id := InHand(t)]), t, PutEntered(Buf(id, s.held[id].cap)))
    case Step(t) => StepThread(s, t)
    case Foreign(cap) =>
      s.(held := s.held[s.next := Buf(s.next, cap)], next := s.next + 1, place := s.place[s.next := Held])
    case CloseLock => s.(writer := true)
    case CloseBody => s.(closed := true, closeSends := s.closeSends + (if s.closed then 0 else 1))
    case CloseUnlock => s.(writer := false)
    case DrainTick(q) => Drop(s.(queues := s.queues[q := s.queues[q][1..]]), s.queues[q][0])
    case DrainClose => s.(queuesClosed := true)
  }

  // ---------------------------------------------------------------- runs

  ghost predicate Next(s: Pool, a: Action, s': Pool) { Enabled(s, a) && s' == Apply(s, a) }

  ghost predicate Run(ss: seq<Pool>, acts: seq<Action>, baseline: nat) {
    && baseline > 0 && |ss| == |acts| + 1 && ss[0] == Init(baseline)
    && forall i :: 0 <= i < |acts| ==> Next(ss[i], acts[i], ss[i + 1])
  }
}
