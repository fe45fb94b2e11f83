/** Every pooled buffer and every adaptive size stays in its size class. */
module PoolClasses {
  import opened Basics
  import opened BufferPool

  /** Nothing was too large: then a capacity has a 32-bit half, unless it is in class 0, where nothing
      is stored. */
  predicate CapOk(b: nat, large: bool, cap: nat) { large || ClassOf(b, cap) == 0 || cap < 2 * TWO_32 }

  /** size is no larger than the largest size of class q. */
  predicate NotAbove(b: nat, q: nat, size: nat) {
    match q
    case 1 => size <= b / 4
    case 2 => size <= b / 2
    case 3 => size <= b * 2
    case 4 => size <= b * 4
    case _ => true
  }

  /** size is a size of class q cut to 32 bits. */
  ghost predicate CutOf(b: nat, q: nat, size: nat) { exists v: nat :: ClassOf(b, v) == q && size == U32(v) }

  /** An adaptive size of class q is unset or cut from the class, so never above it; as long as nothing
      was too large it is unset or in the class. */
  ghost predicate SizeOk(b: nat, large: bool, q: nat, size: nat) {
    && size < TWO_32 && NotAbove(b, q, size) && (size == 0 || CutOf(b, q, size))
    && (large || size == 0 || ClassOf(b, size) == q)
  }

  /** What fits a class and is at least as large as one of its sizes is in the class. */
  lemma NotAboveInClass(b: nat, n: nat, size: nat)
    requires ClassOf(b, n) > 0 && n <= size && NotAbove(b, ClassOf(b, n), size)
    ensures ClassOf(b, size) == ClassOf(b, n)
  {
  }

  lemma TruncatedNotAbove(b: nat, v: nat)
    ensures U32(v) < TWO_32 && NotAbove(b, ClassOf(b, v), U32(v)) && (v < TWO_32 ==> U32(v) == v)
    ensures CutOf(b, ClassOf(b, v), U32(v))
  {
  }

  predicate Putting(pc: Pc) { pc.PutEntered? || pc.PutCounted? }

  /** What is known about a goroutine's position. */
  ghost predicate PcClass(b: nat, large: bool, pc: Pc) {
    && (Slow(pc) ==> ClassOf(b, pc.n) > 0)
    && (!Putting(pc) ==> large || pc.n < TWO_32)
    && (HasBuf(pc) ==> CapOk(b, large, pc.b.cap))
    && (HasBuf(pc) && !Putting(pc) ==> ClassOf(b, pc.b.cap) == ClassOf(b, pc.n))
    && (pc.Half? || pc.StoreHalf? || pc.Back? ==> ClassOf(b, pc.n) > 0 && pc.b.cap >= 2 * pc.n)
    && (pc.Done? ==> pc.b.cap >= pc.n)
    && (pc.Sized? ==> SizeOk(b, large, ClassOf(b, pc.n), pc.size))
    && (pc.Panicked? ==> pc.n >= TWO_32 && ClassOf(b, pc.n) > 0)
  }

  /** Every pooled buffer is in the queue of its class. */
  predicate QueuesInClass(b: nat, large: bool, queues: seq<seq<Buf>>) {
    forall q, i :: 0 <= q < |queues| && 0 <= i < |queues[q]| ==>
      ClassOf(b, queues[q][i].cap) == q && CapOk(b, large, queues[q][i].cap)
  }

  ghost predicate SizesInClass(b: nat, large: bool, size: seq<nat>) {
    forall k :: 0 <= k < |size| ==> SizeOk(b, large, k + 1, size[k])
  }

  ghost predicate HeldOk(b: nat, large: bool, held: map<nat, Buf>) {
    forall id :: id in held ==> CapOk(b, large, held[id].cap)
  }

  ghost predicate ThreadsInClass(b: nat, large: bool, threads: map<nat, Pc>, except: set<nat>) {
    forall t :: t in threads && t !in except ==> PcClass(b, large, threads[t])
  }

  ghost predicate Classes(s: Pool, large: bool, except: set<nat>) {
    && QueuesInClass(s.b, large, s.queues) && SizesInClass(s.b, large, s.size)
    && HeldOk(s.b, large, s.held) && ThreadsInClass(s.b, large, s.threads, except)
  }

  lemma MoveClasses(s: Pool, large: bool, t: nat, pc: Pc)
    requires Classes(s, large, {t}) && PcClass(s.b, large, pc)
    ensures Classes(Move(s, t, pc), large, {})
  {
    hide PcClass, QueuesInClass, SizesInClass, HeldOk;
  }

  lemma MakeClasses(s: Pool, large: bool, t: nat, n: nat, cap: nat)
    requires Classes(s, large, {t}) && (large || n < TWO_32) && n <= cap && ClassOf(s.b, cap) == ClassOf(s.b, n) && CapOk(s.b, large, cap)
    ensures Classes(Make(s, t, n, cap), large, {})
  {
    hide QueuesInClass, SizesInClass, HeldOk, ClassOf;
    assert PcClass(s.b, large, Done(n, Buf(s.next, cap)));
  }

  lemma PushInClass(b: nat, large: bool, queues: seq<seq<Buf>>, q: nat, x: Buf)
    requires q < |queues| && QueuesInClass(b, large, queues) && ClassOf(b, x.cap) == q && CapOk(b, large, x.cap)
    ensures QueuesInClass(b, large, queues[q := queues[q] + [x]])
  {
    hide ClassOf;
  }

  lemma PopInClass(b: nat, large: bool, queues: seq<seq<Buf>>, q: nat)
    requires q < |queues| && queues[q] != [] && QueuesInClass(b, large, queues)
    ensures QueuesInClass(b, large, queues[q := queues[q][1..]])
    ensures ClassOf(b, queues[q][0].cap) == q && CapOk(b, large, queues[q][0].cap)
  {
    hide ClassOf;
  }

  lemma TrySendClasses(s: Pool, large: bool, q: nat, b: Buf, except: set<nat>)
    requires Classes(s, large, except) && CapOk(s.b, large, b.cap) && q == Class(s, b.cap)
    ensures Classes(TrySend(s, q, b), large, except) && TrySend(s, q, b).b == s.b && TrySend(s, q, b).threads == s.threads
  {
    hide ClassOf, QueuesInClass, SizesInClass, HeldOk, ThreadsInClass;
    PushInClass(s.b, large, s.queues, q, b);
  }

  lemma SetSizeClasses(s: Pool, large: bool, n: nat, v: nat, except: set<nat>)
    requires Classes(s, large, except) && Class(s, n) > 0 && SizeOk(s.b, large, Class(s, n), U32(v))
    ensures Classes(SetSize(s, n, v), large, except) && SetSize(s, n, v).b == s.b
  {
    hide ClassOf, QueuesInClass, HeldOk, ThreadsInClass, SizeOk, U32;
  }

  lemma LeaveOut(s: Pool, large: bool, t: nat)
    requires Classes(s, large, {}) && t in s.threads
    ensures Classes(s, large, {t}) && PcClass(s.b, large, s.threads[t]) && CanStep(s, t)
  {
    hide QueuesInClass, SizesInClass, HeldOk;
  }

  lemma LeaveClasses(s: Pool, large: bool, t: nat)
    requires Classes(s, large, {t})
    ensures Classes(Leave(s, t), large, {})
  {
    hide PcClass, QueuesInClass, SizesInClass, HeldOk;
  }

  /** A received buffer in class 0 is never twice the size asked for: the "half" branch of the fast
      path is dead code. */
  lemma NoHalfOnFastPath(b: nat, n: nat, cap: nat)
    requires ClassOf(b, n) == 0 && ClassOf(b, cap) == 0
    ensures !(cap > n && cap - n >= n)
  {
  }

  lemma ClassifyClasses(s: Pool, large: bool, t: nat, n: nat, b: Buf)
    requires Classes(s, large, {t}) && PcClass(s.b, large, Got(n, b))
    ensures Classes(ClassifyStep(s, t, n, b), large, {})
  {
    hide QueuesInClass, SizesInClass, HeldOk, ThreadsInClass, ClassOf, Move;
    if b.cap > n && b.cap - n >= n {
      if Class(s, n) == 0 { NoHalfOnFastPath(s.b, n, b.cap); }
      MoveClasses(s.(c := s.c.(half := U32(s.c.half + 1))), large, t, Half(n, b));
    } else if b.cap > n {
      MoveClasses(s.(c := s.c.(less := U32(s.c.less + 1))), large, t, Done(n, b));
    } else if b.cap == n {
      MoveClasses(s.(c := s.c.(equal := U32(s.c.equal + 1))), large, t, Done(n, b));
    } else {
      var s1 := s.(c := s.c.(greater := U32(s.c.greater + 1)));
      if Class(s, n) == 0 { MoveClasses(Drop(s1, b), large, t, Alloc(n)); } else { MoveClasses(s1, large, t, Greater(n, b)); }
    }
  }

  lemma ReceiveClasses(s: Pool, large: bool, t: nat, n: nat)
    requires Classes(s, large, {t}) && (large || n < TWO_32)
    ensures Classes(ReceiveStep(s, t, n), large, {})
  {
    hide QueuesInClass, SizesInClass, HeldOk, ThreadsInClass, ClassOf, Move;
    var q := Class(s, n);
    if s.queues[q] == [] {
      MoveClasses(s, large, t, Missed(n));
    } else {
      PopInClass(s.b, large, s.queues, q);
      var b := s.queues[q][0];
      MoveClasses(s.(queues := s.queues[q := s.queues[q][1..]], place := s.place[b.id := InHand(t)]), large, t, Got(n, b));
    }
  }

  lemma HalfClasses(s: Pool, large: bool, t: nat, n: nat, b: Buf)
    requires Classes(s, large, {t}) && PcClass(s.b, large, Half(n, b))
    ensures Classes(HalfStep(s, t, n, b), large, {})
  {
    hide QueuesInClass, SizesInClass, HeldOk, ThreadsInClass, ClassOf, Move, Make;
    var v := U32(s.sizeHalf[Class(s, n) - 1] + 1);
    MoveClasses(s.(sizeHalf := s.sizeHalf[Class(s, n) - 1 := v]), large, t, if v == 20 then StoreHalf(n, b) else Back(n, b));
  }

  /** Half of a capacity that is at least twice n stays in n's class, unless it is cut to 32 bits. */
  lemma HalfSize(b: nat, large: bool, n: nat, cap: nat)
    requires ClassOf(b, n) == ClassOf(b, cap) > 0 && 2 * n <= cap && CapOk(b, large, cap)
    ensures SizeOk(b, large, ClassOf(b, n), U32(cap / 2))
  {
    hide ClassOf, NotAbove, U32;
    ClassConvex(b, n, cap / 2, cap);
    TruncatedNotAbove(b, cap / 2);
  }

  lemma StoreHalfClasses(s: Pool, large: bool, t: nat, n: nat, b: Buf)
    requires Classes(s, large, {t}) && PcClass(s.b, large, StoreHalf(n, b))
    ensures Classes(StoreHalfStep(s, t, n, b), large, {})
  {
    hide QueuesInClass, SizesInClass, HeldOk, ClassOf, U32;
    HalfSize(s.b, large, n, b.cap);
    SetSizeClasses(Drop(s, b), large, n, b.cap / 2, {t});
    MoveClasses(SetSize(Drop(s, b), n, b.cap / 2), large, t, ResetHalf(n));
  }

  lemma GreaterClasses(s: Pool, large: bool, t: nat, n: nat, b: Buf)
    requires Classes(s, large, {t}) && PcClass(s.b, large, Greater(n, b))
    ensures Classes(GreaterStep(s, t, n, b), large, {})
  {
    hide QueuesInClass, SizesInClass, HeldOk, ThreadsInClass, ClassOf, Move, Make;
    MoveClasses(s, large, t, GreaterBack(n, b));
    MoveClasses(Drop(s, b), large, t, Alloc(n));
  }

  lemma AllocClasses(s: Pool, large: bool, t: nat, n: nat)
    requires Classes(s, large, {t}) && (large || n < TWO_32)
    ensures Classes(AllocStep(s, t, n), large, {})
  {
    hide QueuesInClass, HeldOk;
    if Class(s, n) == 0 { MakeClasses(s, large, t, n, s.b); }
  }

  lemma DecideClasses(s: Pool, large: bool, t: nat, n: nat, size: nat)
    requires Classes(s, large, {t}) && PcClass(s.b, large, Sized(n, size))
    ensures Classes(DecideStep(s, t, n, size), large, {})
  {
    hide QueuesInClass, SizesInClass, HeldOk, ClassOf, NotAbove, U32, CutOf;
    TruncatedNotAbove(s.b, n);
    if U32(n) > size {
    } else if n > size {
      MoveClasses(s, large, t, Panicked(n));
    } else {
      NotAboveInClass(s.b, n, size);
      MakeClasses(s, large, t, n, size);
    }
  }

  lemma SwapClasses(s: Pool, large: bool, t: nat, n: nat)
    requires Classes(s, large, {t}) && PcClass(s.b, large, Swap(n))
    ensures Classes(SwapStep(s, t, n), large, {})
  {
    hide QueuesInClass, SizesInClass, HeldOk, ClassOf, NotAbove, U32, CutOf;
    TruncatedNotAbove(s.b, n);
    SetSizeClasses(s, large, n, n, {t});
    MakeClasses(if s.size[Class(s, n) - 1] == 0 then SetSize(s, n, n) else s, large, t, n, n);
  }

  lemma MissClasses(s: Pool, large: bool, t: nat, n: nat)
    requires Classes(s, large, {t}) && PcClass(s.b, large, BumpMiss(n))
    ensures Classes(MissStep(s, t, n), large, {})
  {
    hide QueuesInClass, SizesInClass, HeldOk, ThreadsInClass, ClassOf, Move, Make;
    var v := U32(s.sizeMiss[Class(s, n) - 1] + 1);
    var s1 := s.(sizeMiss := s.sizeMiss[Class(s, n) - 1 := v]);
    MoveClasses(s1, large, t, StoreMiss(n));
    MakeClasses(s1, large, t, n, n);
  }

  lemma DoneClasses(s: Pool, large: bool, t: nat, b: Buf)
    requires Classes(s, large, {t}) && CapOk(s.b, large, b.cap)
    ensures Classes(DoneStep(s, t, b), large, {})
  {
    hide QueuesInClass, SizesInClass, ClassOf;
  }

  lemma EnteredClasses(s: Pool, large: bool, t: nat, n: nat)
    requires Classes(s, large, {t}) && PcClass(s.b, large, Entered(n))
    ensures Classes(EnteredStep(s, t, n), large, {})
  {
    hide QueuesInClass, SizesInClass, HeldOk, ThreadsInClass, ClassOf, Move, Make, Leave, TrySend, SetSize;
    MakeClasses(s, large, t, n, n);
    MoveClasses(s.(c := s.c.(get := U32(s.c.get + 1))), large, t, Counted(n));
  }

  lemma MissedClasses(s: Pool, large: bool, t: nat, n: nat)
    requires Classes(s, large, {t}) && PcClass(s.b, large, Missed(n))
    ensures Classes(MissedStep(s, t, n), large, {})
  {
    hide QueuesInClass, SizesInClass, HeldOk, ThreadsInClass, ClassOf, Move, Make, Leave, TrySend, SetSize;
    MoveClasses(s.(c := s.c.(miss := U32(s.c.miss + 1))), large, t, Alloc(n));
  }

  lemma ResetHalfClasses(s: Pool, large: bool, t: nat, n: nat)
    requires Classes(s, large, {t}) && PcClass(s.b, large, ResetHalf(n))
    ensures Classes(ResetHalfStep(s, t, n), large, {})
  {
    hide QueuesInClass, SizesInClass, HeldOk, ThreadsInClass, ClassOf, Move, Make, Leave, TrySend, SetSize;
    MakeClasses(s.(sizeHalf := s.sizeHalf[Class(s, n) - 1 := 0]), large, t, n, n);
  }

  lemma BackClasses(s: Pool, large: bool, t: nat, n: nat, b: Buf)
    requires Classes(s, large, {t}) && PcClass(s.b, large, Back(n, b))
    ensures Classes(BackStep(s, t, n, b), large, {})
  {
    hide QueuesInClass, SizesInClass, HeldOk, ThreadsInClass, ClassOf, Move, Make, Leave, TrySend, SetSize;
    TrySendClasses(s, large, Class(s, n), b, {t});
    MakeClasses(TrySend(s, Class(s, n), b), large, t, n, n);
  }

  lemma GreaterBackClasses(s: Pool, large: bool, t: nat, n: nat, b: Buf)
    requires Classes(s, large, {t}) && PcClass(s.b, large, GreaterBack(n, b))
    ensures Classes(GreaterBackStep(s, t, n, b), large, {})
  {
    hide QueuesInClass, SizesInClass, HeldOk, ThreadsInClass, ClassOf, Move, Make, Leave, TrySend, SetSize;
    TrySendClasses(s, large, Class(s, n), b, {t});
    MoveClasses(TrySend(s, Class(s, n), b), large, t, Alloc(n));
  }

  lemma StoreMissClasses(s: Pool, large: bool, t: nat, n: nat)
    requires Classes(s, large, {t}) && PcClass(s.b, large, StoreMiss(n))
    ensures Classes(StoreMissStep(s, t, n), large, {})
  {
    hide QueuesInClass, SizesInClass, HeldOk, ThreadsInClass, ClassOf, Move, Make, Leave, TrySend, SetSize;
    TruncatedNotAbove(s.b, n);
    SetSizeClasses(s, large, n, n, {t});
    MoveClasses(SetSize(s, n, n), large, t, ResetMiss(n));
  }

  lemma ResetMissClasses(s: Pool, large: bool, t: nat, n: nat)
    requires Classes(s, large, {t}) && PcClass(s.b, large, ResetMiss(n))
    ensures Classes(ResetMissStep(s, t, n), large, {})
  {
    hide QueuesInClass, SizesInClass, HeldOk, ThreadsInClass, ClassOf, Move, Make, Leave, TrySend, SetSize;
    MakeClasses(s.(sizeMiss := s.sizeMiss[Class(s, n) - 1 := 0]), large, t, n, n);
  }

  lemma PutEnteredClasses(s: Pool, large: bool, t: nat, b: Buf)
    requires Classes(s, large, {t}) && PcClass(s.b, large, PutEntered(b))
    ensures Classes(PutEnteredStep(s, t, b), large, {})
  {
    hide QueuesInClass, SizesInClass, HeldOk, ThreadsInClass, ClassOf, Move, Make, Leave, TrySend, SetSize;
    LeaveClasses(Drop(s, b), large, t);
    MoveClasses(s.(c := s.c.(put := U32(s.c.put + 1))), large, t, PutCounted(b));
  }

  lemma PutCountedClasses(s: Pool, large: bool, t: nat, b: Buf)
    requires Classes(s, large, {t}) && PcClass(s.b, large, PutCounted(b))
    ensures Classes(PutCountedStep(s, t, b), large, {})
  {
    hide QueuesInClass, SizesInClass, HeldOk, ThreadsInClass, ClassOf, Move, Make, Leave, TrySend, SetSize;
    TrySendClasses(s, large, Class(s, b.cap), b, {t});
    LeaveClasses(TrySend(s, Class(s, b.cap), b), large, t);
  }

  lemma StepClasses(s: Pool, large: bool, t: nat)
    requires Classes(s, large, {}) && t in s.threads
    ensures CanStep(s, t) && Classes(StepThread(s, t), large, {})
  {
    hide ClassOf, Classes, EnteredStep, MissedStep, StoreHalfStep, ResetHalfStep, BackStep, GreaterBackStep, StoreMissStep,
      ResetMissStep, PutEnteredStep, PutCountedStep, ReceiveStep, ClassifyStep, HalfStep, GreaterStep, AllocStep,
      DecideStep, SwapStep, MissStep, DoneStep;
    LeaveOut(s, large, t);
    match s.threads[t] {
      case Entered(n) => EnteredClasses(s, large, t, n);
      case Counted(n) => ReceiveClasses(s, large, t, n);
      case Missed(n) => MissedClasses(s, large, t, n);
      case Got(n, b) => ClassifyClasses(s, large, t, n, b);
      case Half(n, b) => HalfClasses(s, large, t, n, b);
      case StoreHalf(n, b) => StoreHalfClasses(s, large, t, n, b);
      case ResetHalf(n) => ResetHalfClasses(s, large, t, n);
      case Back(n, b) => BackClasses(s, large, t, n, b);
      case Greater(n, b) => GreaterClasses(s, large, t, n, b);
      case GreaterBack(n, b) => GreaterBackClasses(s, large, t, n, b);
      case Alloc(n) => AllocClasses(s, large, t, n);
      case Sized(n, size) => DecideClasses(s, large, t, n, size);
      case Swap(n) => SwapClasses(s, large, t, n);
      case BumpMiss(n) => MissClasses(s, large, t, n);
      case StoreMiss(n) => StoreMissClasses(s, large, t, n);
      case ResetMiss(n) => ResetMissClasses(s, large, t, n);
      case Done(n, b) => DoneClasses(s, large, t, b);
      case Panicked(n) => LeaveClasses(s, large, t);
      case PutEntered(b) => PutEnteredClasses(s, large, t, b);
      case PutCounted(b) => PutCountedClasses(s, large, t, b);
    }
  }

  lemma InitClasses(baseline: nat)
    requires baseline > 0
    ensures Classes(Init(baseline), false, {})
  {
  }

  /** From the first thing that is too large on, less is claimed. */
  lemma LargeClasses(s: Pool, large: bool)
    requires Classes(s, large, {})
    ensures Classes(s, true, {})
  {
    hide ClassOf, NotAbove;
  }

  lemma ForeignClasses(s: Pool, large: bool, b: Buf)
    requires Classes(s, large, {}) && CapOk(s.b, large, b.cap)
    ensures Classes(s.(held := s.held[b.id := b], next := s.next + 1, place := s.place[b.id := Held]), large, {})
  {
    hide ClassOf, QueuesInClass, SizesInClass, ThreadsInClass;
  }

  lemma ClassesStep(s: Pool, large: bool, a: Action)
    requires Classes(s, large, {}) && Enabled(s, a) && (TooLarge(a) ==> large)
    ensures Classes(Apply(s, a), large, {})
  {
    hide ClassOf, QueuesInClass, SizesInClass, StepThread;
    match a {
      case StartGet(t, n) => MoveClasses(s, large, t, Entered(n));
      case Foreign(cap) => ForeignClasses(s, large, Buf(s.next, cap));
      case Step(t) => StepClasses(s, large, t);
      case DrainTick(q) => PopInClass(s.b, large, s.queues, q);
      case _ =>
    }
  }
}
