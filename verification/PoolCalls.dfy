/** What whole calls of Get and Put do: alone, and among other goroutines. */
module PoolCalls {
  import opened Basics
  import opened BufferPool
  import opened PoolClasses
  import opened PoolSafety

  // ---------------------------------------------------------------- a call that runs alone

  /** What the pool holds: queued buffers, adaptive sizes and their two counters. */
  datatype Contents = Contents(queues: seq<seq<Buf>>, size: seq<nat>, sizeHalf: seq<nat>, sizeMiss: seq<nat>)

  function ContentsOf(s: Pool): (c: Contents)
    ensures |c.queues| == 6 && |c.size| == |c.sizeHalf| == |c.sizeMiss| == 5
  {
    Contents(s.queues, s.size, s.sizeHalf, s.sizeMiss)
  }

  predicate FullSize(c: Contents) { |c.queues| == 6 && |c.size| == |c.sizeHalf| == |c.sizeMiss| == 5 }

  /** What Get hands out: a pooled buffer, a new one of the given capacity, or nothing. */
  datatype Handed = Reused(b: Buf) | Fresh(cap: nat) | Nothing

  function Push(c: Contents, q: nat, b: Buf): (r: Contents)
    requires FullSize(c) && q < 6
    ensures FullSize(r)
  {
    if |c.queues[q]| < QUEUE_CAP[q] then c.(queues := c.queues[q := c.queues[q] + [b]]) else c
  }

  /** Get(n) when no pooled buffer serves. */
  function AllocSpec(c: Contents, base: nat, n: nat): (r: (Contents, Handed))
    requires FullSize(c)
    ensures FullSize(r.0)
  {
    var q := ClassOf(base, n);
    if q == 0 then (c, Fresh(base))
    else
      var size, cut := c.size[q - 1], n % 0x1_0000_0000;
      if cut <= size then (c, if n <= size then Fresh(size) else Nothing)
      else if size == 0 then (c.(size := c.size[q - 1 := cut]), Fresh(n))
      else
        var misses := (c.sizeMiss[q - 1] + 1) % 0x1_0000_0000;
        if misses == 20
        then (c.(size := c.size[q - 1 := cut], sizeMiss := c.sizeMiss[q - 1 := 0]), Fresh(n))
        else (c.(sizeMiss := c.sizeMiss[q - 1 := misses]), Fresh(n))
  }

  /** Get(n) after taking b out of its class: b serves if n bytes fill more than half of it.  A larger
      buffer goes back, but every twentieth time its half becomes the adaptive size instead; a smaller
      one goes back if it is not below the adaptive size. */
  function TakenSpec(c: Contents, base: nat, n: nat, b: Buf): (r: (Contents, Handed))
    requires FullSize(c)
  {
    var q := ClassOf(base, n);
    if b.cap == n || n < b.cap < 2 * n then (c, Reused(b))
    else if b.cap > n then
      if q == 0 then (Push(c, q, b), Fresh(n))
      else
        var halves := (c.sizeHalf[q - 1] + 1) % 0x1_0000_0000;
        if halves == 20
        then (c.(size := c.size[q - 1 := b.cap / 2 % 0x1_0000_0000], sizeHalf := c.sizeHalf[q - 1 := 0]), Fresh(n))
        else (Push(c.(sizeHalf := c.sizeHalf[q - 1 := halves]), q, b), Fresh(n))
    else if q > 0 && b.cap % 0x1_0000_0000 >= c.size[q - 1] then AllocSpec(Push(c, q, b), base, n)
    else AllocSpec(c, base, n)
  }

  function GetSpec(c: Contents, base: nat, n: nat): (r: (Contents, Handed))
    requires FullSize(c)
  {
    var q := ClassOf(base, n);
    if c.queues[q] == [] then AllocSpec(c, base, n)
    else TakenSpec(c.(queues := c.queues[q := c.queues[q][1..]]), base, n, c.queues[q][0])
  }

  /** Goroutine t takes k steps and no other does anything. */
  function Go(s: Pool, t: nat, k: nat): (r: Pool)
    decreases k
  {
    if k == 0 || !CanStep(s, t) then s else Go(StepThread(s, t), t, k - 1)
  }

  /** Left alone, t ends its call with the pool and the callers holding c and held. */
  ghost predicate Ends(s: Pool, t: nat, c: Contents, held: map<nat, Buf>) {
    exists k: nat :: Ended(Go(s, t, k), s, t, c, held)
  }

  predicate Ended(e: Pool, s: Pool, t: nat, c: Contents, held: map<nat, Buf>) {
    e.threads == s.threads - {t} && ContentsOf(e) == c && e.held == held
  }

  lemma EndsStep(s: Pool, t: nat, c: Contents, held: map<nat, Buf>)
    requires CanStep(s, t) && Ends(StepThread(s, t), t, c, held) && StepThread(s, t).threads - {t} == s.threads - {t}
    ensures Ends(s, t, c, held)
  {
    hide CanStep, StepThread, ContentsOf;
    var k: nat :| Ended(Go(StepThread(s, t), t, k), StepThread(s, t), t, c, held);
    assert Go(s, t, k + 1) == Go(StepThread(s, t), t, k);
    assert Ended(Go(s, t, k + 1), s, t, c, held);
  }

  lemma EndsNow(s: Pool, t: nat, held: map<nat, Buf>)
    requires t in s.threads && CanStep(s, t) && StepThread(s, t).threads == s.threads - {t}
    requires ContentsOf(StepThread(s, t)) == ContentsOf(s) && StepThread(s, t).held == held
    ensures Ends(s, t, ContentsOf(s), held)
  {
    hide CanStep, StepThread, ContentsOf;
    var e := StepThread(s, t);
    assert Go(e, t, 0) == e;
    assert Go(s, t, 1) == e;
    assert Ended(Go(s, t, 1), s, t, ContentsOf(s), held);
  }

  function After(s: Pool, h: Handed): (r: map<nat, Buf>) {
    match h
    case Reused(b) => s.held[b.id := b]
    case Fresh(cap) => s.held[s.next := Buf(s.next, cap)]
    case Nothing => s.held
  }

  lemma DoneEnds(s: Pool, t: nat, n: nat, b: Buf)
    requires t in s.threads && s.threads[t] == Done(n, b)
    ensures Ends(s, t, ContentsOf(s), s.held[b.id := b])
  {
    EndsNow(s, t, s.held[b.id := b]);
  }

  lemma PanickedEnds(s: Pool, t: nat, n: nat)
    requires t in s.threads && s.threads[t] == Panicked(n)
    ensures Ends(s, t, ContentsOf(s), s.held)
  {
    EndsNow(s, t, s.held);
  }

  /** A step that makes the buffer to be handed out. */
  lemma MakeEnds(s: Pool, t: nat, s1: Pool, n: nat, cap: nat)
    requires t in s.threads && CanStep(s, t) && StepThread(s, t) == Make(s1, t, n, cap)
    requires s1.threads == s.threads && s1.held == s.held && s1.next == s.next
    ensures Ends(s, t, ContentsOf(s1), After(s, Fresh(cap)))
  {
    hide StepThread, CanStep, ContentsOf;
    var s2 := Make(s1, t, n, cap);
    assert ContentsOf(s2) == ContentsOf(s1) by { MakeKeepsContents(s1, t, n, cap); }
    DoneEnds(s2, t, n, Buf(s.next, cap));
    assert s2.threads - {t} == s.threads - {t};
    EndsStep(s, t, ContentsOf(s1), After(s, Fresh(cap)));
  }

  lemma MakeKeepsContents(s: Pool, t: nat, n: nat, cap: nat)
    ensures ContentsOf(Make(s, t, n, cap)) == ContentsOf(s)
  {
  }

  /** A step that only moves on. */
  lemma MoveEnds(s: Pool, t: nat, s1: Pool, pc: Pc, c: Contents, held: map<nat, Buf>)
    requires t in s.threads && CanStep(s, t) && StepThread(s, t) == Move(s1, t, pc) && s1.threads == s.threads
    requires Ends(Move(s1, t, pc), t, c, held)
    ensures Ends(s, t, c, held)
  {
    hide StepThread, CanStep, Ends;
    assert Move(s1, t, pc).threads - {t} == s.threads - {t};
    EndsStep(s, t, c, held);
  }

  /** Get has to allocate: from every position on the way. */
  lemma SwapEnds(s: Pool, t: nat, n: nat)
    requires t in s.threads && s.threads[t] == Swap(n) && Class(s, n) > 0 && s.size[Class(s, n) - 1] == 0
    ensures var c := ContentsOf(s).(size := s.size[Class(s, n) - 1 := n % 0x1_0000_0000]);
      Ends(s, t, c, After(s, Fresh(n)))
  {
    hide ClassOf, Make, Ends, After;
    MakeEnds(s, t, SetSize(s, n, n), n, n);
  }

  lemma StoreMissEnds(s: Pool, t: nat, n: nat)
    requires t in s.threads && s.threads[t] == StoreMiss(n) && Class(s, n) > 0
    ensures var k := Class(s, n) - 1;
      Ends(s, t, ContentsOf(s).(size := s.size[k := n % 0x1_0000_0000], sizeMiss := s.sizeMiss[k := 0]), After(s, Fresh(n)))
  {
    hide ClassOf, Make, Ends;
    var k := Class(s, n) - 1;
    var s1 := Move(SetSize(s, n, n), t, ResetMiss(n));
    ResetMissEnds(s1, t, n);
    MoveEnds(s, t, SetSize(s, n, n), ResetMiss(n), ContentsOf(s1).(sizeMiss := s1.sizeMiss[k := 0]), After(s, Fresh(n)));
  }

  lemma BumpStep(s: Pool, t: nat, n: nat)
    requires t in s.threads && s.threads[t] == BumpMiss(n) && Class(s, n) > 0
    ensures CanStep(s, t) && StepThread(s, t) == MissStep(s, t, n)
  {
  }

  lemma BumpEnds(s: Pool, t: nat, n: nat)
    requires t in s.threads && s.threads[t] == BumpMiss(n) && Class(s, n) > 0
    ensures var k := Class(s, n) - 1; var misses := (s.sizeMiss[k] + 1) % 0x1_0000_0000;
      var c := if misses == 20
               then ContentsOf(s).(size := s.size[k := n % 0x1_0000_0000], sizeMiss := s.sizeMiss[k := 0])
               else ContentsOf(s).(sizeMiss := s.sizeMiss[k := misses]);
      Ends(s, t, c, After(s, Fresh(n)))
  {
    hide ClassOf, Make, Ends, StepThread, CanStep;
    BumpStep(s, t, n);
    var k := Class(s, n) - 1;
    var v := U32(s.sizeMiss[k] + 1);
    var s1 := s.(sizeMiss := s.sizeMiss[k := v]);
    if v == 20 {
      StoreMissEnds(Move(s1, t, StoreMiss(n)), t, n);
      assert s.sizeMiss[k := v][k := 0] == s.sizeMiss[k := 0];
      MoveEnds(s, t, s1, StoreMiss(n),
        ContentsOf(s).(size := s.size[k := n % 0x1_0000_0000], sizeMiss := s.sizeMiss[k := 0]), After(s, Fresh(n)));
    } else {
      MakeEnds(s, t, s1, n, n);
    }
  }

  lemma ResetMissEnds(s: Pool, t: nat, n: nat)
    requires t in s.threads && s.threads[t] == ResetMiss(n) && Class(s, n) > 0
    ensures Ends(s, t, ContentsOf(s).(sizeMiss := s.sizeMiss[Class(s, n) - 1 := 0]), After(s, Fresh(n)))
  {
    hide ClassOf, Make, Ends, After;
    MakeEnds(s, t, s.(sizeMiss := s.sizeMiss[Class(s, n) - 1 := 0]), n, n);
  }

  lemma SizedStep(s: Pool, t: nat, n: nat, size: nat)
    requires t in s.threads && s.threads[t] == Sized(n, size) && Class(s, n) > 0
    ensures CanStep(s, t) && StepThread(s, t) == DecideStep(s, t, n, size)
  {
  }

  lemma SameAfter(s: Pool, t: nat, pc: Pc, h: Handed)
    ensures After(Move(s, t, pc), h) == After(s, h)
  {
  }

  lemma SizedEnds(s: Pool, t: nat, n: nat, size: nat)
    requires t in s.threads && s.threads[t] == Sized(n, size) && Class(s, n) > 0 && size == s.size[Class(s, n) - 1]
    ensures var r := AllocSpec(ContentsOf(s), s.b, n); Ends(s, t, r.0, After(s, r.1))
  {
    hide ClassOf, Make, Ends, StepThread, CanStep;
    var r := AllocSpec(ContentsOf(s), s.b, n);
    SizedStep(s, t, n, size);
    if U32(n) > size {
      var pc := if size == 0 then Swap(n) else BumpMiss(n);
      if size == 0 { SwapEnds(Move(s, t, pc), t, n); } else { BumpEnds(Move(s, t, pc), t, n); }
      hide After;
      SameAfter(s, t, pc, Fresh(n));
      MoveEnds(s, t, s, pc, r.0, After(s, r.1));
    } else if n > size {
      PanickedEnds(Move(s, t, Panicked(n)), t, n);
      MoveEnds(s, t, s, Panicked(n), r.0, After(s, r.1));
    } else {
      MakeEnds(s, t, s, n, size);
    }
  }

  lemma AllocEnds(s: Pool, t: nat, n: nat)
    requires t in s.threads && s.threads[t] == Alloc(n)
    ensures var r := AllocSpec(ContentsOf(s), s.b, n); Ends(s, t, r.0, After(s, r.1))
  {
    hide ClassOf, Make, Ends;
    var r := AllocSpec(ContentsOf(s), s.b, n);
    if Class(s, n) == 0 {
      MakeEnds(s, t, s, n, s.b);
    } else {
      var next := Move(s, t, Sized(n, s.size[Class(s, n) - 1]));
      SizedEnds(next, t, n, s.size[Class(s, n) - 1]);
      MoveEnds(s, t, s, Sized(n, s.size[Class(s, n) - 1]), r.0, After(s, r.1));
    }
  }

  // ---------------------------------------------------------------- Get with a buffer in hand

  lemma PushIsSend(s: Pool, q: nat, b: Buf)
    requires q < 6
    ensures ContentsOf(TrySend(s, q, b)) == Push(ContentsOf(s), q, b)
    ensures var r := TrySend(s, q, b); r.threads == s.threads && r.held == s.held && r.next == s.next && r.b == s.b
  {
    hide ClassOf;
    if |s.queues[q]| < QUEUE_CAP[q] { } else { }
  }

  lemma BackEnds(s: Pool, t: nat, n: nat, b: Buf)
    requires t in s.threads && s.threads[t] == Back(n, b)
    ensures Ends(s, t, Push(ContentsOf(s), Class(s, n), b), After(s, Fresh(n)))
  {
    hide ClassOf, Make, Ends, After, TrySend, ContentsOf, Push;
    PushIsSend(s, Class(s, n), b);
    MakeEnds(s, t, TrySend(s, Class(s, n), b), n, n);
  }

  lemma StoreHalfEnds(s: Pool, t: nat, n: nat, b: Buf)
    requires t in s.threads && s.threads[t] == StoreHalf(n, b) && Class(s, n) > 0
    ensures var k := Class(s, n) - 1;
      Ends(s, t, ContentsOf(s).(size := s.size[k := b.cap / 2 % 0x1_0000_0000], sizeHalf := s.sizeHalf[k := 0]), After(s, Fresh(n)))
  {
    hide ClassOf, Make, Ends;
    var s1 := SetSize(Drop(s, b), n, b.cap / 2);
    var s2 := Move(s1, t, ResetHalf(n));
    var c := ContentsOf(s2).(sizeHalf := s2.sizeHalf[Class(s, n) - 1 := 0]);
    MakeEnds(s2, t, s2.(sizeHalf := s2.sizeHalf[Class(s, n) - 1 := 0]), n, n);
    MoveEnds(s, t, s1, ResetHalf(n), c, After(s, Fresh(n)));
  }

  lemma HalfStepIs(s: Pool, t: nat, n: nat, b: Buf)
    requires t in s.threads && s.threads[t] == Half(n, b) && Class(s, n) > 0
    ensures CanStep(s, t) && StepThread(s, t) == HalfStep(s, t, n, b)
  {
  }

  lemma HalfEnds(s: Pool, t: nat, n: nat, b: Buf)
    requires t in s.threads && s.threads[t] == Half(n, b) && Class(s, n) > 0
    ensures var k := Class(s, n) - 1; var halves := (s.sizeHalf[k] + 1) % 0x1_0000_0000;
      var c := if halves == 20
               then ContentsOf(s).(size := s.size[k := b.cap / 2 % 0x1_0000_0000], sizeHalf := s.sizeHalf[k := 0])
               else Push(ContentsOf(s).(sizeHalf := s.sizeHalf[k := halves]), Class(s, n), b);
      Ends(s, t, c, After(s, Fresh(n)))
  {
    hide ClassOf, Ends, Push, StepThread, CanStep;
    HalfStepIs(s, t, n, b);
    var k := Class(s, n) - 1;
    var v := U32(s.sizeHalf[k] + 1);
    var s1 := s.(sizeHalf := s.sizeHalf[k := v]);
    if v == 20 {
      StoreHalfEnds(Move(s1, t, StoreHalf(n, b)), t, n, b);
      assert s.sizeHalf[k := v][k := 0] == s.sizeHalf[k := 0];
      MoveEnds(s, t, s1, StoreHalf(n, b),
        ContentsOf(s).(size := s.size[k := b.cap / 2 % 0x1_0000_0000], sizeHalf := s.sizeHalf[k := 0]), After(s, Fresh(n)));
    } else {
      BackEnds(Move(s1, t, Back(n, b)), t, n, b);
      MoveEnds(s, t, s1, Back(n, b), Push(ContentsOf(s).(sizeHalf := s.sizeHalf[k := v]), Class(s, n), b), After(s, Fresh(n)));
    }
  }

  lemma GreaterBackEnds(s: Pool, t: nat, n: nat, b: Buf)
    requires t in s.threads && s.threads[t] == GreaterBack(n, b) && Class(s, n) > 0
    ensures var r := AllocSpec(Push(ContentsOf(s), Class(s, n), b), s.b, n); Ends(s, t, r.0, After(s, r.1))
  {
    hide ClassOf, Ends, Push, TrySend, AllocSpec, ContentsOf;
    var q := Class(s, n);
    var s1 := TrySend(s, q, b);
    PushIsSend(s, q, b);
    var r := AllocSpec(Push(ContentsOf(s), q, b), s.b, n);
    AllocEnds(Move(s1, t, Alloc(n)), t, n);
    SameContents(s1, t, Alloc(n));
    SameAfter(s1, t, Alloc(n), r.1);
    MoveEnds(s, t, s1, Alloc(n), r.0, After(s, r.1));
  }

  lemma GreaterStepIs(s: Pool, t: nat, n: nat, b: Buf)
    requires t in s.threads && s.threads[t] == Greater(n, b) && Class(s, n) > 0
    ensures CanStep(s, t) && StepThread(s, t) == GreaterStep(s, t, n, b)
  {
  }

  lemma GreaterEnds(s: Pool, t: nat, n: nat, b: Buf)
    requires t in s.threads && s.threads[t] == Greater(n, b) && Class(s, n) > 0
    ensures var back := b.cap % 0x1_0000_0000 >= s.size[Class(s, n) - 1];
      var r := AllocSpec(if back then Push(ContentsOf(s), Class(s, n), b) else ContentsOf(s), s.b, n);
      Ends(s, t, r.0, After(s, r.1))
  {
    hide ClassOf, Ends, Push, TrySend, AllocSpec, ContentsOf, StepThread, CanStep, After;
    GreaterStepIs(s, t, n, b);
    var q := Class(s, n);
    if U32(b.cap) >= s.size[q - 1] {
      var r := AllocSpec(Push(ContentsOf(s), q, b), s.b, n);
      GreaterBackEnds(Move(s, t, GreaterBack(n, b)), t, n, b);
      SameContents(s, t, GreaterBack(n, b));
      SameAfter(s, t, GreaterBack(n, b), r.1);
      MoveEnds(s, t, s, GreaterBack(n, b), r.0, After(s, r.1));
    } else {
      DropContents(s, b);
      DroppedEnds(s, Drop(s, b), t, n);
    }
  }

  /** The buffer in hand is dropped, and one is allocated. */
  lemma DroppedEnds(s: Pool, s1: Pool, t: nat, n: nat)
    requires t in s.threads && CanStep(s, t) && StepThread(s, t) == Move(s1, t, Alloc(n)) && s1.threads == s.threads
    requires ContentsOf(s1) == ContentsOf(s) && s1.held == s.held && s1.next == s.next && s1.b == s.b
    ensures var r := AllocSpec(ContentsOf(s), s.b, n); Ends(s, t, r.0, After(s, r.1))
  {
    hide ClassOf, Ends, AllocSpec, ContentsOf, StepThread, CanStep;
    var r := AllocSpec(ContentsOf(s), s.b, n);
    AllocEnds(Move(s1, t, Alloc(n)), t, n);
    SameContents(s1, t, Alloc(n));
    SameAfter(s1, t, Alloc(n), r.1);
    MoveEnds(s, t, s1, Alloc(n), r.0, After(s, r.1));
  }

  lemma GotEnds(s: Pool, t: nat, n: nat, b: Buf)
    requires t in s.threads && s.threads[t] == Got(n, b)
    ensures var r := TakenSpec(ContentsOf(s), s.b, n, b); Ends(s, t, r.0, After(s, r.1))
  {
    hide ClassOf, Ends, Push, AllocSpec, StepThread, CanStep, ContentsOf, U32;
    GotStepIs(s, t, n, b);
    if b.cap > n && b.cap - n >= n {
      var s1 := s.(c := s.c.(half := U32(s.c.half + 1)));
      CountContents(s, s1);
      LargeEnds(s, s1, t, n, b);
    } else if b.cap > n {
      var s1 := s.(c := s.c.(less := U32(s.c.less + 1)));
      CountContents(s, s1);
      ServedEnds(s, s1, t, n, b);
    } else if b.cap == n {
      var s1 := s.(c := s.c.(equal := U32(s.c.equal + 1)));
      CountContents(s, s1);
      ServedEnds(s, s1, t, n, b);
    } else {
      var s1 := s.(c := s.c.(greater := U32(s.c.greater + 1)));
      CountContents(s, s1);
      if Class(s, n) == 0 {
        DropContents(s1, b);
        DroppedEnds(s, Drop(s1, b), t, n);
      } else {
        SmallEnds(s, s1, t, n, b);
      }
    }
  }

  lemma GotStepIs(s: Pool, t: nat, n: nat, b: Buf)
    requires t in s.threads && s.threads[t] == Got(n, b)
    ensures CanStep(s, t) && StepThread(s, t) == ClassifyStep(s, t, n, b)
  {
  }

  /** Pools that differ in counters only. */
  predicate OnlyCounted(s: Pool, s1: Pool) {
    s1.threads == s.threads && s1.held == s.held && s1.next == s.next && s1.b == s.b && ContentsOf(s1) == ContentsOf(s)
  }

  lemma CountContents(s: Pool, s1: Pool)
    requires s1 == s.(c := s1.c)
    ensures OnlyCounted(s, s1)
  {
  }

  lemma ServedEnds(s: Pool, s1: Pool, t: nat, n: nat, b: Buf)
    requires t in s.threads && CanStep(s, t) && StepThread(s, t) == Move(s1, t, Done(n, b)) && OnlyCounted(s, s1)
    ensures Ends(s, t, ContentsOf(s), After(s, Reused(b)))
  {
    hide Ends, StepThread, CanStep, ContentsOf;
    DoneEnds(Move(s1, t, Done(n, b)), t, n, b);
    SameContents(s1, t, Done(n, b));
    MoveEnds(s, t, s1, Done(n, b), ContentsOf(s), After(s, Reused(b)));
  }

  lemma LargeEnds(s: Pool, s1: Pool, t: nat, n: nat, b: Buf)
    requires t in s.threads && CanStep(s, t) && OnlyCounted(s, s1) && b.cap >= 2 * n && b.cap > n
    requires StepThread(s, t) == Move(s1, t, if Class(s, n) == 0 then Back(n, b) else Half(n, b))
    ensures var r := TakenSpec(ContentsOf(s), s.b, n, b); Ends(s, t, r.0, After(s, r.1))
  {
    hide ClassOf, Ends, Push, StepThread, CanStep;
    var r := TakenSpec(ContentsOf(s), s.b, n, b);
    var pc := if Class(s, n) == 0 then Back(n, b) else Half(n, b);
    var s2 := Move(s1, t, pc);
    if Class(s, n) == 0 { BackEnds(s2, t, n, b); } else { HalfEnds(s2, t, n, b); }
    MoveEnds(s, t, s1, pc, r.0, After(s, r.1));
  }

  lemma SmallEnds(s: Pool, s1: Pool, t: nat, n: nat, b: Buf)
    requires t in s.threads && CanStep(s, t) && OnlyCounted(s, s1) && b.cap < n && Class(s, n) > 0
    requires StepThread(s, t) == Move(s1, t, Greater(n, b))
    ensures var r := TakenSpec(ContentsOf(s), s.b, n, b); Ends(s, t, r.0, After(s, r.1))
  {
    hide ClassOf, Ends, Push, StepThread, CanStep, AllocSpec;
    var r := TakenSpec(ContentsOf(s), s.b, n, b);
    GreaterEnds(Move(s1, t, Greater(n, b)), t, n, b);
    MoveEnds(s, t, s1, Greater(n, b), r.0, After(s, r.1));
  }

  lemma CountedStepIs(s: Pool, t: nat, n: nat)
    requires t in s.threads && s.threads[t] == Counted(n)
    ensures CanStep(s, t) && StepThread(s, t) == ReceiveStep(s, t, n)
  {
  }

  lemma CountedEnds(s: Pool, t: nat, n: nat)
    requires t in s.threads && s.threads[t] == Counted(n)
    ensures var r := GetSpec(ContentsOf(s), s.b, n); Ends(s, t, r.0, After(s, r.1))
  {
    hide ClassOf, Ends, TakenSpec, AllocSpec, StepThread, CanStep, After;
    CountedStepIs(s, t, n);
    var q, r := Class(s, n), GetSpec(ContentsOf(s), s.b, n);
    if s.queues[q] == [] {
      MissedEnds(Move(s, t, Missed(n)), t, n);
      SameAfter(s, t, Missed(n), r.1);
      MoveEnds(s, t, s, Missed(n), r.0, After(s, r.1));
    } else {
      var b := s.queues[q][0];
      var s1 := s.(queues := s.queues[q := s.queues[q][1..]], place := s.place[b.id := InHand(t)]);
      GotEnds(Move(s1, t, Got(n, b)), t, n, b);
      SameAfter(s1, t, Got(n, b), r.1);
      TakenAfter(s, s1, r.1);
      MoveEnds(s, t, s1, Got(n, b), r.0, After(s, r.1));
    }
  }

  lemma TakenAfter(s: Pool, s1: Pool, h: Handed)
    requires s1.held == s.held && s1.next == s.next
    ensures After(s1, h) == After(s, h)
  {
  }

  lemma MissedEnds(s: Pool, t: nat, n: nat)
    requires t in s.threads && s.threads[t] == Missed(n)
    ensures var r := AllocSpec(ContentsOf(s), s.b, n); Ends(s, t, r.0, After(s, r.1))
  {
    hide ClassOf, Ends, AllocSpec, U32, After;
    DroppedEnds(s, s.(c := s.c.(miss := U32(s.c.miss + 1))), t, n);
  }

  /** A Get(n) that runs alone on an open pool ends as GetSpec says: with that pool, and with the caller
      holding what it hands out. */
  lemma GetAlone(s: Pool, t: nat, n: nat)
    requires t in s.threads && s.threads[t] == Entered(n) && !s.closed
    ensures var r := GetSpec(ContentsOf(s), s.b, n); Ends(s, t, r.0, After(s, r.1))
  {
    hide ClassOf, Ends, GetSpec, U32, ContentsOf;
    var s1 := s.(c := s.c.(get := U32(s.c.get + 1)));
    var r := GetSpec(ContentsOf(s), s.b, n);
    CountContents(s, s1);
    SameContents(s1, t, Counted(n));
    CountedEnds(Move(s1, t, Counted(n)), t, n);
    SameAfter(s1, t, Counted(n), r.1);
    TakenAfter(s, s1, r.1);
    MoveEnds(s, t, s1, Counted(n), r.0, After(s, r.1));
  }

  lemma SameContents(s: Pool, t: nat, pc: Pc)
    ensures ContentsOf(Move(s, t, pc)) == ContentsOf(s)
  {
  }

  lemma DropContents(s: Pool, b: Buf)
    ensures ContentsOf(Drop(s, b)) == ContentsOf(s)
  {
  }

  /** Each outcome of a Get advances its own counter and no other. */
  lemma OutcomeCounted(s: Pool, t: nat)
    requires CanStep(s, t)
    ensures match s.threads[t]
      case Missed(_) => StepThread(s, t).c == s.c.(miss := (s.c.miss + 1) % 0x1_0000_0000)
      case Got(n, b) =>
        StepThread(s, t).c ==
          if b.cap == n then s.c.(equal := (s.c.equal + 1) % 0x1_0000_0000)
          else if b.cap < n then s.c.(greater := (s.c.greater + 1) % 0x1_0000_0000)
          else if b.cap < 2 * n then s.c.(less := (s.c.less + 1) % 0x1_0000_0000)
          else s.c.(half := (s.c.half + 1) % 0x1_0000_0000)
      case _ => true
  {
    hide ClassOf;
  }

  /** A Put that runs alone on an open pool adds the buffer to the queue of its class, if there is room. */
  lemma PutAlone(s: Pool, t: nat, b: Buf)
    requires t in s.threads && s.threads[t] == PutEntered(b) && !s.closed
    ensures Ends(s, t, Push(ContentsOf(s), Class(s, b.cap), b), s.held)
  {
    hide ClassOf, Ends, U32, ContentsOf, Push, TrySend;
    var q := Class(s, b.cap);
    var s1 := s.(c := s.c.(put := U32(s.c.put + 1)));
    var s2 := Move(s1, t, PutCounted(b));
    CountContents(s, s1);
    SameContents(s1, t, PutCounted(b));
    PushIsSend(s2, q, b);
    PutEnds(s2, t, b);
    MoveEnds(s, t, s1, PutCounted(b), Push(ContentsOf(s), q, b), s.held);
  }

  lemma PutEnds(s: Pool, t: nat, b: Buf)
    requires t in s.threads && s.threads[t] == PutCounted(b)
    ensures Ends(s, t, Push(ContentsOf(s), Class(s, b.cap), b), s.held)
  {
    hide ClassOf, ContentsOf, Push, TrySend, Go;
    var q := Class(s, b.cap);
    PushIsSend(s, q, b);
    var e := StepThread(s, t);
    LeaveContents(TrySend(s, q, b), t);
    GoOnce(s, t);
    assert Ended(Go(s, t, 1), s, t, Push(ContentsOf(s), q, b), s.held);
  }

  lemma LeaveContents(s: Pool, t: nat)
    ensures ContentsOf(Leave(s, t)) == ContentsOf(s)
  {
  }

  lemma GoOnce(s: Pool, t: nat)
    requires CanStep(s, t)
    ensures Go(s, t, 1) == StepThread(s, t)
  {
    hide CanStep, StepThread;
    assert Go(StepThread(s, t), t, 0) == StepThread(s, t);
  }

  /** On a closed pool Get allocates and Put drops. */
  lemma ClosedAlone(s: Pool, t: nat)
    requires t in s.threads && s.closed
    ensures s.threads[t].Entered? ==> Ends(s, t, ContentsOf(s), After(s, Fresh(s.threads[t].n)))
    ensures s.threads[t].PutEntered? ==> Ends(s, t, ContentsOf(s), s.held)
  {
    hide ClassOf, Ends, ContentsOf;
    match s.threads[t] {
      case Entered(n) => MakeEnds(s, t, s, n, n);
      case PutEntered(b) =>
        DropContents(s, b);
        LeaveContents(Drop(s, b), t);
        LeaveEnds(s, t);
      case _ =>
    }
  }

  lemma LeaveEnds(s: Pool, t: nat)
    requires t in s.threads && CanStep(s, t) && StepThread(s, t).threads == s.threads - {t}
    requires ContentsOf(StepThread(s, t)) == ContentsOf(s) && StepThread(s, t).held == s.held
    ensures Ends(s, t, ContentsOf(s), s.held)
  {
    hide ContentsOf, StepThread, CanStep;
    EndsNow(s, t, s.held);
  }

  /** Unless the pool is being closed, a goroutine may ask for any size and put back any buffer it holds. */
  lemma AnyCall(s: Pool, t: nat, n: nat, id: nat)
    requires t !in s.threads && !s.writer
    ensures Enabled(s, StartGet(t, n)) && Apply(s, StartGet(t, n)).threads == s.threads[t := Entered(n)]
    ensures id in s.held ==> Enabled(s, StartPut(t, id))
    ensures id in s.held ==> Apply(s, StartPut(t, id)).threads == s.threads[t := PutEntered(Buf(id, s.held[id].cap))]
  {
  }

  // ---------------------------------------------------------------- among other goroutines

  /** No queue holds more than its channel has room for. */
  predicate QueuesBounded(queues: seq<seq<Buf>>) { |queues| == 6 && forall q :: 0 <= q < 6 ==> |queues[q]| <= QUEUE_CAP[q] }

  lemma SendBounded(s: Pool, q: nat, b: Buf)
    requires q < 6 && QueuesBounded(s.queues)
    ensures QueuesBounded(TrySend(s, q, b).queues)
  {
    hide ClassOf;
  }

  lemma ReceiveBounded(s: Pool, t: nat, n: nat)
    requires QueuesBounded(s.queues)
    ensures QueuesBounded(ReceiveStep(s, t, n).queues)
  {
    hide ClassOf;
  }

  predicate TouchesQueue(pc: Pc) { pc.Counted? || pc.Back? || pc.GreaterBack? || pc.PutCounted? }

  lemma SlowQueuesKept(s: Pool, t: nat)
    requires CanStep(s, t) && Slow(s.threads[t]) && !TouchesQueue(s.threads[t])
    ensures StepThread(s, t).queues == s.queues
  {
    hide ClassOf, U32;
  }

  lemma FastQueuesKept(s: Pool, t: nat)
    requires CanStep(s, t) && !Slow(s.threads[t]) && !TouchesQueue(s.threads[t])
    ensures StepThread(s, t).queues == s.queues
  {
    hide ClassOf, U32;
  }

  lemma StepBounded(s: Pool, t: nat)
    requires CanStep(s, t) && QueuesBounded(s.queues)
    ensures QueuesBounded(StepThread(s, t).queues)
  {
    hide StepThread, QueuesBounded;
    if !TouchesQueue(s.threads[t]) {
      if Slow(s.threads[t]) { SlowQueuesKept(s, t); } else { FastQueuesKept(s, t); }
    } else {
      QueueStepBounded(s, t);
    }
  }

  lemma QueueStepBounded(s: Pool, t: nat)
    requires CanStep(s, t) && TouchesQueue(s.threads[t]) && QueuesBounded(s.queues)
    ensures QueuesBounded(StepThread(s, t).queues)
  {
    hide ClassOf, QueuesBounded, TrySend, ReceiveStep, U32, EnteredStep, MissedStep, StoreHalfStep, ResetHalfStep,
      StoreMissStep, ResetMissStep, PutEnteredStep, ClassifyStep, HalfStep, GreaterStep, AllocStep, DecideStep,
      SwapStep, MissStep, DoneStep;
    match s.threads[t] {
      case Counted(n) => ReceiveBounded(s, t, n);
      case Back(n, b) => SendBounded(s, Class(s, n), b);
      case GreaterBack(n, b) => SendBounded(s, Class(s, n), b);
      case PutCounted(b) => SendBounded(s, Class(s, b.cap), b);
      case _ =>
    }
  }

  lemma BoundedStep(s: Pool, a: Action)
    requires Enabled(s, a) && QueuesBounded(s.queues)
    ensures QueuesBounded(Apply(s, a).queues)
  {
    hide ClassOf, StepThread;
    if a.Step? { StepBounded(s, a.t); }
  }

  /** In every run no queue ever exceeds its room. */
  lemma {:induction false} NeverFuller(ss: seq<Pool>, acts: seq<Action>, baseline: nat, i: nat)
    requires Run(ss, acts, baseline) && i < |ss|
    ensures QueuesBounded(ss[i].queues) && QUEUE_CAP == [2, 2, 4, 4, 2, 1]
  {
    hide Enabled, Apply, QueuesBounded, Init;
    if i == 0 {
      EmptyBounded(baseline);
    } else {
      NeverFuller(ss, acts, baseline, i - 1);
      assert Next(ss[i - 1], acts[i - 1], ss[i - 1 + 1]);
      BoundedStep(ss[i - 1], acts[i - 1]);
    }
  }

  lemma EmptyBounded(baseline: nat)
    ensures QueuesBounded(Init(baseline).queues)
  {
  }

  /** k ticks of the drain goroutine at queue q. */
  function Drained(s: Pool, q: nat, k: nat): (r: Pool)
    requires q < 6
    decreases k
  {
    if k == 0 || !Enabled(s, DrainTick(q)) then s else Drained(Apply(s, DrainTick(q)), q, k - 1)
  }

  /** Left alone, drain takes the oldest buffers first and none twice, until the queue is empty. */
  lemma {:induction false} DrainEmpties(s: Pool, q: nat, k: nat)
    requires q < 6 && !s.queuesClosed && k <= |s.queues[q]|
    ensures Drained(s, q, k).queues == s.queues[q := s.queues[q][k..]]
    ensures forall i :: 0 <= i < k ==> s.queues[q][i].id in Drained(s, q, k).place && Drained(s, q, k).place[s.queues[q][i].id] == Gone
    ensures forall id :: id in s.place && s.place[id] == Gone ==> id in Drained(s, q, k).place && Drained(s, q, k).place[id] == Gone
    decreases k
  {
    hide StepThread, CanStep;
    if k > 0 {
      var s1 := Apply(s, DrainTick(q));
      DrainEmpties(s1, q, k - 1);
      assert s1.queues[q] == s.queues[q][1..];
      assert forall i :: 0 < i < k ==> s.queues[q][i] == s1.queues[q][i - 1];
      assert s.queues[q][1..][k - 1..] == s.queues[q][k..];
    }
  }

  /** Only t itself moves t. */
  lemma OthersStay(s: Pool, a: Action, t: nat)
    requires Enabled(s, a) && t in s.threads && a != Step(t)
    ensures t in Apply(s, a).threads && Apply(s, a).threads[t] == s.threads[t]
  {
    hide StepThread, StepKeeps, ClassOf;
    if a.Step? {
      StepThreadKeeps(s, a.t);
      KeepsOthers(s, a.t, StepThread(s, a.t), t);
    }
  }

  lemma KeepsOthers(s: Pool, u: nat, s': Pool, t: nat)
    requires u in s.threads && StepKeeps(s, u, s') && t in s.threads && t != u
    ensures t in s'.threads && s'.threads[t] == s.threads[t]
  {
  }

  lemma {:induction false} StaysAt(ss: seq<Pool>, acts: seq<Action>, baseline: nat, t: nat, i: nat, j: nat)
    requires Run(ss, acts, baseline) && i <= j < |ss| && t in ss[i].threads
    requires forall l :: i <= l < j ==> acts[l] != Step(t)
    ensures t in ss[j].threads && ss[j].threads[t] == ss[i].threads[t]
    decreases j
  {
    hide Enabled, Apply;
    if i < j {
      StaysAt(ss, acts, baseline, t, i, j - 1);
      assert Next(ss[j - 1], acts[j - 1], ss[j - 1 + 1]);
      OthersStay(ss[j - 1], acts[j - 1], t);
    }
  }

  /** k1 and k2 are successive steps of t. */
  ghost predicate Successive(acts: seq<Action>, t: nat, k1: nat, k2: nat) {
    k1 < k2 < |acts| && acts[k2] == Step(t) && forall l :: k1 < l < k2 ==> acts[l] != Step(t)
  }

  /** One step of t, and where it finds itself at the next one. */
  lemma TurnTo(ss: seq<Pool>, acts: seq<Action>, baseline: nat, t: nat, k1: nat, k2: nat)
    requires Run(ss, acts, baseline) && Successive(acts, t, k1, k2) && t in ss[k1 + 1].threads
    ensures Enabled(ss[k2], Step(t)) && ss[k2 + 1] == StepThread(ss[k2], t)
    ensures t in ss[k2].threads && ss[k2].threads[t] == ss[k1 + 1].threads[t]
  {
    hide StepThread;
    StaysAt(ss, acts, baseline, t, k1 + 1, k2);
    assert Next(ss[k2], acts[k2], ss[k2 + 1]);
  }

  /** A Put on an open pool, whatever others do meanwhile: at its last step the buffer joins the queue of
      its class if there is room, and is dropped otherwise. */
  lemma PutAmongOthers(ss: seq<Pool>, acts: seq<Action>, baseline: nat, t: nat, id: nat, k0: nat, k1: nat, k2: nat)
    requires Run(ss, acts, baseline) && k0 < |acts| && acts[k0] == StartPut(t, id)
    requires Successive(acts, t, k0, k1) && Successive(acts, t, k1, k2) && !ss[k1].closed
    ensures id in ss[k0].held && t !in ss[k2 + 1].threads
    ensures var b := Buf(id, ss[k0].held[id].cap); var q := Class(ss[k2], b.cap); var queue := ss[k2].queues[q];
      if |queue| < [2, 2, 4, 4, 2, 1][q]
      then ss[k2 + 1].queues == ss[k2].queues[q := queue + [b]]
      else ss[k2 + 1].queues == ss[k2].queues && ss[k2 + 1].place == ss[k2].place[id := Gone]
  {
    hide ClassOf, U32, TrySend;
    assert Next(ss[k0], acts[k0], ss[k0 + 1]);
    var b := Buf(id, ss[k0].held[id].cap);
    TurnTo(ss, acts, baseline, t, k0, k1);
    PutCountedNext(ss[k1], t, b);
    TurnTo(ss, acts, baseline, t, k1, k2);
    SentOrDropped(ss[k2], t, b);
  }

  lemma PutCountedNext(s: Pool, t: nat, b: Buf)
    requires t in s.threads && s.threads[t] == PutEntered(b) && !s.closed
    ensures var e := StepThread(s, t); t in e.threads && e.threads[t] == PutCounted(b)
  {
    hide ClassOf, U32;
  }

  lemma SentOrDropped(s: Pool, t: nat, b: Buf)
    requires t in s.threads && s.threads[t] == PutCounted(b)
    ensures var e, q := StepThread(s, t), Class(s, b.cap);
      t !in e.threads && if |s.queues[q]| < [2, 2, 4, 4, 2, 1][q] then e.queues == s.queues[q := s.queues[q] + [b]]
      else e.queues == s.queues && e.place == s.place[b.id := Gone]
  {
    hide ClassOf;
  }

  /** A Get(n) that finds a buffer of which n bytes fill more than half hands out that very buffer,
      whatever others do meanwhile. */
  lemma GetAmongOthers(
      ss: seq<Pool>, acts: seq<Action>, baseline: nat, t: nat, n: nat, k0: nat, k1: nat, k2: nat, k3: nat, k4: nat)
    requires Run(ss, acts, baseline) && k0 < |acts| && acts[k0] == StartGet(t, n)
    requires Successive(acts, t, k0, k1) && Successive(acts, t, k1, k2) && Successive(acts, t, k2, k3) && Successive(acts, t, k3, k4)
    requires !ss[k1].closed && var queue := ss[k2].queues[Class(ss[k2], n)]; queue != [] && n <= queue[0].cap < 2 * n
    ensures var q := Class(ss[k2], n); var b := ss[k2].queues[q][0];
      && ss[k2 + 1].queues == ss[k2].queues[q := ss[k2].queues[q][1..]]
      && ss[k4 + 1].held == ss[k4].held[b.id := b] && t !in ss[k4 + 1].threads
  {
    hide ClassOf, U32;
    assert Next(ss[k0], acts[k0], ss[k0 + 1]);
    TurnTo(ss, acts, baseline, t, k0, k1);
    CountedNext(ss[k1], t, n);
    TurnTo(ss, acts, baseline, t, k1, k2);
    var b := ss[k2].queues[Class(ss[k2], n)][0];
    GotNext(ss[k2], t, n);
    TurnTo(ss, acts, baseline, t, k2, k3);
    ServedNext(ss[k3], t, n, b);
    TurnTo(ss, acts, baseline, t, k3, k4);
    HandedOut(ss[k4], t, n, b);
  }

  lemma CountedNext(s: Pool, t: nat, n: nat)
    requires t in s.threads && s.threads[t] == Entered(n) && !s.closed
    ensures var e := StepThread(s, t); t in e.threads && e.threads[t] == Counted(n)
  {
    hide ClassOf, U32;
  }

  lemma GotNext(s: Pool, t: nat, n: nat)
    requires t in s.threads && s.threads[t] == Counted(n) && s.queues[Class(s, n)] != []
    ensures var e, q := StepThread(s, t), Class(s, n);
      && t in e.threads && e.threads[t] == Got(n, s.queues[q][0])
      && e.queues == s.queues[q := s.queues[q][1..]]
  {
    hide ClassOf;
  }

  lemma ServedNext(s: Pool, t: nat, n: nat, b: Buf)
    requires t in s.threads && s.threads[t] == Got(n, b) && n <= b.cap < 2 * n
    ensures var e := StepThread(s, t); t in e.threads && e.threads[t] == Done(n, b)
  {
    hide ClassOf, U32;
  }

  lemma HandedOut(s: Pool, t: nat, n: nat, b: Buf)
    requires t in s.threads && s.threads[t] == Done(n, b)
    ensures var e := StepThread(s, t); t !in e.threads && e.held == s.held[b.id := b]
  {
    hide ClassOf;
  }
}
