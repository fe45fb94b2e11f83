/** Sizes of 2^32 and more: exactly when Get panics, and which adaptive sizes a pool can come to hold. */
module PoolSizes {
  import opened Basics
  import opened BufferPool
  import opened PoolClasses
  import opened PoolSafety

  // ---------------------------------------------------------------- building runs

  /** The actions are possible one after the other on a new pool and lead to s. */
  ghost predicate Leads(b: nat, acts: seq<Action>, s: Pool) {
    exists ss: seq<Pool> :: Run(ss, acts, b) && ss[|acts|] == s
  }

  lemma NewPool(b: nat) returns (s: Pool)
    requires b > 0
    ensures Leads(b, [], s) && Idle(s, b, map[]) && s.size == [0, 0, 0, 0, 0]
  {
    s := Init(b);
    var ss: seq<Pool> := [s];
    assert Run(ss, [], b);
  }

  lemma LeadsOn(b: nat, acts: seq<Action>, s: Pool, a: Action)
    requires Leads(b, acts, s) && Enabled(s, a)
    ensures Leads(b, acts + [a], Apply(s, a))
  {
    hide Enabled, Apply, Init;
    var ss: seq<Pool> :| Run(ss, acts, b) && ss[|acts|] == s;
    var more := ss + [Apply(s, a)];
    forall i | 0 <= i < |acts + [a]| ensures Next(more[i], (acts + [a])[i], more[i + 1]) {
      if i < |acts| { assert Next(ss[i], acts[i], ss[i + 1]); }
    }
    assert Run(more, acts + [a], b);
  }

  // ---------------------------------------------------------------- one Get on a pool that holds no buffer

  /** An open pool with baseline b and empty queues; threads are inside Get. */
  ghost predicate Idle(s: Pool, b: nat, threads: map<nat, Pc>) {
    && s.b == b && s.threads == threads && !s.closed && !s.writer
    && forall q :: 0 <= q < 6 ==> s.queues[q] == []
  }

  /** The first positions of a Get(n) that finds the given adaptive size and no buffer. */
  function Pos(n: nat, size: nat, i: nat): (r: Pc)
    requires i <= 4
  {
    match i case 0 => Entered(n) case 1 => Counted(n) case 2 => Missed(n) case 3 => Alloc(n) case 4 => Sized(n, size)
  }

  lemma GetStep(s: Pool, b: nat, n: nat, i: nat)
    requires i < 4 && ClassOf(b, n) > 0 && Idle(s, b, map[0 := Pos(n, s.size[ClassOf(b, n) - 1], i)])
    ensures Enabled(s, Step(0)) && Apply(s, Step(0)).size == s.size
    ensures Idle(Apply(s, Step(0)), b, map[0 := Pos(n, s.size[ClassOf(b, n) - 1], i + 1)])
  {
    hide ClassOf;
    var size := s.size[ClassOf(b, n) - 1];
    assert map[0 := Pos(n, size, i)][0 := Pos(n, size, i + 1)] == map[0 := Pos(n, size, i + 1)];
  }

  lemma GetStart(s: Pool, b: nat, n: nat)
    requires Idle(s, b, map[])
    ensures Enabled(s, StartGet(0, n))
    ensures Idle(Apply(s, StartGet(0, n)), b, map[0 := Entered(n)]) && Apply(s, StartGet(0, n)).size == s.size
  {
  }

  /** A Get(n) of goroutine 0: its start and k steps. */
  function GetActs(n: nat, k: nat): (r: seq<Action>) {
    if k == 0 then [StartGet(0, n)] else GetActs(n, k - 1) + [Step(0)]
  }

  /** One step more. */
  lemma GetGoesOn(b: nat, acts: seq<Action>, n: nat, k: nat, s: Pool)
    requires Leads(b, acts + GetActs(n, k), s) && Enabled(s, Step(0))
    ensures Leads(b, acts + GetActs(n, k + 1), Apply(s, Step(0)))
  {
    hide Enabled, Apply, Leads;
    LeadsOn(b, acts + GetActs(n, k), s, Step(0));
    assert acts + GetActs(n, k + 1) == acts + GetActs(n, k) + [Step(0)];
  }

  /** Get(n) finds no buffer and loads the adaptive size of its class. */
  lemma {:induction false} GetLoadsSize(b: nat, acts: seq<Action>, s: Pool, n: nat, i: nat) returns (t: Pool)
    requires Leads(b, acts, s) && Idle(s, b, map[]) && ClassOf(b, n) > 0 && i <= 4
    ensures Leads(b, acts + GetActs(n, i), t) && t.size == s.size
    ensures Idle(t, b, map[0 := Pos(n, s.size[ClassOf(b, n) - 1], i)])
  {
    hide ClassOf, Enabled, Apply, Leads, Idle;
    if i == 0 {
      GetStart(s, b, n);
      LeadsOn(b, acts, s, StartGet(0, n));
      t := Apply(s, StartGet(0, n));
    } else {
      t := GetLoadsSize(b, acts, s, n, i - 1);
      GetStep(t, b, n, i - 1);
      GetGoesOn(b, acts, n, i - 1, t);
      t := Apply(t, Step(0));
    }
  }

  lemma DecideHere(s: Pool, b: nat, n: nat, size: nat)
    requires ClassOf(b, n) > 0 && Idle(s, b, map[0 := Sized(n, size)])
    ensures Enabled(s, Step(0)) && Apply(s, Step(0)).size == s.size
    ensures U32(n) <= size < n ==> Apply(s, Step(0)).threads == map[0 := Panicked(n)]
    ensures U32(n) > size == 0 ==> Idle(Apply(s, Step(0)), b, map[0 := Swap(n)])
  {
    hide ClassOf, U32;
    assert map[0 := Sized(n, size)][0 := Panicked(n)] == map[0 := Panicked(n)];
    assert map[0 := Sized(n, size)][0 := Swap(n)] == map[0 := Swap(n)];
  }

  lemma SwapHere(s: Pool, b: nat, n: nat)
    requires ClassOf(b, n) > 0 && Idle(s, b, map[0 := Swap(n)]) && s.size[ClassOf(b, n) - 1] == 0
    ensures Enabled(s, Step(0)) && Apply(s, Step(0)).size == s.size[ClassOf(b, n) - 1 := U32(n)]
    ensures Idle(Apply(s, Step(0)), b, map[0 := Done(n, Buf(s.next, n))])
  {
    hide ClassOf, U32;
    assert map[0 := Swap(n)][0 := Done(n, Buf(s.next, n))] == map[0 := Done(n, Buf(s.next, n))];
  }

  lemma DoneHere(s: Pool, b: nat, n: nat, x: Buf)
    requires Idle(s, b, map[0 := Done(n, x)])
    ensures Enabled(s, Step(0)) && Apply(s, Step(0)).size == s.size && Idle(Apply(s, Step(0)), b, map[])
  {
    hide ClassOf, U32;
    assert map[0 := Done(n, x)] - {0} == map[];
  }

  /** On a new pool the first Get(n) panics if n is cut to 0. */
  lemma FirstGetPanics(b: nat, n: nat) returns (t: Pool)
    requires b > 0 && ClassOf(b, n) > 0 && n >= TWO_32 && U32(n) == 0
    ensures Leads(b, GetActs(n, 5), t) && t.threads == map[0 := Panicked(n)]
  {
    hide ClassOf, Enabled, Apply, Leads, Idle, GetActs, U32;
    var s := NewPool(b);
    t := GetLoadsSize(b, [], s, n, 4);
    DecideHere(t, b, n, 0);
    GetGoesOn(b, [], n, 4, t);
    assert [] + GetActs(n, 5) == GetActs(n, 5);
    t := Apply(t, Step(0));
  }

  /** Otherwise it returns a buffer and stores n cut to 32 bits as the adaptive size. */
  lemma FirstGetStores(b: nat, n: nat) returns (t: Pool)
    requires b > 0 && ClassOf(b, n) > 0 && U32(n) > 0
    ensures Leads(b, GetActs(n, 7), t) && Idle(t, b, map[]) && t.size[ClassOf(b, n) - 1] == U32(n)
  {
    hide ClassOf, Enabled, Apply, Leads, Idle, GetActs, U32;
    var s := NewPool(b);
    s := GetLoadsSize(b, [], s, n, 4);
    DecideHere(s, b, n, 0);
    GetGoesOn(b, [], n, 4, s);
    s := Apply(s, Step(0));
    SwapHere(s, b, n);
    GetGoesOn(b, [], n, 5, s);
    var made := Apply(s, Step(0));
    DoneHere(made, b, n, Buf(s.next, n));
    GetGoesOn(b, [], n, 6, made);
    assert [] + GetActs(n, 7) == GetActs(n, 7);
    t := Apply(made, Step(0));
  }

  /** And then a second Get(n) panics. */
  lemma SecondGetPanics(b: nat, n: nat) returns (t: Pool)
    requires b > 0 && ClassOf(b, n) > 0 && n >= TWO_32 && U32(n) > 0
    ensures Leads(b, GetActs(n, 7) + GetActs(n, 5), t) && t.threads == map[0 := Panicked(n)]
  {
    hide ClassOf, Enabled, Apply, Leads, Idle, GetActs;
    var s := FirstGetStores(b, n);
    t := GetLoadsSize(b, GetActs(n, 7), s, n, 4);
    DecideHere(t, b, n, U32(n));
    GetGoesOn(b, GetActs(n, 7), n, 4, t);
    t := Apply(t, Step(0));
  }

  // ---------------------------------------------------------------- what is exactly possible

  lemma BaselineKept(s: Pool, a: Action)
    requires Enabled(s, a)
    ensures Apply(s, a).b == s.b
  {
    hide StepThread, StepKeeps;
    if a.Step? {
      StepThreadKeeps(s, a.t);
      KeepsBaseline(s, a.t, StepThread(s, a.t));
    }
  }

  lemma KeepsBaseline(s: Pool, t: nat, s': Pool)
    requires t in s.threads && StepKeeps(s, t, s')
    ensures s'.b == s.b
  {
  }

  lemma {:induction false} BaselineFixed(ss: seq<Pool>, acts: seq<Action>, b: nat, i: nat)
    requires Run(ss, acts, b) && i < |ss|
    ensures ss[i].b == b
  {
    hide Enabled, Apply;
    if i > 0 {
      BaselineFixed(ss, acts, b, i - 1);
      assert Next(ss[i - 1], acts[i - 1], ss[i - 1 + 1]);
      BaselineKept(ss[i - 1], acts[i - 1]);
    }
  }

  ghost predicate PanicsIn(b: nat, n: nat, ss: seq<Pool>, acts: seq<Action>, i: nat, t: nat) {
    Run(ss, acts, b) && i < |ss| && t in ss[i].threads && ss[i].threads[t] == Panicked(n)
  }

  /** In some run a Get(n) panics if and only if n is 2^32 or more and not in class 0. */
  lemma PanicExact(b: nat, n: nat)
    requires b > 0
    ensures (exists ss: seq<Pool>, acts: seq<Action>, i: nat, t: nat :: PanicsIn(b, n, ss, acts, i, t)) <==>
      n >= TWO_32 && ClassOf(b, n) > 0
  {
    hide ClassOf, Next, Init, U32, GetActs;
    if ss: seq<Pool>, acts: seq<Action>, i: nat, t: nat :| PanicsIn(b, n, ss, acts, i, t) {
      GetStaysInClass(ss, acts, b, i, t);
      BaselineFixed(ss, acts, b, i);
    }
    if n >= TWO_32 && ClassOf(b, n) > 0 {
      var s: Pool;
      var acts;
      if U32(n) == 0 {
        s := FirstGetPanics(b, n);
        acts := GetActs(n, 5);
      } else {
        s := SecondGetPanics(b, n);
        acts := GetActs(n, 7) + GetActs(n, 5);
      }
      var ss: seq<Pool> :| Run(ss, acts, b) && ss[|acts|] == s;
      assert PanicsIn(b, n, ss, acts, |acts|, 0);
    }
  }

  ghost predicate HoldsIn(b: nat, k: nat, x: nat, ss: seq<Pool>, acts: seq<Action>, i: nat)
    requires k < 5
  {
    Run(ss, acts, b) && i < |ss| && ss[i].size[k] == x
  }

  /** The adaptive sizes a class can come to hold are 0 and its sizes cut to 32 bits, and no others. */
  lemma SizesExact(b: nat, k: nat, x: nat)
    requires b > 0 && k < 5
    ensures (exists ss: seq<Pool>, acts: seq<Action>, i: nat :: HoldsIn(b, k, x, ss, acts, i)) <==>
      x == 0 || CutOf(b, k + 1, x)
  {
    hide ClassOf, Next, Init, U32, GetActs, Idle;
    if ss: seq<Pool>, acts: seq<Action>, i: nat :| HoldsIn(b, k, x, ss, acts, i) {
      SizesStayInClass(ss, acts, b, i, k);
      BaselineFixed(ss, acts, b, i);
    }
    if x == 0 {
      var s0 := NewPool(b);
      var ss: seq<Pool> :| Run(ss, [], b) && ss[0] == s0;
      assert HoldsIn(b, k, x, ss, [], 0);
    } else if v: nat :| ClassOf(b, v) == k + 1 && x == U32(v) {
      var s := FirstGetStores(b, v);
      var acts := GetActs(v, 7);
      var ss: seq<Pool> :| Run(ss, acts, b) && ss[|acts|] == s;
      assert HoldsIn(b, k, x, ss, acts, |acts|);
    }
  }

  ghost predicate OutsideIn(b: nat, k: nat, ss: seq<Pool>, acts: seq<Action>, i: nat)
    requires k < 5
  {
    Run(ss, acts, b) && i < |ss| && ss[i].size[k] != 0 && ClassOf(b, ss[i].size[k]) != k + 1
  }

  /** An adaptive size can leave its class if and only if the class is not the lowest and reaches
      beyond 2^32. */
  lemma SizeLeavesClass(b: nat, k: nat)
    requires b > 0 && k < 5
    ensures (exists ss: seq<Pool>, acts: seq<Action>, i: nat :: OutsideIn(b, k, ss, acts, i)) <==>
      k > 0 && NotAbove(b, k + 1, TWO_32 + 1)
  {
    hide ClassOf, Next, Init, NotAbove, CutOf;
    if ss: seq<Pool>, acts: seq<Action>, i: nat :| OutsideIn(b, k, ss, acts, i) {
      assert HoldsIn(b, k, ss[i].size[k], ss, acts, i);
      SizesExact(b, k, ss[i].size[k]);
      CutLeaves(b, k + 1, ss[i].size[k]);
    }
    if k > 0 && NotAbove(b, k + 1, TWO_32 + 1) {
      var x := LeavingCut(b, k + 1);
      SizesExact(b, k, x);
      var ss: seq<Pool>, acts: seq<Action>, i: nat :| HoldsIn(b, k, x, ss, acts, i);
      assert OutsideIn(b, k, ss, acts, i);
    }
  }

  lemma CutLeaves(b: nat, q: nat, x: nat)
    requires 0 < q < 6 && CutOf(b, q, x) && x != 0 && ClassOf(b, x) != q
    ensures q > 1 && NotAbove(b, q, TWO_32 + 1)
  {
    var v: nat :| ClassOf(b, v) == q && x == U32(v);
    CutBelow(v);
    hide U32;
    assert v > TWO_32;
  }

  lemma CutBelow(v: nat)
    ensures U32(v) <= v && (v < TWO_32 ==> U32(v) == v) && (v == TWO_32 ==> U32(v) == 0)
  {
  }

  lemma CutFacts(v: nat, m: nat)
    ensures U32(v) < TWO_32 && (U32(v) == 0 ==> U32(v + 1) != 0)
    ensures U32(TWO_32 * m + 1) == 1
  {
  }

  /** A size of a class that starts below 2^32 and reaches beyond it is cut to 1; of two successive
      sizes at least one is not cut to 0. */
  lemma LeavingCut(b: nat, q: nat) returns (x: nat)
    requires 1 < q < 6 && b > 0 && NotAbove(b, q, TWO_32 + 1)
    ensures CutOf(b, q, x) && x != 0 && ClassOf(b, x) != q
  {
    hide U32;
    var bottom := if q == 2 then b / 4 else if q == 3 then b else if q == 4 then 2 * b else 4 * b;
    CutFacts(bottom + 1, 1);
    CutFacts(bottom + 1, 4 * b);
    var v := if q == 5 then TWO_32 * (4 * b) + 1
             else if bottom <= TWO_32 then TWO_32 + 1
             else if U32(bottom + 1) != 0 then bottom + 1 else bottom + 2;
    CutFacts(v, 1);
    x := U32(v);
    assert ClassOf(b, v) == q;
  }
}
