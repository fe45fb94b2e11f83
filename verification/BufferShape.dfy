/** The geometry of the byte buffer: where its window lies in the backing array, how large that
    array is, and how much has been copied and consumed so far. */
module BufferShape {

  const BOOTSTRAP := 64

  /** copied: bytes moved to make room; consumed: bytes handed to readers. */
  datatype Shape = Shape(isNil: bool, len: nat, off: nat, cap: nat, copied: nat, consumed: nat)

  predicate WellShaped(s: Shape) { s.off <= s.len <= s.cap && (s.isNil ==> s.cap == 0) }

  type State = s: Shape | WellShaped(s) witness Shape(true, 0, 0, 0, 0, 0)

  /** `grow` */
  function GrowShape(s: State, n: nat): (r: State) {
    var m := s.len - s.off;
    var s1 := if m == 0 then s.(off := 0, len := 0) else s;
    if s1.len + n <= s1.cap then s1.(len := s1.len + n)
    else if s1.isNil && n <= BOOTSTRAP then s1.(isNil := false, off := 0, len := n, cap := BOOTSTRAP)
    else if m + n <= s1.cap / 2 then s1.(off := 0, len := m + n, copied := s.copied + m)
    else s1.(isNil := false, off := 0, len := m + n, cap := 2 * s.cap + n, copied := s.copied + m)
  }

  datatype Op =
    | Write(k: nat) | WriteByte | Alloc(k: nat) | Grow(k: nat)
    | Read(k: nat) | ReadByte | Next(k: nat) | ReadSlice(k: nat) | Truncate(k: nat)
    | WriteTo(k: nat, werr: bool)

  /** The room an operation asks grow for. */
  function Demand(op: Op): (r: nat) {
    match op
    case Write(k) => k
    case WriteByte => 1
    case Alloc(k) => k
    case Grow(k) => k
    case _ => 0
  }

  predicate Growing(op: Op) { op.Write? || op.WriteByte? || op.Alloc? || op.Grow? }

  function Advance(s: State, k: nat): (r: State) {
    var n := if k <= s.len - s.off then k else s.len - s.off;
    s.(off := s.off + n, consumed := s.consumed + n)
  }

  /** Reading from an empty buffer resets it. */
  function ReadShape(s: State, k: nat): (r: State) {
    if s.off >= s.len then s.(off := 0, len := 0) else Advance(s, k)
  }

  function TruncateShape(s: State, k: nat): (r: State) {
    if k > s.len - s.off then s  // the source panics
    else if k == 0 then s.(off := 0, len := 0)
    else s.(len := s.off + k)
  }

  /** A writer that takes k bytes and reports werr; only a complete write resets the buffer. */
  function WriteToShape(s: State, k: nat, werr: bool): (r: State) {
    if s.off >= s.len then s.(off := 0, len := 0)
    else if k > s.len - s.off then s  // the source panics
    else if werr || k < s.len - s.off then Advance(s, k)
    else Advance(s, k).(off := 0, len := 0)
  }

  function Step(s: State, op: Op): (r: State) {
    match op
    case Grow(k) => var g := GrowShape(s, k); g.(len := g.len - k)
    case Read(k) => ReadShape(s, k)
    case ReadByte => ReadShape(s, 1)
    case Next(k) => Advance(s, k)
    case ReadSlice(k) => Advance(s, k)
    case Truncate(k) => TruncateShape(s, k)
    case WriteTo(k, werr) => WriteToShape(s, k, werr)
    case _ => GrowShape(s, Demand(op))
  }

  function Run(s: State, ops: seq<Op>): (r: State) {
    if ops == [] then s else Step(Run(s, ops[..|ops| - 1]), ops[|ops| - 1])
  }

  // ---------------------------------------------------------------- growth outcomes

  /** grow leaves room for n and does one of four things; a slide happens only when more has been
      read than is left, and a new array is at least twice as large as the old one. */
  lemma GrowOutcomes(s: State, n: nat)
    ensures var g := GrowShape(s, n); var m := s.len - s.off;
      && g.len - g.off == m + n
      && (|| (g.cap == s.cap && g.copied == s.copied)
          || (s.isNil && n <= 64 && g.cap == 64 && g.copied == s.copied)
          || (g.cap == s.cap && g.off == 0 && m < s.off && g.copied == s.copied + m)
          || (g.cap >= 2 * s.cap && g.cap > s.cap && g.off == 0 && g.copied == s.copied + m))
  {
  }

  /** Four cases in full: the array embedded in the object, a first array, a slide, a larger array. */
  lemma GrowInFull()
    ensures GrowShape(Shape(true, 0, 0, 0, 0, 0), 64) == Shape(false, 64, 0, 64, 0, 0)
    ensures GrowShape(Shape(true, 0, 0, 0, 0, 0), 65) == Shape(false, 65, 0, 65, 0, 0)
    ensures GrowShape(Shape(false, 60, 40, 64, 0, 40), 12) == Shape(false, 32, 0, 64, 20, 40)
    ensures GrowShape(Shape(false, 60, 40, 64, 0, 40), 13) == Shape(false, 33, 0, 141, 20, 40)
    ensures GrowShape(Shape(false, 60, 40, 64, 0, 40), 4) == Shape(false, 64, 40, 64, 0, 40)
    ensures GrowShape(Shape(false, 60, 60, 64, 0, 60), 64) == Shape(false, 64, 0, 64, 0, 60)
  {
  }

  // ---------------------------------------------------------------- amortised copying

  /** Copied bytes are paid for by bytes already consumed and by capacity. */
  predicate Paid(s: State) { s.copied + s.off <= s.consumed + s.cap }

  lemma StepPaid(t: State, op: Op)
    requires Paid(t)
    ensures Paid(Step(t, op))
  {
    if Growing(op) { GrowOutcomes(t, Demand(op)); }
  }

  lemma {:induction false} AmortisedCopying(s: State, ops: seq<Op>)
    requires Paid(s)
    ensures Paid(Run(s, ops))
  {
    hide Step, Paid;
    if ops != [] {
      AmortisedCopying(s, ops[..|ops| - 1]);
      StepPaid(Run(s, ops[..|ops| - 1]), ops[|ops| - 1]);
    }
  }

  // ---------------------------------------------------------------- bounded capacity

  /** Whenever grow is called, the unread bytes and the room asked for are at most bound. */
  predicate DemandsWithin(s: State, ops: seq<Op>, bound: nat) {
    forall i :: 0 <= i < |ops| && Growing(ops[i]) ==>
      var t := Run(s, ops[..i]); t.len - t.off + Demand(ops[i]) <= bound
  }

  lemma StepCapacity(t: State, op: Op, bound: nat)
    requires Growing(op) ==> t.len - t.off + Demand(op) <= bound
    ensures var c := Step(t, op).cap; c == t.cap || c == BOOTSTRAP || c <= 5 * bound
  {
  }

  lemma {:induction false} CapacityBound(s: State, ops: seq<Op>, bound: nat)
    requires DemandsWithin(s, ops, bound)
    ensures var c := Run(s, ops).cap; c <= s.cap || c <= 64 || c <= 5 * bound
  {
    hide Step;
    if ops != [] {
      var before := ops[..|ops| - 1];
      assert forall i :: 0 <= i < |before| ==> before[..i] == ops[..i];
      CapacityBound(s, before, bound);
      StepCapacity(Run(s, before), ops[|ops| - 1], bound);
    }
  }

  // ---------------------------------------------------------------- what Grow(n) promises

  function TotalDemand(ops: seq<Op>): (r: nat) {
    if ops == [] then 0 else TotalDemand(ops[..|ops| - 1]) + Demand(ops[|ops| - 1])
  }

  lemma StepFits(t: State, op: Op)
    requires t.len + Demand(op) <= t.cap
    ensures var u := Step(t, op); u.cap == t.cap && u.copied == t.copied && u.len <= t.len + Demand(op)
  {
  }

  lemma GrowMakesRoom(s: State, n: nat)
    ensures var g := Step(s, Grow(n)); g.len + n <= g.cap
  {
  }

  /** After Grow(n), operations that together ask for at most n bytes neither allocate nor copy,
      whatever is read or dropped in between. */
  lemma {:induction false} GrowLasts(s: State, n: nat, ops: seq<Op>)
    requires TotalDemand(ops) <= n
    ensures var g := Step(s, Grow(n)); var t := Run(g, ops);
      t.cap == g.cap && t.copied == g.copied && t.len + (n - TotalDemand(ops)) <= t.cap
  {
    hide Step;
    if ops == [] {
      GrowMakesRoom(s, n);
    } else {
      var before := ops[..|ops| - 1];
      GrowLasts(s, n, before);
      StepFits(Run(Step(s, Grow(n)), before), ops[|ops| - 1]);
    }
  }
}
