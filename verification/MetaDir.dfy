/** The directory behind the meta pointer, and what one SetMeta or GetMeta call does to it as a
    sequence of file-system steps.  Steps can be cut anywhere: a cut file write leaves any prefix
    of its data, a rename or a removal happens entirely or not at all. */
module MetaDir {
  import opened Basics
  import opened FileNames

  type Dir = map<string, string>

  const CURRENT := "CURRENT"
  const BAK := "CURRENT.bak"
  const PENDING := "CURRENT."

  predicate Known(fd: FileDesc) { !fd.ftype.Unknown? }

  /** What a complete CURRENT file pointing at fd holds. */
  function Content(fd: FileDesc): (r: string)
    requires Known(fd)
  {
    GenName(fd) + ['\n']
  }

  /** `CURRENT.%d` */
  function PendName(n: int64): (r: string) { PENDING + FormatInt(n) }

  /** The number GetMeta reads off a directory entry that looks like a pending rename. */
  function PendNum(name: string): (r: Option<int64>) {
    if PENDING <= name && name != BAK then ParseInt(name[8..]) else None
  }

  // ---------------------------------------------------------------- file-system steps

  datatype Step = Write(name: string, data: string) | Rename(from: string, to: string) | Remove(name: string)

  function Apply(d: Dir, s: Step): (r: Dir) {
    match s
    case Write(name, data) => d[name := data]
    case Rename(from, to) => if from in d then (d - {from})[to := d[from]] else d
    case Remove(name) => d - {name}
  }

  function Exec(d: Dir, steps: seq<Step>): (r: Dir)
    decreases |steps|
  {
    if steps == [] then d else Exec(Apply(d, steps[0]), steps[1..])
  }

  ghost predicate Torn(d: Dir, s: Step, d': Dir) {
    s.Write? && exists k :: 0 <= k <= |s.data| && d' == d[s.name := s.data[..k]]
  }

  /** d' is what may be left of d when the steps are interrupted at some point. */
  ghost predicate Cut(d: Dir, steps: seq<Step>, d': Dir)
    decreases |steps|
  {
    || d' == d
    || (steps != [] && (Torn(d, steps[0], d') || Cut(Apply(d, steps[0]), steps[1..], d')))
  }

  lemma {:induction false} ExecConcat(d: Dir, a: seq<Step>, b: seq<Step>)
    ensures Exec(d, a + b) == Exec(Exec(d, a), b)
    decreases |a|
  {
    if a == [] {
      assert a + b == b;
    } else {
      assert (a + b)[1..] == a[1..] + b;
      ExecConcat(Apply(d, a[0]), a[1..], b);
    }
  }

  lemma {:induction false} CutConcat(d: Dir, a: seq<Step>, b: seq<Step>, d': Dir)
    ensures Cut(d, a + b, d') <==> Cut(d, a, d') || Cut(Exec(d, a), b, d')
    decreases |a|
  {
    if a == [] {
      assert a + b == b;
    } else {
      assert (a + b)[1..] == a[1..] + b;
      CutConcat(Apply(d, a[0]), a[1..], b, d');
    }
  }

  /** Running to the end is one way of being cut. */
  lemma {:induction false} ExecIsCut(d: Dir, steps: seq<Step>)
    ensures Cut(d, steps, Exec(d, steps))
    decreases |steps|
  {
    if steps != [] {
      ExecIsCut(Apply(d, steps[0]), steps[1..]);
    }
  }

  // ---------------------------------------------------------------- SetMeta

  /** `setMeta`: back up CURRENT, write CURRENT.N, rename it over CURRENT. */
  function SetMetaSteps(d: Dir, fd: FileDesc): (r: seq<Step>)
    requires Known(fd)
  {
    var commit := [Write(PendName(fd.num), Content(fd)), Rename(PendName(fd.num), CURRENT)];
    if CURRENT !in d then commit
    else if d[CURRENT] == Content(fd) then []
    else [Write(BAK, d[CURRENT])] + commit
  }

  // ---------------------------------------------------------------- GetMeta

  datatype Probe = Valid(fd: FileDesc) | Missing | Corrupt

  /** The descriptor in a complete CURRENT file; None when the file is corrupted or incomplete. */
  function ParseCurrent(b: string): (r: Option<FileDesc>)
    ensures r.Some? ==> Known(r.value)
  {
    if |b| < 1 || b[|b| - 1] != '\n' then None else ParseName(b[..|b| - 1])
  }

  /** `tryCurrent` */
  function TryCurrent(d: Dir, name: string): (p: Probe)
    ensures p.Valid? ==> Known(p.fd) && name in d && GenName(p.fd) in d
  {
    if name !in d then Missing
    else match ParseCurrent(d[name])
      case None => Corrupt
      case Some(fd) => if GenName(fd) in d then Valid(fd) else Missing
  }

  datatype Choice = Found(name: string, fd: FileDesc) | NotFound(corrupt: bool)

  /** `tryCurrent` on a fixed directory. */
  function Prober(d: Dir): (r: string -> Probe) { name => TryCurrent(d, name) }

  /** `tryCurrents`: the first valid file in the order given. */
  function FirstValid(probe: string -> Probe, names: seq<string>): (r: Choice) {
    if names == [] then NotFound(false)
    else match probe(names[0])
      case Valid(fd) => Found(names[0], fd)
      case Missing => FirstValid(probe, names[1..])
      case Corrupt =>
        var rest := FirstValid(probe, names[1..]);
        if rest.Found? then rest else NotFound(true)
  }

  function TryCurrents(d: Dir, names: seq<string>): (r: Choice) { FirstValid(Prober(d), names) }

  /** The numbers of the directory entries that look like pending renames. */
  function PendNums(d: Dir): (r: set<int64>) {
    set name | name in d && PendNum(name).Some? :: PendNum(name).value
  }

  ghost function Max(s: set<int64>): (m: int64)
    requires s != {}
    ensures m in s && forall x :: x in s ==> x <= m
  {
    var x :| x in s;
    if s == {x} then x
    else
      var y := Max(s - {x});
      assert forall z :: z in s ==> z == x || z in s - {x};
      if y > x then y else x
  }

  function PendNamer(): (r: int64 -> string) { (n: int64) => PendName(n) }

  ghost function ValidNums(probe: string -> Probe, namer: int64 -> string, nums: set<int64>): (r: set<int64>) {
    set n | n in nums && probe(namer(n)).Valid?
  }

  /** Of the files with these numbers, the valid one with the greatest number. */
  ghost function Best(probe: string -> Probe, namer: int64 -> string, nums: set<int64>): (r: Choice) {
    var valid := ValidNums(probe, namer, nums);
    if valid != {} then
      var n := Max(valid);
      Found(namer(n), probe(namer(n)).fd)
    else
      NotFound(exists n :: n in nums && probe(namer(n)).Corrupt?)
  }

  /** The pending file GetMeta settles on. */
  ghost function Pending(d: Dir): (r: Choice) { Best(Prober(d), PendNamer(), PendNums(d)) }

  function Combine(pend: Choice, cur: Choice): (r: Choice) {
    if pend.Found? && (cur.NotFound? || pend.fd.num > cur.fd.num) then pend
    else if cur.Found? then cur
    else NotFound(pend == NotFound(true) || cur.corrupt)
  }

  /** The file GetMeta settles on. */
  ghost function Choose(d: Dir): (r: Choice) {
    Combine(Pending(d), TryCurrents(d, [CURRENT, BAK]))
  }

  datatype MetaError = ErrClosed | ErrInvalidFile | ErrReadOnly | ErrNotExist | ErrCorrupted

  function OutcomeOf(c: Choice): (r: Result<FileDesc, MetaError>) {
    match c
    case Found(_, fd) => Ok(fd)
    case NotFound(corrupt) => Err(if corrupt then ErrCorrupted else ErrNotExist)
  }

  /** What GetMeta returns on an open storage. */
  ghost function Outcome(d: Dir): (r: Result<FileDesc, MetaError>) { OutcomeOf(Choose(d)) }

  function Removes(names: seq<string>): (r: seq<Step>) {
    if names == [] then [] else [Remove(names[0])] + Removes(names[1..])
  }

  /** What GetMeta does to a writable directory, given the pending names it collected. */
  function RestoreSteps(d: Dir, c: Choice, pendNames: seq<string>): (r: seq<Step>)
    requires c.Found? ==> Known(c.fd)
  {
    if c.Found? && (c.name != CURRENT || pendNames != [])
    then SetMetaSteps(d, c.fd) + Removes(pendNames)
    else []
  }

  /** pendNames names exactly the pending numbers of d, in any order and with repetitions. */
  ghost predicate PendListing(d: Dir, pendNames: seq<string>) {
    && (forall x :: x in pendNames ==> exists n :: n in PendNums(d) && x == PendName(n))
    && (forall n :: n in PendNums(d) ==> PendName(n) in pendNames)
  }

  /** steps are what a completed GetMeta may do to a writable d. */
  ghost predicate RestoredBy(d: Dir, steps: seq<Step>) {
    ChooseKnown(d);
    exists ps :: PendListing(d, ps) && steps == RestoreSteps(d, Choose(d), ps)
  }

  /** A completed GetMeta may take d to d'. */
  ghost predicate Recovered(d: Dir, d': Dir) {
    ChooseKnown(d);
    exists ps :: PendListing(d, ps) && d' == Exec(d, RestoreSteps(d, Choose(d), ps))
  }

  /** An interrupted GetMeta may take d to d'. */
  ghost predicate RecoveryCut(d: Dir, d': Dir) {
    ChooseKnown(d);
    exists ps :: PendListing(d, ps) && Cut(d, RestoreSteps(d, Choose(d), ps), d')
  }

  // ---------------------------------------------------------------- names

  lemma PendNameFacts(n: int64)
    ensures PendNum(PendName(n)) == Some(n)
    ensures PendName(n) != CURRENT && PendName(n) != BAK && PendName(n)[0] == 'C'
  {
    ParseFormatInt(n);
    assert PendName(n)[8..] == FormatInt(n);
    assert BAK[8..] == "bak";
    var m: int := n;
    assert m >= 0 ==> IsDigit(FormatInt(n)[0]);
    assert FormatInt(n)[0] != 'b';
    assert |FormatInt(n)| > 0;
  }

  lemma PendNameInjective(a: int64, b: int64)
    requires PendName(a) == PendName(b)
    ensures a == b
  {
    PendNameFacts(a);
    PendNameFacts(b);
  }

  lemma PendListed(d: Dir, n: int64)
    requires PendName(n) in d
    ensures n in PendNums(d)
  {
    PendNameFacts(n);
  }

  lemma {:induction false} FirstValidFound(probe: string -> Probe, names: seq<string>)
    ensures var c := FirstValid(probe, names); c.Found? ==> c.name in names && probe(c.name) == Valid(c.fd)
    ensures FirstValid(probe, names).NotFound? ==> forall x :: x in names ==> !probe(x).Valid?
  {
    if names != [] {
      FirstValidFound(probe, names[1..]);
      assert forall x :: x in names ==> x == names[0] || x in names[1..];
    }
  }

  lemma ChooseKnown(d: Dir)
    ensures Choose(d).Found? ==> Known(Choose(d).fd) && TryCurrent(d, Choose(d).name) == Valid(Choose(d).fd)
  {
    FirstValidFound(Prober(d), [CURRENT, BAK]);
  }

  /** nums[i] is the greatest number whose file probes as valid. */
  ghost predicate IsBest(probe: string -> Probe, nums: seq<int64>, names: seq<string>, i: nat) {
    && i < |nums| == |names|
    && forall j :: 0 <= j < |nums| && probe(names[j]).Valid? ==> nums[j] <= nums[i]
  }

  /** Walking names in descending order of their numbers stops at the best one. */
  lemma {:induction false} WalkDescending(probe: string -> Probe, nums: seq<int64>, names: seq<string>)
    requires |names| == |nums|
    requires forall i, j :: 0 <= i < j < |nums| ==> nums[i] >= nums[j]
    ensures var c := FirstValid(probe, names); c.Found? ==>
      probe(c.name) == Valid(c.fd) && exists i: nat :: IsBest(probe, nums, names, i) && c.name == names[i]
    ensures FirstValid(probe, names).NotFound? ==> forall i :: 0 <= i < |nums| ==> !probe(names[i]).Valid?
    ensures var c := FirstValid(probe, names); c.NotFound? ==>
      (c.corrupt <==> exists i :: 0 <= i < |nums| && probe(names[i]).Corrupt?)
  {
    if nums != [] {
      var rest, restNames := nums[1..], names[1..];
      assert forall i :: 0 < i < |nums| ==> nums[i] == rest[i - 1] && names[i] == restNames[i - 1];
      assert forall i :: 0 <= i < |rest| ==> rest[i] == nums[i + 1] && restNames[i] == names[i + 1];
      WalkDescending(probe, rest, restNames);
      var c1 := FirstValid(probe, restNames);
      if probe(names[0]).Valid? {
        assert IsBest(probe, nums, names, 0);
      } else if c1.Found? {
        var i: nat :| IsBest(probe, rest, restNames, i) && c1.name == restNames[i];
        assert IsBest(probe, nums, names, i + 1);
      }
    }
  }

  /** So what GetMeta finds among the pending files does not depend on the listing order. */
  lemma WalkIsBest(probe: string -> Probe, namer: int64 -> string, nums: seq<int64>, names: seq<string>, all: set<int64>)
    requires |names| == |nums| && forall i :: 0 <= i < |nums| ==> names[i] == namer(nums[i])
    requires forall i, j :: 0 <= i < j < |nums| ==> nums[i] >= nums[j]
    requires forall n :: n in nums <==> n in all
    ensures FirstValid(probe, names) == Best(probe, namer, all)
  {
    WalkDescending(probe, nums, names);
    var c := FirstValid(probe, names);
    if c.Found? {
      var i: nat :| IsBest(probe, nums, names, i) && c.name == names[i];
      assert nums[i] in nums;
      assert nums[i] in ValidNums(probe, namer, all);
      var n := Max(ValidNums(probe, namer, all));
      assert n in nums;
      assert n == nums[i];
    } else {
      forall n | n in all ensures n !in ValidNums(probe, namer, all) {
        assert n in nums;
      }
      if c.corrupt {
        var j :| 0 <= j < |nums| && probe(names[j]).Corrupt?;
        assert nums[j] in nums;
      } else {
        forall n | n in all ensures !probe(namer(n)).Corrupt? {
          assert n in nums;
        }
      }
    }
  }

  // ---------------------------------------------------------------- properties of one GetMeta

  ghost predicate SomeValid(d: Dir) {
    || TryCurrent(d, CURRENT).Valid?
    || TryCurrent(d, BAK).Valid?
    || exists n :: TryCurrent(d, PendName(n)).Valid?
  }

  lemma FirstOfTwo(probe: string -> Probe, x: string, y: string)
    ensures FirstValid(probe, [x, y]) ==
      (if probe(x).Valid? then Found(x, probe(x).fd)
       else if probe(y).Valid? then Found(y, probe(y).fd)
       else NotFound(probe(x).Corrupt? || probe(y).Corrupt?))
  {
    var two := [x, y];
    assert two[1..] == [y] && two[1..][1..] == [];
    assert FirstValid(probe, two[1..][1..]) == NotFound(false);
  }

  /** Some file GetMeta tries is corrupted or incomplete. */
  ghost predicate SomeCorrupt(d: Dir) {
    || TryCurrent(d, CURRENT).Corrupt?
    || TryCurrent(d, BAK).Corrupt?
    || exists n :: n in PendNums(d) && TryCurrent(d, PendName(n)).Corrupt?
  }

  /** What GetMeta sees in CURRENT.n */
  function Pend(d: Dir, n: int64): (p: Probe)
    ensures p.Valid? ==> Known(p.fd)
  {
    TryCurrent(d, PendName(n))
  }

  /** m is the greatest number of a valid pending file. */
  ghost predicate IsTop(d: Dir, m: int64) { Pend(d, m).Valid? && forall n: int64 :: Pend(d, n).Valid? ==> n <= m }

  ghost function ValidPends(d: Dir): (r: set<int64>) { ValidNums(Prober(d), PendNamer(), PendNums(d)) }

  lemma ValidPendsExact(d: Dir)
    ensures forall n: int64 :: n in ValidPends(d) <==> Pend(d, n).Valid?
  {
    forall n: int64 | Pend(d, n).Valid? ensures n in ValidPends(d) {
      PendListed(d, n);
    }
  }

  lemma TopExists(d: Dir) returns (m: int64)
    requires exists n: int64 :: Pend(d, n).Valid?
    ensures IsTop(d, m)
  {
    hide Pend, ValidPends;
    ValidPendsExact(d);
    m := Max(ValidPends(d));
  }

  /** What GetMeta returns when there is a valid pending file, m being the greatest number of one: the
      descriptor it names, unless CURRENT, or the backup if CURRENT is not valid, names one that is not older. */
  lemma NewestWins(d: Dir, m: int64)
    requires IsTop(d, m)
    ensures var p := Pend(d, m).fd; var c := TryCurrent(d, CURRENT); var b := TryCurrent(d, BAK);
      Outcome(d) == Ok(if c.Valid? then (if p.num > c.fd.num then p else c.fd)
                       else if b.Valid? then (if p.num > b.fd.num then p else b.fd)
                       else p)
  {
    hide TryCurrent, PendName;
    FirstOfTwo(Prober(d), CURRENT, BAK);
    ValidPendsExact(d);
    assert m in ValidPends(d) && Max(ValidPends(d)) == m;
  }

  /** And when there is none: what CURRENT names, or else the backup. */
  lemma CurrentThenBackup(d: Dir)
    requires forall n: int64 :: !Pend(d, n).Valid?
    ensures var c := TryCurrent(d, CURRENT); var b := TryCurrent(d, BAK);
      && (c.Valid? ==> Outcome(d) == Ok(c.fd))
      && (!c.Valid? && b.Valid? ==> Outcome(d) == Ok(b.fd))
      && (!c.Valid? && !b.Valid? ==> Outcome(d).Err?)
  {
    hide TryCurrent, PendName;
    FirstOfTwo(Prober(d), CURRENT, BAK);
    ValidPendsExact(d);
    assert ValidPends(d) == {};
  }

  /** GetMeta fails exactly when no CURRENT, CURRENT.bak or canonically named pending file is
      valid, and what it returns always has its target in the directory.  A failure is reported as
      corruption exactly when a file that was tried is corrupted. */
  lemma GetMetaExact(d: Dir)
    ensures Outcome(d).Ok? <==> SomeValid(d)
    ensures Outcome(d).Ok? ==> Known(Outcome(d).value) && GenName(Outcome(d).value) in d
    ensures !SomeValid(d) ==> Outcome(d) == Err(if SomeCorrupt(d) then ErrCorrupted else ErrNotExist)
  {
    ChooseKnown(d);
    FirstOfTwo(Prober(d), CURRENT, BAK);
    forall n | TryCurrent(d, PendName(n)).Valid? ensures n in ValidNums(Prober(d), PendNamer(), PendNums(d)) {
      PendListed(d, n);
    }
  }

  // ---------------------------------------------------------------- where code and comments part

  lemma Targets(fd: FileDesc, name: string)
    requires Known(fd) && name != [] && name[0] == 'C'
    ensures ParseCurrent(Content(fd)) == Some(fd) && name != GenName(fd)
  {
    GenNameChars(fd);
    ParseGenName(fd);
    assert Content(fd)[..|Content(fd)| - 1] == GenName(fd);
  }

  /** A pending file whose number is not written canonically is matched by the listing and then not
      looked at: nothing is found, although it is complete. */
  lemma NonCanonicalIgnored(fd: FileDesc, x: string)
    requires Known(fd) && PendNum(x).Some? && x != PendName(PendNum(x).value)
    ensures var d: Dir := map[x := Content(fd), GenName(fd) := ""];
      TryCurrent(d, x) == Valid(fd) && Outcome(d) == Err(ErrNotExist)
  {
    hide ParseName, GenName, Outcome, FormatInt, ParseInt;
    var d: Dir := map[x := Content(fd), GenName(fd) := ""];
    Targets(fd, x);
    GenNameChars(fd);
    NotAPlainName(x);
    forall n: int64 ensures PendName(n) !in d && BAK !in d && CURRENT !in d {
      PendNameFacts(n);
    }
    GetMetaExact(d);
  }

  lemma NotAPlainName(x: string)
    requires PendNum(x).Some?
    ensures x != CURRENT && x != BAK
  {
  }

  /** CURRENT.007 is such a name. */
  lemma LeadingZeros()
    ensures PendNum("CURRENT.007") == Some(7) && PendName(7) == "CURRENT.7" != "CURRENT.007"
  {
    assert "CURRENT.007"[8..] == "007" && "CURRENT.7"[8..] == "7";
    ValueAfterZeros(2, "7");
    assert Zeros(2) + "7" == "007";
    assert "7"[..0] == [] && Value("7") == 7;
    assert Digits(7) == "7";
  }

  /** The comment speaks of `CURRENT.[0-9]+`, but a negative number counts as well. */
  lemma NegativeNumberUsed(fd: FileDesc, n: int64)
    requires Known(fd)
    ensures Outcome(map[PendName(n) := Content(fd), GenName(fd) := ""]) == Ok(fd)
  {
    hide ParseName, GenName, FormatInt;
    var d: Dir := map[PendName(n) := Content(fd), GenName(fd) := ""];
    PendNameFacts(n);
    Targets(fd, PendName(n));
    GenNameChars(fd);
    assert TryCurrent(d, PendName(n)) == Valid(fd);
    GetMetaExact(d);
    FirstOfTwo(Prober(d), CURRENT, BAK);
    forall m: int64 ensures PendName(m) in d ==> m == n {
      PendNameFacts(m);
      if PendName(m) == PendName(n) { PendNameInjective(m, n); }
    }
    assert ValidNums(Prober(d), PendNamer(), PendNums(d)) <= {n};
  }

  /** The interface promises ErrNotExist where there is no descriptor; an empty CURRENT gives another error. */
  lemma CorruptionReported()
    ensures Outcome(map[CURRENT := ""]) == Err(ErrCorrupted)
  {
    var d: Dir := map[CURRENT := ""];
    forall n: int64 ensures PendName(n) !in d {
      PendNameFacts(n);
    }
    GetMetaExact(d);
  }

  /** Nor does a CURRENT whose target is missing count as corrupted. */
  lemma MissingTarget(fd: FileDesc)
    requires Known(fd)
    ensures Outcome(map[CURRENT := Content(fd)]) == Err(ErrNotExist)
  {
    hide ParseName, GenName, Outcome;
    var d: Dir := map[CURRENT := Content(fd)];
    Targets(fd, CURRENT);
    forall n: int64 ensures PendName(n) !in d {
      PendNameFacts(n);
    }
    GetMetaExact(d);
  }

  // ---------------------------------------------------------------- in full

  lemma FiveFacts()
    ensures Content(FileDesc(Manifest, 5)) == "MANIFEST-000005\n" && PendName(5) == "CURRENT.5"
  {
    hide FormatInt, Value;
    GenNameExamples();
    DigitValue('5');
    FormatIntExact(5, "5");
    assert "5" == ['5'];
  }

  /** What setMeta does, and what GetMeta makes of the result, file by file. */
  lemma StepsInFull()
    ensures SetMetaSteps(map["CURRENT" := "x"], FileDesc(Manifest, 5)) ==
      [Write("CURRENT.bak", "x"), Write("CURRENT.5", "MANIFEST-000005\n"), Rename("CURRENT.5", "CURRENT")]
    ensures SetMetaSteps(map["CURRENT" := "MANIFEST-000005\n"], FileDesc(Manifest, 5)) == []
    ensures Outcome(map["CURRENT" := "MANIFEST-000005\n", "MANIFEST-000005" := ""]) == Ok(FileDesc(Manifest, 5))
  {
    hide GenName, FormatInt, ParseName, FirstValid, Best, Outcome, PendName;
    var fd := FileDesc(Manifest, 5);
    FiveFacts();
    GenNameExamples();
    Targets(fd, CURRENT);
    var d: Dir := map["CURRENT" := "MANIFEST-000005\n", "MANIFEST-000005" := ""];
    forall n: int64 ensures !Pend(d, n).Valid? {
      PendNameFacts(n);
    }
    CurrentThenBackup(d);
  }
}
