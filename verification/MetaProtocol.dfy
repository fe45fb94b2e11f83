/** Crash safety of the meta pointer over whole runs of completed and interrupted calls. */
module MetaProtocol {
  import opened Basics
  import opened FileNames
  import opened MetaDir

  // ---------------------------------------------------------------- contents

  /** A CURRENT file is readable exactly when all of it was written. */
  lemma TornContent(fd: FileDesc, k: nat)
    requires Known(fd) && k <= |Content(fd)|
    ensures ParseCurrent(Content(fd)[..k]) == (if k == |Content(fd)| then Some(fd) else None)
  {
    var c := Content(fd);
    var b := c[..k];
    GenNameChars(fd);
    if k == |c| {
      assert b == c && c[..|c| - 1] == GenName(fd);
      ParseGenName(fd);
    } else if k > 0 {
      assert b[|b| - 1] == GenName(fd)[k - 1];
    }
  }

  lemma WholeContent(fd: FileDesc)
    requires Known(fd)
    ensures ParseCurrent(Content(fd)) == Some(fd)
  {
    TornContent(fd, |Content(fd)|);
    assert Content(fd)[..|Content(fd)|] == Content(fd);
  }

  // ---------------------------------------------------------------- what steps leave alone

  predicate MetaName(x: string) { x != [] && x[0] == 'C' }

  /** The same files exist outside the CURRENT family. */
  ghost predicate Kept(d: Dir, d': Dir) {
    forall x: string :: !MetaName(x) ==> (x in d <==> x in d')
  }

  lemma KeptTarget(d: Dir, d': Dir, fd: FileDesc)
    requires Kept(d, d') && Known(fd)
    ensures GenName(fd) in d <==> GenName(fd) in d'
  {
    GenNameChars(fd);
    assert !MetaName(GenName(fd));
  }

  /** A file's validity depends on its content and on the target only. */
  lemma SameProbe(d: Dir, x: string, d': Dir, y: string)
    requires Kept(d, d') && x in d && y in d' && d[x] == d'[y]
    ensures TryCurrent(d, x) == TryCurrent(d', y)
  {
    if ParseCurrent(d[x]).Some? {
      KeptTarget(d, d', ParseCurrent(d[x]).value);
    }
  }

  // ---------------------------------------------------------------- SetMeta, cut and whole

  function Backup(d: Dir): (r: Dir) { if CURRENT in d then d[BAK := d[CURRENT]] else d }

  function Prepared(d: Dir, fd: FileDesc, k: nat): (r: Dir)
    requires Known(fd) && k <= |Content(fd)|
  {
    Backup(d)[PendName(fd.num) := Content(fd)[..k]]
  }

  function Committed(d: Dir, fd: FileDesc): (r: Dir)
    requires Known(fd)
  {
    (Backup(d) - {PendName(fd.num)})[CURRENT := Content(fd)]
  }

  predicate NoChange(d: Dir, fd: FileDesc)
    requires Known(fd)
  {
    CURRENT in d && d[CURRENT] == Content(fd)
  }

  lemma ExecSetMeta(d: Dir, fd: FileDesc)
    requires Known(fd)
    ensures Exec(d, SetMetaSteps(d, fd)) == if NoChange(d, fd) then d else Committed(d, fd)
  {
    if !NoChange(d, fd) {
      hide PendName, Content;
      PendNameFacts(fd.num);
      ExecCommit(Backup(d), PendName(fd.num), Content(fd));
      var commit := CommitSteps(PendName(fd.num), Content(fd));
      if CURRENT in d {
        ExecConcat(d, [Write(BAK, d[CURRENT])], commit);
        assert Exec(d, [Write(BAK, d[CURRENT])]) == Backup(d);
      }
    }
  }

  function CommitSteps(p: string, data: string): (r: seq<Step>) { [Write(p, data), Rename(p, CURRENT)] }

  lemma ExecCommit(b: Dir, p: string, data: string)
    requires p != CURRENT
    ensures Exec(b, CommitSteps(p, data)) == (b - {p})[CURRENT := data]
  {
    var s := CommitSteps(p, data);
    var b1 := Apply(b, s[0]);
    assert s[1..] == [s[1]] && s[1..][1..] == [];
    assert b1 - {p} == b - {p};
    assert Exec(b1, s[1..]) == Exec(Apply(b1, s[1]), s[1..][1..]) == Apply(b1, s[1]);
  }

  lemma CutCommit(b: Dir, p: string, data: string, d': Dir)
    requires p != CURRENT && Cut(b, CommitSteps(p, data), d')
    ensures d' == b || (exists k :: 0 <= k <= |data| && d' == b[p := data[..k]]) || d' == (b - {p})[CURRENT := data]
  {
    ExecCommit(b, p, data);
    var s := CommitSteps(p, data);
    var b1 := Apply(b, s[0]);
    assert s[1..] == [s[1]] && s[1..][1..] == [];
    assert data[..|data|] == data;
    if d' != b && !Torn(b, s[0], d') {
      assert Cut(b1, s[1..], d');
      assert d' == b1 || Cut(Apply(b1, s[1]), s[1..][1..], d');
      assert d' == b1 || d' == Exec(b, s);
    }
  }

  /** The states an interrupted SetMeta can leave behind. */
  lemma CutSetMeta(d: Dir, fd: FileDesc, d': Dir)
    requires Known(fd) && Cut(d, SetMetaSteps(d, fd), d')
    ensures || d' == d
            || (!NoChange(d, fd) && CURRENT in d && exists k :: 0 <= k <= |d[CURRENT]| && d' == d[BAK := d[CURRENT][..k]])
            || (!NoChange(d, fd) && d' == Backup(d))
            || (!NoChange(d, fd) && exists k :: 0 <= k <= |Content(fd)| && d' == Prepared(d, fd, k))
            || (!NoChange(d, fd) && d' == Committed(d, fd))
  {
    hide PendName, Content;
    if !NoChange(d, fd) {
      var commit := CommitSteps(PendName(fd.num), Content(fd));
      var b := Backup(d);
      PendNameFacts(fd.num);
      if CURRENT in d {
        var h := Write(BAK, d[CURRENT]);
        assert SetMetaSteps(d, fd) == [h] + commit;
        assert ([h] + commit)[1..] == commit;
        assert d' == d || Torn(d, h, d') || Cut(b, commit, d');
      }
      if Cut(b, commit, d') {
        CutCommit(b, PendName(fd.num), Content(fd), d');
        if k :| 0 <= k <= |Content(fd)| && d' == b[PendName(fd.num) := Content(fd)[..k]] {
          assert d' == Prepared(d, fd, k);
        }
      }
    }
  }

  lemma PreparedIsCut(d: Dir, fd: FileDesc, k: nat)
    requires Known(fd) && k <= |Content(fd)| && !NoChange(d, fd)
    ensures Cut(d, SetMetaSteps(d, fd), Prepared(d, fd, k))
  {
    hide PendName, Content;
    var commit := CommitSteps(PendName(fd.num), Content(fd));
    var b := Backup(d);
    var d' := Prepared(d, fd, k);
    assert Torn(b, commit[0], d');
    assert Cut(b, commit, d');
    if CURRENT in d {
      var h := Write(BAK, d[CURRENT]);
      assert SetMetaSteps(d, fd) == [h] + commit;
      assert ([h] + commit)[1..] == commit;
    }
  }

  // ---------------------------------------------------------------- removals

  predicate AllPend(names: seq<string>) { forall x :: x in names ==> MetaName(x) && x != CURRENT && x != BAK }

  /** d' is d without some of the names. */
  ghost predicate Thinned(d: Dir, names: seq<string>, d': Dir) {
    && (forall x :: x in d' ==> x in d && d'[x] == d[x])
    && (forall x :: x in d && x !in names ==> x in d')
  }

  lemma {:induction false} CutRemoves(d: Dir, names: seq<string>, d': Dir)
    requires Cut(d, Removes(names), d')
    ensures Thinned(d, names, d')
    decreases |names|
  {
    if names != [] && d' != d {
      assert Removes(names)[1..] == Removes(names[1..]);
      CutRemoves(d - {names[0]}, names[1..], d');
    }
  }

  lemma {:induction false} ExecRemoves(d: Dir, names: seq<string>)
    ensures Exec(d, Removes(names)) == d - (set x | x in names)
    decreases |names|
  {
    if names != [] {
      assert Removes(names)[1..] == Removes(names[1..]);
      ExecRemoves(d - {names[0]}, names[1..]);
      assert forall x :: x in names <==> x == names[0] || x in names[1..];
    }
  }

  // ---------------------------------------------------------------- how a call moves the directory

  /** d' differs from d only as a partial run of setMeta(fd), plus removals of pending files, may
      make it differ: CURRENT is as before or points at fd, CURRENT.N may hold a prefix of fd's
      content, no other pending file is new or changed. */
  ghost predicate Evolves(d: Dir, fd: FileDesc, d': Dir)
    requires Known(fd)
  {
    && Kept(d, d')
    && (CURRENT in d ==> CURRENT in d')
    && (CURRENT in d' ==> d'[CURRENT] == Content(fd) || (CURRENT in d && d'[CURRENT] == d[CURRENT]))
    && forall n: int64 :: PendName(n) in d' ==>
         || (PendName(n) in d && d'[PendName(n)] == d[PendName(n)])
         || (n == fd.num && d'[PendName(n)] <= Content(fd))
  }

  lemma {:induction false} SetMetaCutEvolves(d: Dir, fd: FileDesc, d': Dir)
    requires Known(fd) && Cut(d, SetMetaSteps(d, fd), d')
    ensures Evolves(d, fd, d')
  {
    CutSetMeta(d, fd, d');
    forall n: int64 ensures PendName(n) != CURRENT && PendName(n) != BAK && MetaName(PendName(n)) {
      PendNameFacts(n);
    }
    forall n: int64 | PendName(n) == PendName(fd.num) ensures n == fd.num {
      PendNameInjective(n, fd.num);
    }
  }

  lemma SetMetaEvolves(d: Dir, fd: FileDesc)
    requires Known(fd)
    ensures Evolves(d, fd, Exec(d, SetMetaSteps(d, fd)))
    ensures var d' := Exec(d, SetMetaSteps(d, fd)); CURRENT in d' && d'[CURRENT] == Content(fd)
  {
    ExecSetMeta(d, fd);
    ExecIsCut(d, SetMetaSteps(d, fd));
    SetMetaCutEvolves(d, fd, Exec(d, SetMetaSteps(d, fd)));
  }

  lemma ThinnedEvolves(d: Dir, fd: FileDesc, d1: Dir, names: seq<string>, d': Dir)
    requires Known(fd) && Evolves(d, fd, d1) && Thinned(d1, names, d') && AllPend(names)
    ensures Evolves(d, fd, d')
  {
  }

  lemma ListingIsPend(d: Dir, ps: seq<string>)
    requires PendListing(d, ps)
    ensures AllPend(ps)
  {
    forall x | x in ps ensures MetaName(x) && x != CURRENT && x != BAK {
      var n :| n in PendNums(d) && x == PendName(n);
      PendNameFacts(n);
    }
  }

  /** However GetMeta is interrupted, the directory moves towards the descriptor it chose. */
  lemma RecoveryCutEvolves(d: Dir, d': Dir)
    requires RecoveryCut(d, d') && Choose(d).Found?
    ensures Known(Choose(d).fd) && Evolves(d, Choose(d).fd, d')
  {
    ChooseKnown(d);
    var fd := Choose(d).fd;
    var ps :| PendListing(d, ps) && Cut(d, RestoreSteps(d, Choose(d), ps), d');
    if RestoreSteps(d, Choose(d), ps) == [] {
      assert d' == d;
    } else {
      CutConcat(d, SetMetaSteps(d, fd), Removes(ps), d');
      if Cut(d, SetMetaSteps(d, fd), d') {
        SetMetaCutEvolves(d, fd, d');
      } else {
        var d1 := Exec(d, SetMetaSteps(d, fd));
        SetMetaEvolves(d, fd);
        CutRemoves(d1, ps, d');
        ListingIsPend(d, ps);
        ThinnedEvolves(d, fd, d1, ps, d');
      }
    }
  }

  /** A completed GetMeta leaves CURRENT pointing at what it returned and no pending file. */
  lemma RecoveredSettles(d: Dir, d': Dir)
    requires Recovered(d, d') && Choose(d).Found?
    ensures TryCurrent(d', CURRENT) == Valid(Choose(d).fd)
    ensures forall n: int64 :: PendName(n) !in d'
    ensures Kept(d, d')
  {
    hide ParseName, GenName, ParseInt, FormatInt, Choose;
    ChooseKnown(d);
    var fd := Choose(d).fd;
    var ps :| PendListing(d, ps) && d' == Exec(d, RestoreSteps(d, Choose(d), ps));
    ListingIsPend(d, ps);
    forall n: int64 | PendName(n) in d ensures PendName(n) in ps {
      PendListed(d, n);
    }
    if RestoreSteps(d, Choose(d), ps) == [] && (Choose(d).name == CURRENT && ps == []) {
    } else {
      var d1 := Exec(d, SetMetaSteps(d, fd));
      SetMetaEvolves(d, fd);
      ExecSetMeta(d, fd);
      ExecConcat(d, SetMetaSteps(d, fd), Removes(ps));
      ExecRemoves(d1, ps);
      forall n: int64 ensures PendName(n) !in d' {
        PendNameFacts(n);
        assert PendName(n) in d1 ==> PendName(n) in d;
      }
      WholeContent(fd);
      KeptTarget(d, d', fd);
    }
  }

  // ---------------------------------------------------------------- GetMeta is stable

  /** CURRENT is valid and no valid pending file says anything else. */
  ghost predicate Agreed(d: Dir, fd: FileDesc) {
    && TryCurrent(d, CURRENT) == Valid(fd)
    && forall n: int64 :: TryCurrent(d, PendName(n)).Valid? ==> TryCurrent(d, PendName(n)).fd == fd
  }

  lemma PendingFound(d: Dir)
    requires Pending(d).Found?
    ensures exists n: int64 :: Pending(d).name == PendName(n) && TryCurrent(d, PendName(n)) == Valid(Pending(d).fd)
  {
    var n := Max(ValidNums(Prober(d), PendNamer(), PendNums(d)));
    assert Pending(d).name == PendName(n);
  }

  lemma AgreedOutcome(d: Dir, fd: FileDesc)
    requires Agreed(d, fd)
    ensures Choose(d) == Found(CURRENT, fd)
  {
    FirstOfTwo(Prober(d), CURRENT, BAK);
    if Pending(d).Found? {
      PendingFound(d);
    }
  }

  lemma PrefixParse(fd: FileDesc, b: string)
    requires Known(fd) && b <= Content(fd)
    ensures ParseCurrent(b) == (if b == Content(fd) then Some(fd) else None)
  {
    TornContent(fd, |b|);
    assert Content(fd)[..|b|] == b;
  }

  lemma AgreedEvolves(d: Dir, fd: FileDesc, d': Dir)
    requires Agreed(d, fd) && Known(fd) && Evolves(d, fd, d')
    ensures Agreed(d', fd)
  {
    WholeContent(fd);
    KeptTarget(d, d', fd);
    if d'[CURRENT] == d[CURRENT] { SameProbe(d, CURRENT, d', CURRENT); }
    forall n: int64 | TryCurrent(d', PendName(n)).Valid? ensures TryCurrent(d', PendName(n)).fd == fd {
      if PendName(n) in d && d'[PendName(n)] == d[PendName(n)] {
        SameProbe(d, PendName(n), d', PendName(n));
      } else {
        PrefixParse(fd, d'[PendName(n)]);
      }
    }
  }

  /** A run of GetMeta calls, each completed or interrupted anywhere. */
  ghost predicate Recoveries(ds: seq<Dir>) {
    forall i :: 0 <= i < |ds| - 1 ==> Recovered(ds[i], ds[i + 1]) || RecoveryCut(ds[i], ds[i + 1])
  }

  lemma RecoveredIsCut(d: Dir, d': Dir)
    requires Recovered(d, d')
    ensures RecoveryCut(d, d')
  {
    ChooseKnown(d);
    var ps :| PendListing(d, ps) && d' == Exec(d, RestoreSteps(d, Choose(d), ps));
    ExecIsCut(d, RestoreSteps(d, Choose(d), ps));
  }

  lemma {:induction false} AgreedForever(ds: seq<Dir>, fd: FileDesc, i: nat)
    requires Recoveries(ds) && i < |ds| && Agreed(ds[0], fd)
    ensures Agreed(ds[i], fd)
  {
    if i > 0 {
      AgreedForever(ds, fd, i - 1);
      AgreedOutcome(ds[i - 1], fd);
      if Recovered(ds[i - 1], ds[i]) { RecoveredIsCut(ds[i - 1], ds[i]); }
      RecoveryCutEvolves(ds[i - 1], ds[i]);
      AgreedEvolves(ds[i - 1], fd, ds[i]);
    }
  }

  /** On any directory: once a GetMeta has completed with a descriptor, every later GetMeta returns
      the same one, whatever completed or interrupted GetMeta calls come in between. */
  lemma GetMetaStable(d: Dir, ds: seq<Dir>, i: nat)
    requires Outcome(d).Ok? && |ds| > 0 && Recovered(d, ds[0]) && Recoveries(ds) && i < |ds|
    ensures Outcome(ds[i]) == Outcome(d)
  {
    RecoveredSettles(d, ds[0]);
    AgreedForever(ds, Choose(d).fd, i);
    AgreedOutcome(ds[i], Choose(d).fd);
  }

  // ---------------------------------------------------------------- one interrupted SetMeta

  /** CURRENT and every readable pending file name one of two descriptors. */
  ghost predicate OneOf(d: Dir, a: FileDesc, b: FileDesc) {
    && (TryCurrent(d, CURRENT) == Valid(a) || TryCurrent(d, CURRENT) == Valid(b))
    && forall n: int64 :: TryCurrent(d, PendName(n)).Valid? ==>
         TryCurrent(d, PendName(n)) == Valid(a) || TryCurrent(d, PendName(n)) == Valid(b)
  }

  lemma OneOfOutcome(d: Dir, a: FileDesc, b: FileDesc)
    requires OneOf(d, a, b)
    ensures Choose(d).Found? && (Choose(d).fd == a || Choose(d).fd == b)
  {
    FirstOfTwo(Prober(d), CURRENT, BAK);
    if Pending(d).Found? {
      PendingFound(d);
    }
  }

  lemma OneOfEvolves(d: Dir, a: FileDesc, b: FileDesc, fd: FileDesc, d': Dir)
    requires OneOf(d, a, b) && (fd == a || fd == b) && Known(fd) && Evolves(d, fd, d')
    requires GenName(fd) in d
    ensures OneOf(d', a, b)
  {
    WholeContent(fd);
    KeptTarget(d, d', fd);
    if d'[CURRENT] == d[CURRENT] { SameProbe(d, CURRENT, d', CURRENT); }
    forall n: int64 | TryCurrent(d', PendName(n)).Valid?
      ensures TryCurrent(d', PendName(n)) == Valid(a) || TryCurrent(d', PendName(n)) == Valid(b)
    {
      if PendName(n) in d && d'[PendName(n)] == d[PendName(n)] {
        SameProbe(d, PendName(n), d', PendName(n));
      } else {
        PrefixParse(fd, d'[PendName(n)]);
      }
    }
  }

  lemma {:induction false} OneOfForever(ds: seq<Dir>, a: FileDesc, b: FileDesc, i: nat)
    requires Recoveries(ds) && i < |ds| && OneOf(ds[0], a, b)
    ensures OneOf(ds[i], a, b)
  {
    if i > 0 {
      OneOfForever(ds, a, b, i - 1);
      OneOfOutcome(ds[i - 1], a, b);
      ChooseKnown(ds[i - 1]);
      if Recovered(ds[i - 1], ds[i]) { RecoveredIsCut(ds[i - 1], ds[i]); }
      RecoveryCutEvolves(ds[i - 1], ds[i]);
      OneOfEvolves(ds[i - 1], a, b, Choose(ds[i - 1]).fd, ds[i]);
    }
  }

  /** SetMeta is atomic across crashes.  Start with a valid CURRENT and no pending file, cut
      SetMeta(next) anywhere, then run any number of interrupted GetMeta calls: a GetMeta that
      completes returns the old or the next descriptor, and every GetMeta after it, with any
      interruptions in between, returns that same one. */
  lemma SetMetaAtomic(d: Dir, prev: FileDesc, next: FileDesc, cut: seq<Dir>, later: seq<Dir>, i: nat)
    requires TryCurrent(d, CURRENT) == Valid(prev) && forall n: int64 :: PendName(n) !in d
    requires FileDescOk(next) && GenName(next) in d
    requires |cut| > 0 && Cut(d, SetMetaSteps(d, next), cut[0]) && Recoveries(cut)
    requires |later| > 0 && Recovered(cut[|cut| - 1], later[0]) && Recoveries(later) && i < |later|
    ensures Outcome(cut[|cut| - 1]) in {Ok(prev), Ok(next)}
    ensures Outcome(later[i]) == Outcome(cut[|cut| - 1])
  {
    SetMetaCutEvolves(d, next, cut[0]);
    OneOfEvolves(d, prev, next, next, cut[0]);
    OneOfForever(cut, prev, next, |cut| - 1);
    OneOfOutcome(cut[|cut| - 1], prev, next);
    GetMetaStable(cut[|cut| - 1], later, i);
  }

  /** next has been stored: CURRENT says so, or all of CURRENT.N does and it is newer. */
  predicate Stored(d: Dir, prev: FileDesc, next: FileDesc)
    requires Known(next)
  {
    || (CURRENT in d && d[CURRENT] == Content(next))
    || (next.num > prev.num && PendName(next.num) in d && d[PendName(next.num)] == Content(next))
  }

  /** Which of the two descriptors a GetMeta after an interrupted SetMeta returns: the new one as soon as
      all of CURRENT.N is written, if it is newer, and the old one before that. */
  lemma CutAnswer(d: Dir, prev: FileDesc, next: FileDesc, d': Dir)
    requires TryCurrent(d, CURRENT) == Valid(prev) && forall n: int64 :: PendName(n) !in d
    requires Known(next) && GenName(next) in d && Cut(d, SetMetaSteps(d, next), d')
    ensures Outcome(d') == Ok(if Stored(d', prev, next) then next else prev)
  {
    hide ParseName, GenName, ParseInt, FormatInt, Outcome, Cut, SetMetaSteps;
    SetMetaCutEvolves(d, next, d');
    WholeContent(next);
    KeptTarget(d, d', next);
    if d'[CURRENT] == d[CURRENT] { SameProbe(d, CURRENT, d', CURRENT); }
    var n := next.num;
    forall m: int64 ensures Pend(d', m).Valid? <==> m == n && PendName(n) in d' && d'[PendName(n)] == Content(next) {
      if PendName(m) in d' { PrefixParse(next, d'[PendName(m)]); }
    }
    if Pend(d', n).Valid? {
      assert IsTop(d', n);
      NewestWins(d', n);
    } else {
      CurrentThenBackup(d');
    }
  }

  lemma SomeElement(ps: seq<string>)
    ensures ps != [] ==> exists x :: x in ps
  {
    if ps != [] { assert ps[0] in ps; }
  }

  /** On a directory in order GetMeta does nothing. */
  lemma CleanUntouched(d: Dir, steps: seq<Step>)
    requires TryCurrent(d, CURRENT).Valid? && PendNums(d) == {} && RestoredBy(d, steps)
    ensures steps == []
  {
    hide TryCurrent, Choose, SetMetaSteps, Removes, PendNums;
    forall n: int64 ensures !TryCurrent(d, PendName(n)).Valid? {
      if TryCurrent(d, PendName(n)).Valid? { PendListed(d, n); }
    }
    AgreedOutcome(d, TryCurrent(d, CURRENT).fd);
    var ps :| PendListing(d, ps) && steps == RestoreSteps(d, Choose(d), ps);
    SomeElement(ps);
  }

  // ---------------------------------------------------------------- whole runs

  /** issued: every descriptor some SetMeta was called with (and the one the run started from);
      ack: the last one a completed SetMeta stored or a completed GetMeta returned. */
  datatype World = World(dir: Dir, issued: set<FileDesc>, ack: FileDesc)

  datatype Event = SetDone(fd: FileDesc) | SetCut(fd: FileDesc) | GetDone | GetCut | Other

  /** SetMeta is called with an existing file whose number is above all numbers used before. */
  ghost predicate Fresh(w: World, fd: FileDesc) {
    FileDescOk(fd) && GenName(fd) in w.dir && forall f :: f in w.issued ==> f.num < fd.num
  }

  /** Work outside the meta pointer: files come and go, but the targets of the acknowledged
      descriptor and of later ones stay. */
  ghost predicate OtherWork(w: World, d': Dir) {
    && (forall x: string :: MetaName(x) ==> (x in w.dir <==> x in d') && (x in d' ==> d'[x] == w.dir[x]))
    && forall f :: f in w.issued && Known(f) && f.num >= w.ack.num && GenName(f) in w.dir ==> GenName(f) in d'
  }

  ghost predicate Next(w: World, e: Event, w': World) {
    match e
    case SetDone(fd) =>
      && Fresh(w, fd) && w'.dir == Exec(w.dir, SetMetaSteps(w.dir, fd))
      && w'.issued == w.issued + {fd} && w'.ack == fd
    case SetCut(fd) =>
      && Fresh(w, fd) && Cut(w.dir, SetMetaSteps(w.dir, fd), w'.dir)
      && w'.issued == w.issued + {fd} && w'.ack == w.ack
    case GetDone =>
      && Recovered(w.dir, w'.dir) && w'.issued == w.issued
      && w'.ack == (if Outcome(w.dir).Ok? then Outcome(w.dir).value else w.ack)
    case GetCut => RecoveryCut(w.dir, w'.dir) && w'.issued == w.issued && w'.ack == w.ack
    case Other => OtherWork(w, w'.dir) && w'.issued == w.issued && w'.ack == w.ack
  }

  ghost predicate Init(w: World) {
    && w.issued == {w.ack} && TryCurrent(w.dir, CURRENT) == Valid(w.ack)
    && forall n: int64 :: PendName(n) !in w.dir
  }

  ghost predicate Run(ws: seq<World>, es: seq<Event>) {
    && |ws| == |es| + 1 && Init(ws[0])
    && forall i :: 0 <= i < |es| ==> Next(ws[i], es[i], ws[i + 1])
  }

  ghost predicate Inv(w: World) {
    && (forall f :: f in w.issued ==> Known(f))
    && (forall f, g :: f in w.issued && g in w.issued && f.num == g.num ==> f == g)
    && w.ack in w.issued
    && CURRENT in w.dir && ParseCurrent(w.dir[CURRENT]).Some?
    && (var c := ParseCurrent(w.dir[CURRENT]).value; c in w.issued && w.ack.num <= c.num)
    && PendingIssued(w)
    && (forall f :: f in w.issued && Known(f) && f.num >= w.ack.num ==> GenName(f) in w.dir)
  }

  ghost predicate PendingIssued(w: World) {
    forall n: int64 :: PendName(n) in w.dir && ParseCurrent(w.dir[PendName(n)]).Some? ==>
      var f := ParseCurrent(w.dir[PendName(n)]).value; f in w.issued && f.num == n
  }

  /** GetMeta never goes behind CURRENT, and only past it to an issued descriptor. */
  lemma InvOutcome(w: World)
    requires Inv(w)
    ensures Choose(w.dir).Found? && Choose(w.dir).fd in w.issued
    ensures Choose(w.dir).fd.num >= ParseCurrent(w.dir[CURRENT]).value.num >= w.ack.num
  {
    var c := ParseCurrent(w.dir[CURRENT]).value;
    assert Known(c) && GenName(c) in w.dir;
    assert TryCurrent(w.dir, CURRENT) == Valid(c);
    FirstOfTwo(Prober(w.dir), CURRENT, BAK);
    if Pending(w.dir).Found? {
      PendingFound(w.dir);
    }
  }

  lemma PendingEvolves(w: World, fd: FileDesc, w': World)
    requires PendingIssued(w) && Known(fd) && Evolves(w.dir, fd, w'.dir) && w.issued <= w'.issued && fd in w'.issued
    ensures PendingIssued(w')
  {
    forall n: int64 | PendName(n) in w'.dir && ParseCurrent(w'.dir[PendName(n)]).Some?
      ensures var f := ParseCurrent(w'.dir[PendName(n)]).value; f in w'.issued && f.num == n
    {
      if !(PendName(n) in w.dir && w'.dir[PendName(n)] == w.dir[PendName(n)]) {
        PrefixParse(fd, w'.dir[PendName(n)]);
      }
    }
  }

  lemma TargetsEvolve(w: World, fd: FileDesc, w': World)
    requires Known(fd) && Kept(w.dir, w'.dir) && GenName(fd) in w.dir
    requires forall f :: f in w.issued && Known(f) && f.num >= w.ack.num ==> GenName(f) in w.dir
    requires w'.issued <= w.issued + {fd} && w'.ack.num >= w.ack.num
    ensures forall f :: f in w'.issued && Known(f) && f.num >= w'.ack.num ==> GenName(f) in w'.dir
  {
    forall f | f in w'.issued && Known(f) && f.num >= w'.ack.num ensures GenName(f) in w'.dir {
      KeptTarget(w.dir, w'.dir, f);
    }
  }

  lemma InvInit(w: World)
    requires Init(w)
    ensures Inv(w)
  {
  }

  lemma InvEvolves(w: World, fd: FileDesc, w': World)
    requires Inv(w) && Known(fd) && GenName(fd) in w.dir && Evolves(w.dir, fd, w'.dir)
    requires w'.issued == w.issued + {fd} && forall f :: f in w.issued && f.num == fd.num ==> f == fd
    requires fd.num >= w.ack.num
    requires w'.ack == w.ack || (w'.ack == fd && ParseCurrent(w'.dir[CURRENT]) == Some(fd))
    ensures Inv(w')
  {
    hide ParseName, GenName, FormatInt, ParseInt;
    WholeContent(fd);
    PendingEvolves(w, fd, w');
    TargetsEvolve(w, fd, w');
  }

  lemma InvNext(w: World, e: Event, w': World)
    requires Inv(w) && Next(w, e, w')
    ensures Inv(w') && w.ack.num <= w'.ack.num && w.issued <= w'.issued
  {
    hide ParseName, GenName, ParseInt, FormatInt, Choose, Evolves, Exec, Cut, Recovered, RecoveryCut;
    match e {
      case SetDone(fd) =>
        SetMetaEvolves(w.dir, fd);
        WholeContent(fd);
        InvEvolves(w, fd, w');
      case SetCut(fd) =>
        SetMetaCutEvolves(w.dir, fd, w'.dir);
        InvEvolves(w, fd, w');
      case GetDone =>
        InvOutcome(w);
        ChooseKnown(w.dir);
        RecoveredSettles(w.dir, w'.dir);
        RecoveredIsCut(w.dir, w'.dir);
        RecoveryCutEvolves(w.dir, w'.dir);
        assert w'.issued == w.issued + {Choose(w.dir).fd};
        InvEvolves(w, Choose(w.dir).fd, w');
      case GetCut =>
        InvOutcome(w);
        ChooseKnown(w.dir);
        RecoveryCutEvolves(w.dir, w'.dir);
        assert w'.issued == w.issued + {Choose(w.dir).fd};
        InvEvolves(w, Choose(w.dir).fd, w');
      case Other =>
        assert MetaName(CURRENT);
        forall n: int64 ensures MetaName(PendName(n)) {
          PendNameFacts(n);
        }
    }
  }

  lemma {:induction false} InvAt(ws: seq<World>, es: seq<Event>, i: nat)
    requires Run(ws, es) && i < |ws|
    ensures Inv(ws[i])
  {
    hide Inv, Next, Init;
    if i == 0 {
      InvInit(ws[0]);
    } else {
      InvAt(ws, es, i - 1);
      assert Next(ws[i - 1], es[i - 1], ws[i - 1 + 1]);
      InvNext(ws[i - 1], es[i - 1], ws[i]);
    }
  }

  lemma {:induction false} InvRun(ws: seq<World>, es: seq<Event>, i: nat, j: nat)
    requires Run(ws, es) && i <= j < |ws|
    ensures Inv(ws[i]) && Inv(ws[j])
    ensures ws[i].ack.num <= ws[j].ack.num && ws[i].issued <= ws[j].issued
  {
    hide Inv, Next, Init;
    InvAt(ws, es, i);
    InvAt(ws, es, j);
    if i < j {
      InvRun(ws, es, i, j - 1);
      assert Next(ws[j - 1], es[j - 1], ws[j - 1 + 1]);
      InvNext(ws[j - 1], es[j - 1], ws[j]);
    }
  }

  /** Over every run in which SetMeta is called with increasing numbers, with calls completed or
      cut and recoveries completed or cut in any order: a GetMeta after a completed SetMeta(fd)
      succeeds and returns fd or a descriptor first issued after fd, never an older one. */
  lemma NeverOlder(ws: seq<World>, es: seq<Event>, i: nat, fd: FileDesc, j: nat)
    requires Run(ws, es) && i < j < |ws| && es[i] == SetDone(fd)
    ensures Outcome(ws[j].dir).Ok?
    ensures var r := Outcome(ws[j].dir).value;
      r in ws[j].issued && (r == fd || (r !in ws[i + 1].issued && r.num > fd.num))
  {
    hide ParseName, GenName, FormatInt, Init;
    InvRun(ws, es, i + 1, j);
    InvOutcome(ws[j]);
    assert Next(ws[i], es[i], ws[i + 1]);
  }

  /** The same for what a completed GetMeta returned: answers never go back. */
  lemma AnswersNeverGoBack(ws: seq<World>, es: seq<Event>, i: nat, j: nat)
    requires Run(ws, es) && i < j < |ws| && es[i] == GetDone
    ensures Outcome(ws[i].dir).Ok? && Outcome(ws[j].dir).Ok?
    ensures Outcome(ws[i].dir).value.num <= Outcome(ws[j].dir).value.num
    ensures Outcome(ws[i].dir).value.num == Outcome(ws[j].dir).value.num ==> Outcome(ws[i].dir) == Outcome(ws[j].dir)
  {
    InvRun(ws, es, i, i + 1);
    InvRun(ws, es, i + 1, j);
    InvOutcome(ws[i]);
    InvOutcome(ws[j]);
    assert Next(ws[i], es[i], ws[i + 1]);
  }
}
