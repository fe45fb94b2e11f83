/** Which directories a GetMeta that keeps being interrupted can never lose. */
module MetaRecovery {
  import opened Basics
  import opened FileNames
  import opened MetaDir
  import opened MetaProtocol

  // ---------------------------------------------------------------- one interruption

  /** Some readable file survives every step of the recovery that would store fd. */
  ghost predicate Backed(d: Dir, fd: FileDesc) {
    || TryCurrent(d, CURRENT).Valid?
    || (CURRENT !in d && TryCurrent(d, BAK).Valid?)
    || exists n: int64 :: n != fd.num && TryCurrent(d, PendName(n)).Valid?
  }

  /** A GetMeta interrupted once, anywhere, can be run again with success if and only if the directory
      is Backed.  In the remaining case setMeta first copies an unreadable CURRENT over the good
      backup, or rewrites the only good pending file in place. */
  lemma RecoveryRepeatable(d: Dir)
    requires Outcome(d).Ok?
    ensures (forall d' :: RecoveryCut(d, d') ==> Outcome(d').Ok?) <==> Backed(d, Outcome(d).value)
  {
    ChooseKnown(d);
    var fd := Choose(d).fd;
    if Backed(d, fd) {
      forall d' | RecoveryCut(d, d') ensures Outcome(d').Ok? {
        BackedSurvives(d, d');
      }
    } else {
      NotBackedLoses(d);
    }
  }

  lemma BackedSurvives(d: Dir, d': Dir)
    requires Choose(d).Found? && Known(Choose(d).fd) && Backed(d, Choose(d).fd) && RecoveryCut(d, d')
    ensures Outcome(d').Ok?
  {
    hide Choose, ParseName, GenName, ParseInt, FormatInt;
    GetMetaExact(d');
    if TryCurrent(d, CURRENT).Valid? {
      ReadableStays(d, d');
    } else if !TryCurrent(d', CURRENT).Valid? {
      StepCases(d, d');
      if CURRENT !in d && TryCurrent(d, BAK).Valid? {
        SameProbe(d, BAK, d', BAK);
      } else {
        var n: int64 :| n != Choose(d).fd.num && TryCurrent(d, PendName(n)).Valid?;
        SameProbe(d, PendName(n), d', PendName(n));
      }
    }
  }

  // ---------------------------------------------------------------- what one recovery can leave

  /** A valid CURRENT stays valid, though it may come to name a newer descriptor. */
  lemma ReadableStays(d: Dir, d': Dir)
    requires TryCurrent(d, CURRENT).Valid? && RecoveryCut(d, d')
    ensures TryCurrent(d', CURRENT).Valid?
  {
    hide ParseName, GenName, ParseInt, FormatInt, Choose;
    GetMetaExact(d);
    OutcomeFound(d);
    ChooseKnown(d);
    RecoveryCutEvolves(d, d');
    WholeContent(Choose(d).fd);
    KeptTarget(d, d', Choose(d).fd);
    if d'[CURRENT] == d[CURRENT] { SameProbe(d, CURRENT, d', CURRENT); }
  }

  lemma OutcomeFound(d: Dir)
    ensures Outcome(d).Ok? <==> Choose(d).Found?
  {
    hide Choose;
  }

  predicate SameFile(d: Dir, d': Dir, x: string) { (x in d <==> x in d') && (x in d ==> d'[x] == d[x]) }

  /** The backup is overwritten, whole or in part, by what CURRENT holds; it is left alone if there
      is no CURRENT. */
  ghost predicate BackupAfter(d: Dir, d': Dir) {
    if CURRENT in d then BAK in d' && exists k :: 0 <= k <= |d[CURRENT]| && d'[BAK] == d[CURRENT][..k]
    else SameFile(d, d', BAK)
  }

  /** d' may be left of d while setMeta(fd) has not reached CURRENT yet. */
  ghost predicate Uncommitted(d: Dir, fd: FileDesc, d': Dir)
    requires Known(fd)
  {
    && Kept(d, d') && SameFile(d, d', CURRENT)
    && (d' == d || BackupAfter(d, d'))
    && forall n: int64 :: SameFile(d, d', PendName(n)) ||
         (n == fd.num && PendName(n) in d' && d'[PendName(n)] <= Content(fd))
  }

  lemma NamesApart(n: int64, m: int64)
    ensures PendName(n) != BAK && PendName(n) != CURRENT && MetaName(PendName(n)) && (PendName(n) == PendName(m) ==> n == m)
  {
    PendNameFacts(n);
    if PendName(n) == PendName(m) { PendNameInjective(n, m); }
  }

  lemma PreparedUncommitted(d: Dir, fd: FileDesc, k: nat)
    requires Known(fd) && k <= |Content(fd)|
    ensures Uncommitted(d, fd, Prepared(d, fd, k))
  {
    hide PendName, Content;
    forall n: int64 ensures PendName(n) != BAK && PendName(n) != CURRENT && MetaName(PendName(n))
      && (PendName(n) == PendName(fd.num) ==> n == fd.num)
    {
      NamesApart(n, fd.num);
    }
    if CURRENT in d { assert d[CURRENT] == d[CURRENT][..|d[CURRENT]|]; }
  }

  lemma BackupUncommitted(d: Dir, fd: FileDesc, k: nat)
    requires Known(fd) && CURRENT in d && k <= |d[CURRENT]|
    ensures Uncommitted(d, fd, TornBackup(d, k))
  {
    hide PendName, Content;
    forall n: int64 ensures PendName(n) != BAK && PendName(n) != CURRENT {
      NamesApart(n, n);
    }
  }

  /** CURRENT has been copied to the backup as far as its first k characters. */
  function TornBackup(d: Dir, k: nat): (r: Dir)
    requires CURRENT in d && k <= |d[CURRENT]|
  {
    d[BAK := d[CURRENT][..k]]
  }

  lemma WholeBackup(d: Dir)
    requires CURRENT in d
    ensures Backup(d) == TornBackup(d, |d[CURRENT]|)
  {
    assert d[CURRENT][..|d[CURRENT]|] == d[CURRENT];
  }

  lemma CommittedReads(d: Dir, fd: FileDesc, d': Dir)
    requires Known(fd) && GenName(fd) in d && Kept(d, d') && CURRENT in d' && d'[CURRENT] == Content(fd)
    ensures TryCurrent(d', CURRENT).Valid?
  {
    WholeContent(fd);
    KeptTarget(d, d', fd);
  }

  /** Unless CURRENT becomes valid, all an interrupted GetMeta has done is the start of setMeta. */
  lemma StepCases(d: Dir, d': Dir)
    requires RecoveryCut(d, d') && Choose(d).Found? && !TryCurrent(d', CURRENT).Valid?
    ensures Known(Choose(d).fd) && Uncommitted(d, Choose(d).fd, d')
  {
    hide ParseName, GenName, ParseInt, FormatInt, Choose, PendName, TryCurrent, Content, Uncommitted;
    ChooseKnown(d);
    TargetThere(d, Choose(d).name);
    var fd := Choose(d).fd;
    var ps :| PendListing(d, ps) && Cut(d, RestoreSteps(d, Choose(d), ps), d');
    if RestoreSteps(d, Choose(d), ps) == [] {
      NothingDone(d, fd);
    } else {
      CutConcat(d, SetMetaSteps(d, fd), Removes(ps), d');
      if Cut(d, SetMetaSteps(d, fd), d') {
        SetMetaCases(d, fd, d');
      } else {
        SetMetaEvolves(d, fd);
        CutRemoves(Exec(d, SetMetaSteps(d, fd)), ps, d');
        ListingIsPend(d, ps);
        ThinnedEvolves(d, fd, Exec(d, SetMetaSteps(d, fd)), ps, d');
        CommittedReads(d, fd, d');
        assert false;
      }
    }
  }

  lemma TargetThere(d: Dir, x: string)
    ensures TryCurrent(d, x).Valid? ==> Known(TryCurrent(d, x).fd) && GenName(TryCurrent(d, x).fd) in d
  {
  }

  lemma NothingDone(d: Dir, fd: FileDesc)
    requires Known(fd)
    ensures Uncommitted(d, fd, d)
  {
  }

  lemma SetMetaCases(d: Dir, fd: FileDesc, d': Dir)
    requires Known(fd) && GenName(fd) in d && Cut(d, SetMetaSteps(d, fd), d') && !TryCurrent(d', CURRENT).Valid?
    ensures Uncommitted(d, fd, d')
  {
    hide ParseName, GenName, ParseInt, FormatInt, PendName, TryCurrent, Content, Uncommitted, Prepared, Cut;
    CutSetMeta(d, fd, d');
    SetMetaCutEvolves(d, fd, d');
    if CURRENT in d { WholeBackup(d); }
    if d' == d {
      NothingDone(d, fd);
    } else if CURRENT in d && exists k :: 0 <= k <= |d[CURRENT]| && d' == d[BAK := d[CURRENT][..k]] {
      var k :| 0 <= k <= |d[CURRENT]| && d' == d[BAK := d[CURRENT][..k]];
      BackupUncommitted(d, fd, k);
    } else if exists k :: 0 <= k <= |Content(fd)| && d' == Prepared(d, fd, k) {
      var k :| 0 <= k <= |Content(fd)| && d' == Prepared(d, fd, k);
      PreparedUncommitted(d, fd, k);
    } else {
      CommittedReads(d, fd, d');
      assert false;
    }
  }

  lemma PendingNames(d: Dir, todo: set<int64>) returns (ps: seq<string>)
    ensures forall x :: x in ps ==> exists n :: n in todo && x == PendName(n)
    ensures forall n :: n in todo ==> PendName(n) in ps
  {
    hide PendName;
    ps := [];
    if todo != {} {
      var n :| n in todo;
      var rest := PendingNames(d, todo - {n});
      ps := [PendName(n)] + rest;
      forall m | m in todo ensures PendName(m) in ps {
        assert m == n || m in todo - {n};
      }
    }
  }

  lemma NotBackedLoses(d: Dir)
    requires Choose(d).Found? && Known(Choose(d).fd) && !Backed(d, Choose(d).fd)
    ensures exists d' :: RecoveryCut(d, d') && !Outcome(d').Ok?
  {
    hide Choose, TryCurrent, Tore, PendName, RecoveryCut, Prepared;
    var fd := Choose(d).fd;
    var d' := Prepared(d, fd, 0);
    ChooseKnown(d);
    TargetThere(d, Choose(d).name);
    ContentChanges(d, fd);
    PreparedIsCut(d, fd, 0);
    CutSetMetaIsRecoveryCut(d, d');
    TornPrepared(d, fd);
    NothingElse(d, fd, d');
    GetMetaExact(d');
  }

  lemma NothingElse(d: Dir, fd: FileDesc, d': Dir)
    requires !Backed(d, fd) && Headless(d') && Tore(d, fd.num, d')
    ensures !SomeValid(d')
  {
    hide TryCurrent;
    forall n: int64 ensures !Pend(d', n).Valid? {
      assert n != fd.num ==> Pend(d', n) == TryCurrent(d, PendName(n));
    }
    NothingValid(d');
  }

  /** The remaining case is real: a torn CURRENT beside a good backup is lost if GetMeta is
      interrupted while it writes the pending file. */
  lemma RecoveryCanLose(fd: FileDesc)
    requires FileDescOk(fd)
    ensures exists d, d' :: Outcome(d) == Ok(fd) && RecoveryCut(d, d') && Outcome(d').Err?
  {
    hide ParseName, GenName, ParseInt, FormatInt;
    GenNameChars(fd);
    var d: Dir := map[CURRENT := "", BAK := Content(fd), GenName(fd) := ""];
    WholeContent(fd);
    assert GenName(fd) != CURRENT && GenName(fd) != BAK;
    assert TryCurrent(d, CURRENT) == Corrupt && TryCurrent(d, BAK) == Valid(fd);
    forall n: int64 ensures PendName(n) !in d {
      PendNameFacts(n);
    }
    FirstOfTwo(Prober(d), CURRENT, BAK);
    if Pending(d).Found? { PendingFound(d); }
    assert Choose(d) == Found(BAK, fd);
    NotBackedLoses(d);
  }

  // ---------------------------------------------------------------- any number of interruptions

  /** The pending file n is valid and names a descriptor with another number, so that acting on it
      writes another file. */
  predicate Cross(d: Dir, n: int64) { Pend(d, n).Valid? && Pend(d, n).fd.num != n }

  /** A torn copy of the unreadable CURRENT reads as a descriptor with number q. */
  ghost predicate Misread(d: Dir, q: int64) {
    CURRENT in d && exists k :: 0 <= k <= |d[CURRENT]| && TornReads(d, k, q)
  }

  predicate TornReads(d: Dir, k: nat, q: int64)
    requires CURRENT in d && k <= |d[CURRENT]|
  {
    var p := TryCurrent(TornBackup(d, k), BAK); p.Valid? && p.fd.num == q
  }

  /** A misread backup can lead GetMeta to overwrite the pending file q, after q has made it overwrite
      the file with the number that q names; n is one of the two. */
  ghost predicate Undermined(d: Dir, n: int64) {
    exists q: int64 :: Misread(d, q) && Cross(d, q) && Pend(d, q).fd.num < q && (n == q || n == Pend(d, q).fd.num)
  }

  /** The pending file n cannot be overwritten unless another such file is left. */
  ghost predicate Anchor(d: Dir, n: int64) {
    && Cross(d, n) && !Undermined(d, n)
    && !(Choose(d).Found? && Choose(d).name == BAK && Choose(d).fd.num == n)
  }

  /** A directory that no number of interrupted recoveries can lose. */
  ghost predicate Lasting(d: Dir) {
    || TryCurrent(d, CURRENT).Valid?
    || (CURRENT !in d && TryCurrent(d, BAK).Valid?)
    || exists n: int64 :: Anchor(d, n)
  }

  // ---------------------------------------------------------------- which file is chosen

  /** With an invalid CURRENT the choice is between the backup and the top pending file. */
  lemma ChooseTop(d: Dir, m: int64)
    requires !TryCurrent(d, CURRENT).Valid? && IsTop(d, m)
    ensures var b := TryCurrent(d, BAK);
      Choose(d) == if b.Valid? && b.fd.num >= Pend(d, m).fd.num then Found(BAK, b.fd) else Found(PendName(m), Pend(d, m).fd)
  {
    hide TryCurrent, PendName;
    FirstOfTwo(Prober(d), CURRENT, BAK);
    ValidPendsExact(d);
    assert m in ValidPends(d) && Max(ValidPends(d)) == m;
  }

  // ---------------------------------------------------------------- lasting directories stay lasting

  /** All readable prefixes of one text name the same descriptor. */
  lemma PrefixesAgree(c: string, i: nat, j: nat)
    requires i <= j <= |c| && ParseCurrent(c[..i]).Some? && ParseCurrent(c[..j]).Some?
    ensures ParseCurrent(c[..i]) == ParseCurrent(c[..j])
  {
    hide ParseName;
    if i < j {
      var a, rest := c[..i - 1], c[i..j - 1];
      assert c[..i][..i - 1] == a && c[..j][..j - 1] == a + ([c[i - 1]] + rest);
      NextLineIgnored(a, rest);
    }
  }

  lemma MisreadUnique(d: Dir, q: int64, r: int64)
    requires Misread(d, q) && Misread(d, r)
    ensures q == r
  {
    hide ParseCurrent;
    var i :| 0 <= i <= |d[CURRENT]| && TornReads(d, i, q);
    var j :| 0 <= j <= |d[CURRENT]| && TornReads(d, j, r);
    if i <= j { PrefixesAgree(d[CURRENT], i, j); } else { PrefixesAgree(d[CURRENT], j, i); }
  }

  /** What setMeta has not written reads as before; a changed pending file, if valid, names itself. */
  lemma PendAfter(d: Dir, fd: FileDesc, d': Dir, n: int64)
    requires Known(fd) && Uncommitted(d, fd, d')
    ensures Pend(d', n) == Pend(d, n) || (n == fd.num && (Pend(d', n).Valid? ==> Pend(d', n).fd.num == n))
  {
    hide ParseCurrent, PendName, Content;
    if SameFile(d, d', PendName(n)) {
      if PendName(n) in d { SameProbe(d, PendName(n), d', PendName(n)); }
    } else {
      PrefixParse(fd, d'[PendName(n)]);
    }
  }

  lemma MisreadAfter(d: Dir, fd: FileDesc, d': Dir, q: int64)
    requires Known(fd) && Uncommitted(d, fd, d')
    ensures Misread(d', q) <==> Misread(d, q)
  {
    hide ParseCurrent, PendName, Content;
    if CURRENT in d {
      forall k | 0 <= k <= |d[CURRENT]| ensures TornReads(d', k, q) == TornReads(d, k, q) {
        KeptTorn(d, d', k);
        SameProbe(TornBackup(d, k), BAK, TornBackup(d', k), BAK);
      }
    }
  }

  lemma KeptTorn(d: Dir, d': Dir, k: nat)
    requires Kept(d, d') && CURRENT in d && CURRENT in d' && d[CURRENT] == d'[CURRENT] && k <= |d[CURRENT]|
    ensures Kept(TornBackup(d, k), TornBackup(d', k))
  {
    assert MetaName(BAK);
  }

  /** Afterwards a valid backup is a misreading of CURRENT, unless it was not touched. */
  lemma BackupReads(d: Dir, fd: FileDesc, d': Dir)
    requires Known(fd) && Uncommitted(d, fd, d') && d' != d && TryCurrent(d', BAK).Valid?
    ensures if CURRENT in d then Misread(d, TryCurrent(d', BAK).fd.num) else TryCurrent(d, BAK).Valid?
  {
    hide ParseCurrent, PendName, Content;
    if CURRENT in d {
      var k :| 0 <= k <= |d[CURRENT]| && d'[BAK] == d[CURRENT][..k];
      assert Kept(TornBackup(d, k), d') by { assert MetaName(BAK); }
      SameProbe(TornBackup(d, k), BAK, d', BAK);
      assert TornReads(d, k, TryCurrent(d', BAK).fd.num);
    } else {
      SameProbe(d, BAK, d', BAK);
    }
  }

  lemma CrossAfter(d: Dir, fd: FileDesc, d': Dir, n: int64)
    requires Known(fd) && Uncommitted(d, fd, d')
    ensures Cross(d', n) ==> Cross(d, n) && Pend(d', n) == Pend(d, n)
    ensures Cross(d, n) && n != fd.num ==> Cross(d', n) && Pend(d', n) == Pend(d, n)
  {
    hide Pend, Uncommitted;
    PendAfter(d, fd, d', n);
  }

  lemma UnderminedAfter(d: Dir, fd: FileDesc, d': Dir, n: int64)
    requires Known(fd) && Uncommitted(d, fd, d') && Undermined(d', n)
    ensures Undermined(d, n)
  {
    hide Pend, Uncommitted, Misread;
    var q: int64 :| Misread(d', q) && Cross(d', q) && Pend(d', q).fd.num < q && (n == q || n == Pend(d', q).fd.num);
    CrossAfter(d, fd, d', q);
    MisreadAfter(d, fd, d', q);
  }

  ghost predicate ChoosesBackup(d: Dir, n: int64) { Choose(d).Found? && Choose(d).name == BAK && Choose(d).fd.num == n }

  /** A chosen backup is valid, and no pending file on top of it says more. */
  lemma ChoosesBackupFacts(d: Dir, n: int64, m: int64)
    requires ChoosesBackup(d, n) && !TryCurrent(d, CURRENT).Valid? && IsTop(d, m)
    ensures TryCurrent(d, BAK).Valid? && TryCurrent(d, BAK).fd.num == n && Pend(d, m).fd.num <= n
  {
    hide Choose, TryCurrent, Pend, PendName;
    ChooseKnown(d);
    ChooseTop(d, m);
    NamesApart(m, m);
  }

  /** The anchor is not being overwritten: it stays one, or gives way to the pending file on top. */
  lemma AnchorKept(d: Dir, d': Dir, n: int64)
    requires Anchor(d, n) && Choose(d).Found? && Known(Choose(d).fd) && Choose(d).fd.num != n
    requires Uncommitted(d, Choose(d).fd, d') && d' != d && !TryCurrent(d', CURRENT).Valid?
    requires CURRENT in d || !TryCurrent(d, BAK).Valid?
    ensures exists m: int64 :: Anchor(d', m)
  {
    hide Choose, TryCurrent, Pend, Uncommitted, Misread, Undermined, Cross;
    var fd := Choose(d).fd;
    CrossAfter(d, fd, d', n);
    if Undermined(d', n) { UnderminedAfter(d, fd, d', n); }
    if !ChoosesBackup(d', n) {
      assert Anchor(d', n);
    } else {
      CrossValid(d', n);
      var m := TopExists(d');
      ChoosesBackupFacts(d', n, m);
      BackupReads(d, fd, d');
      TopTakesOver(d, fd, d', n, m);
    }
  }

  lemma CrossValid(d: Dir, n: int64)
    ensures Cross(d, n) <==> Pend(d, n).Valid? && Pend(d, n).fd.num != n
  {
  }

  lemma TopTakesOver(d: Dir, fd: FileDesc, d': Dir, n: int64, m: int64)
    requires Known(fd) && Uncommitted(d, fd, d') && Misread(d, n) && ChoosesBackup(d', n)
    requires Cross(d, n) && Cross(d', n) && Pend(d', n) == Pend(d, n) && !Undermined(d, n)
    requires IsTop(d', m) && Pend(d', m).fd.num <= n
    ensures Anchor(d', m)
  {
    hide Choose, TryCurrent, Pend, Uncommitted, Misread;
    assert m > n;
    if Undermined(d', m) {
      var q: int64 :| Misread(d', q) && Cross(d', q) && Pend(d', q).fd.num < q && (m == q || m == Pend(d', q).fd.num);
      MisreadAfter(d, fd, d', q);
      MisreadUnique(d, q, n);
      assert false;
    }
  }

  /** The anchor is being overwritten: the pending file that causes it takes over. */
  lemma AnchorReplaced(d: Dir, d': Dir, n: int64)
    requires Anchor(d, n) && Choose(d).Found? && Known(Choose(d).fd) && Choose(d).fd.num == n
    requires Uncommitted(d, Choose(d).fd, d') && d' != d
    requires !TryCurrent(d, CURRENT).Valid? && !TryCurrent(d', CURRENT).Valid?
    requires CURRENT in d || !TryCurrent(d, BAK).Valid?
    ensures exists m: int64 :: Anchor(d', m)
  {
    hide Choose, TryCurrent, Pend, Uncommitted, Misread, Cross, Undermined;
    var fd := Choose(d).fd;
    CrossValid(d, n);
    var m := TopExists(d);
    ChooseTop(d, m);
    CrossValid(d, m);
    assert m > n && Cross(d, m) && Pend(d, m).fd.num == n;
    CrossAfter(d, fd, d', m);
    if Undermined(d', m) {
      UnderminedAfter(d, fd, d', m);
      TopNotUndermined(d, m, n);
    }
    if ChoosesBackup(d', m) {
      CrossValid(d', m);
      var top := TopExists(d');
      ChoosesBackupFacts(d', m, top);
      BackupReads(d, fd, d');
      MisreadUndermines(d, m, n);
    }
    assert Anchor(d', m);
  }

  lemma MisreadUndermines(d: Dir, m: int64, n: int64)
    requires Misread(d, m) && Cross(d, m) && Pend(d, m).fd.num == n < m
    ensures Undermined(d, n)
  {
    hide Misread, Cross, Pend;
  }

  lemma TopNotUndermined(d: Dir, m: int64, n: int64)
    requires Undermined(d, m) && IsTop(d, m) && Pend(d, m).fd.num == n
    ensures Undermined(d, n)
  {
    hide Misread, Pend;
  }

  lemma LastingStep(d: Dir, d': Dir)
    requires Lasting(d) && RecoveryCut(d, d')
    ensures Lasting(d')
  {
    hide Choose, TryCurrent, Pend, Uncommitted, Misread, Cross, Undermined, RecoveryCut;
    LastingFound(d);
    ChooseKnown(d);
    if TryCurrent(d, CURRENT).Valid? {
      ReadableStays(d, d');
    } else if !TryCurrent(d', CURRENT).Valid? && d' != d {
      StepCases(d, d');
      if CURRENT !in d && TryCurrent(d, BAK).Valid? {
        BackupStays(d, Choose(d).fd, d');
      } else {
        var n: int64 :| Anchor(d, n);
        if Choose(d).fd.num == n { AnchorReplaced(d, d', n); } else { AnchorKept(d, d', n); }
      }
    }
  }

  lemma BackupStays(d: Dir, fd: FileDesc, d': Dir)
    requires Known(fd) && Uncommitted(d, fd, d') && d' != d && CURRENT !in d && TryCurrent(d, BAK).Valid?
    ensures CURRENT !in d' && TryCurrent(d', BAK).Valid?
  {
    hide ParseCurrent, PendName;
    SameProbe(d, BAK, d', BAK);
  }

  lemma LastingFound(d: Dir)
    requires Lasting(d)
    ensures Choose(d).Found? && Outcome(d).Ok?
  {
    hide Choose, TryCurrent, Undermined, Misread;
    GetMetaExact(d);
    OutcomeFound(d);
    if n: int64 :| Anchor(d, n) { CrossValid(d, n); }
  }

  lemma {:induction false} LastingForever(ds: seq<Dir>, i: nat)
    requires |ds| > 0 && Recoveries(ds) && Lasting(ds[0]) && i < |ds|
    ensures Lasting(ds[i])
  {
    hide Lasting, RecoveryCut, Recovered;
    if i > 0 {
      LastingForever(ds, i - 1);
      if Recovered(ds[i - 1], ds[i]) { RecoveredIsCut(ds[i - 1], ds[i]); }
      LastingStep(ds[i - 1], ds[i]);
    }
  }

  // ---------------------------------------------------------------- the others can be lost

  /** Some run of interrupted recoveries ends in a directory on which GetMeta fails. */
  ghost predicate Loses(d: Dir) {
    exists ds: seq<Dir> :: |ds| > 0 && ds[0] == d && Recoveries(ds) && Outcome(ds[|ds| - 1]).Err?
  }

  lemma LosesNow(d: Dir)
    requires !SomeValid(d)
    ensures Loses(d)
  {
    hide Outcome, SomeValid;
    GetMetaExact(d);
    var ds := [d];
    assert Recoveries(ds) && ds[|ds| - 1] == d;
  }

  lemma LoseStep(d: Dir, d': Dir)
    requires RecoveryCut(d, d') && Loses(d')
    ensures Loses(d)
  {
    hide RecoveryCut, Recovered, Outcome;
    var rest :| |rest| > 0 && rest[0] == d' && Recoveries(rest) && Outcome(rest[|rest| - 1]).Err?;
    var ds := [d] + rest;
    forall i | 0 <= i < |ds| - 1 ensures Recovered(ds[i], ds[i + 1]) || RecoveryCut(ds[i], ds[i + 1]) {
      if i > 0 { assert ds[i] == rest[i - 1] && ds[i + 1] == rest[i - 1 + 1]; }
    }
    assert ds[|ds| - 1] == rest[|rest| - 1];
  }

  lemma CutSetMetaIsRecoveryCut(d: Dir, d': Dir)
    requires Choose(d).Found? && Known(Choose(d).fd) && Choose(d).name != CURRENT
    requires Cut(d, SetMetaSteps(d, Choose(d).fd), d')
    ensures RecoveryCut(d, d')
  {
    hide Choose, Cut, SetMetaSteps, PendListing;
    var c := Choose(d);
    var ps := PendingNames(d, PendNums(d));
    AllListed(d, ps);
    CutConcat(d, SetMetaSteps(d, c.fd), Removes(ps), d');
  }

  lemma AllListed(d: Dir, ps: seq<string>)
    requires forall x :: x in ps ==> exists n :: n in PendNums(d) && x == PendName(n)
    requires forall n :: n in PendNums(d) ==> PendName(n) in ps
    ensures PendListing(d, ps)
  {
  }

  lemma TornBackupIsCut(d: Dir, fd: FileDesc, k: nat)
    requires Known(fd) && CURRENT in d && k <= |d[CURRENT]| && !NoChange(d, fd)
    ensures Cut(d, SetMetaSteps(d, fd), TornBackup(d, k))
  {
    hide PendName, Content;
    var steps := SetMetaSteps(d, fd);
    assert steps[0] == Write(BAK, d[CURRENT]);
    assert Torn(d, steps[0], TornBackup(d, k));
  }

  /** CURRENT and the backup are unreadable. */
  ghost predicate Headless(d: Dir) { !TryCurrent(d, CURRENT).Valid? && !TryCurrent(d, BAK).Valid? }

  /** Of the pending files, only t has become unreadable. */
  ghost predicate Tore(d: Dir, t: int64, d': Dir) {
    forall n: int64 :: Pend(d', n) == if n == t then Corrupt else Pend(d, n)
  }

  lemma ToreCross(d: Dir, t: int64, d': Dir, n: int64)
    requires Tore(d, t, d')
    ensures Cross(d', n) <==> Cross(d, n) && n != t
    ensures Cross(d', n) ==> Pend(d', n) == Pend(d, n)
  {
    hide Pend;
  }

  /** What is left after an interruption in the middle of writing CURRENT.N. */
  lemma TornPrepared(d: Dir, fd: FileDesc)
    requires Known(fd) && !TryCurrent(d, CURRENT).Valid? && (CURRENT in d || !TryCurrent(d, BAK).Valid?)
    ensures Headless(Prepared(d, fd, 0)) && Tore(d, fd.num, Prepared(d, fd, 0))
  {
    hide ParseCurrent, Content, PendName;
    var d' := Prepared(d, fd, 0);
    PreparedUncommitted(d, fd, 0);
    NamesApart(fd.num, fd.num);
    EmptyUnreadable();
    assert d'[PendName(fd.num)] == "";
    if CURRENT in d {
      SameProbe(d, CURRENT, d', CURRENT);
      SameProbe(d, CURRENT, d', BAK);
    } else if BAK in d {
      SameProbe(d, BAK, d', BAK);
    }
    forall n: int64 ensures Pend(d', n) == if n == fd.num then Corrupt else Pend(d, n) {
      NamesApart(n, fd.num);
      if n != fd.num && PendName(n) in d { SameProbe(d, PendName(n), d', PendName(n)); }
    }
  }

  /** An interruption there is always possible. */
  lemma TearStep(d: Dir)
    requires !TryCurrent(d, CURRENT).Valid? && Choose(d).Found? && Known(Choose(d).fd)
    requires Loses(Prepared(d, Choose(d).fd, 0))
    ensures Loses(d)
  {
    hide Choose, TryCurrent, Loses, RecoveryCut;
    ChooseKnown(d);
    TargetThere(d, Choose(d).name);
    ContentChanges(d, Choose(d).fd);
    PreparedIsCut(d, Choose(d).fd, 0);
    CutSetMetaIsRecoveryCut(d, Prepared(d, Choose(d).fd, 0));
    LoseStep(d, Prepared(d, Choose(d).fd, 0));
  }

  lemma ContentChanges(d: Dir, fd: FileDesc)
    requires Known(fd) && GenName(fd) in d && !TryCurrent(d, CURRENT).Valid?
    ensures !NoChange(d, fd)
  {
    WholeContent(fd);
  }

  /** The chosen descriptor's pending file is torn. */
  lemma TearChosen(d: Dir) returns (d': Dir)
    requires !TryCurrent(d, CURRENT).Valid? && (CURRENT in d || !TryCurrent(d, BAK).Valid?) && Choose(d).Found?
    ensures Headless(d') && Tore(d, Choose(d).fd.num, d') && (Loses(d') ==> Loses(d))
    ensures forall q: int64 :: Misread(d, q) ==> Misread(d', q)
  {
    hide Choose, TryCurrent, Loses, Pend, Misread, Tore, Uncommitted;
    ChooseKnown(d);
    var fd := Choose(d).fd;
    d' := Prepared(d, fd, 0);
    TornPrepared(d, fd);
    PreparedUncommitted(d, fd, 0);
    forall q: int64 | Misread(d, q) ensures Misread(d', q) { MisreadAfter(d, fd, d', q); }
    if Loses(d') { TearStep(d); }
  }

  lemma TearTop(d: Dir) returns (m: int64, d': Dir)
    requires Headless(d) && exists n: int64 :: Pend(d, n).Valid?
    ensures IsTop(d, m) && Headless(d') && Tore(d, Pend(d, m).fd.num, d') && (Loses(d') ==> Loses(d))
    ensures forall q: int64 :: Misread(d, q) ==> Misread(d', q)
    ensures !Cross(d, m) ==> |ValidPends(d')| < |ValidPends(d)|
  {
    hide Choose, TryCurrent, Loses, Pend, Misread, Tore, ValidPends;
    m := TopExists(d);
    ChooseTop(d, m);
    d' := TearChosen(d);
    if !Cross(d, m) { FewerPends(d, d', m); }
  }

  /** Tearing shrinks the set of valid pending files. */
  lemma FewerPends(d: Dir, d': Dir, m: int64)
    requires Pend(d, m).Valid? && Tore(d, m, d')
    ensures |ValidPends(d')| < |ValidPends(d)|
  {
    hide Pend, ValidPends;
    ValidPendsExact(d);
    ValidPendsExact(d');
    assert ValidPends(d') == ValidPends(d) - {m};
  }

  /** Pending files that name themselves are torn one after the other. */
  lemma {:induction false} SelfNamedLose(d: Dir)
    requires Headless(d) && forall n: int64 :: !Cross(d, n)
    ensures Loses(d)
    decreases |ValidPends(d)|
  {
    hide Headless, Pend, Loses, ValidPends, Tore, Misread, Cross;
    if exists n: int64 :: Pend(d, n).Valid? {
      var m, d' := TearTop(d);
      forall n: int64 ensures !Cross(d', n) { ToreCross(d, Pend(d, m).fd.num, d', n); }
      SelfNamedLose(d');
    } else {
      NothingValid(d);
      LosesNow(d);
    }
  }

  lemma NothingValid(d: Dir)
    requires Headless(d) && forall n: int64 :: !Pend(d, n).Valid?
    ensures !SomeValid(d)
  {
    hide TryCurrent;
    forall n: int64 ensures !TryCurrent(d, PendName(n)).Valid? { assert !Pend(d, n).Valid?; }
  }

  /** So are those above an undermined pair: first the self-named ones, then the file that q names,
      then, through a misread backup, q itself. */
  lemma {:induction false} PairLoses(d: Dir, q: int64)
    requires Headless(d) && Misread(d, q) && Cross(d, q) && Pend(d, q).fd.num < q
    requires forall n: int64 :: Cross(d, n) ==> n == q || n == Pend(d, q).fd.num
    ensures Loses(d)
    decreases |ValidPends(d)|
  {
    hide Headless, Pend, Loses, ValidPends, Tore, Misread, Cross;
    CrossValid(d, q);
    var m, d' := TearTop(d);
    CrossValid(d, m);
    forall n: int64 ensures Cross(d', n) ==> Cross(d, n) && n != Pend(d, m).fd.num { ToreCross(d, Pend(d, m).fd.num, d', n); }
    ToreCross(d, Pend(d, m).fd.num, d', q);
    if m == q { LastOfPairLoses(d', q); } else { PairLoses(d', q); }
  }

  lemma {:induction false} LastOfPairLoses(d: Dir, q: int64)
    requires Headless(d) && Misread(d, q) && Cross(d, q) && Pend(d, q).fd.num < q
    requires forall n: int64 :: Cross(d, n) ==> n == q
    ensures Loses(d)
    decreases |ValidPends(d)|
  {
    hide Headless, Pend, Loses, ValidPends, Tore, Cross, TornReads;
    CrossValid(d, q);
    var m, d' := TearTop(d);
    CrossValid(d, m);
    if m == q {
      var k :| 0 <= k <= |d[CURRENT]| && TornReads(d, k, q);
      MisreadLoses(d, q, k);
    } else {
      forall n: int64 ensures Cross(d', n) ==> Cross(d, n) { ToreCross(d, m, d', n); }
      ToreCross(d, m, d', q);
      LastOfPairLoses(d', q);
    }
  }

  /** A recovery may also be interrupted while it copies CURRENT to the backup. */
  lemma CopyStep(d: Dir, k: nat)
    requires CURRENT in d && k <= |d[CURRENT]| && !TryCurrent(d, CURRENT).Valid? && Choose(d).Found?
    requires Loses(TornBackup(d, k))
    ensures Loses(d)
  {
    hide Choose, TryCurrent, Loses, RecoveryCut;
    ChooseKnown(d);
    TargetThere(d, Choose(d).name);
    ContentChanges(d, Choose(d).fd);
    TornBackupIsCut(d, Choose(d).fd, k);
    CutSetMetaIsRecoveryCut(d, TornBackup(d, k));
    LoseStep(d, TornBackup(d, k));
  }

  lemma TornBackupReads(d: Dir, k: nat)
    requires CURRENT in d && k <= |d[CURRENT]|
    ensures var d' := TornBackup(d, k);
      && TryCurrent(d', CURRENT) == TryCurrent(d, CURRENT)
      && (forall n: int64 :: Pend(d', n) == Pend(d, n))
      && (k == |d[CURRENT]| ==> TryCurrent(d', BAK) == TryCurrent(d, CURRENT))
  {
    hide ParseCurrent, PendName;
    var d' := TornBackup(d, k);
    assert Kept(d, d') by { assert MetaName(BAK); }
    SameProbe(d, CURRENT, d', CURRENT);
    WholeBackup(d);
    if k == |d[CURRENT]| { SameProbe(d, CURRENT, d', BAK); }
    forall n: int64 ensures Pend(d', n) == Pend(d, n) {
      NamesApart(n, n);
      if PendName(n) in d { SameProbe(d, PendName(n), d', PendName(n)); }
    }
  }

  /** The backup, torn so that it names q, is chosen before the pending file q. */
  lemma MisreadLoses(d: Dir, q: int64, k: nat)
    requires Headless(d) && CURRENT in d && k <= |d[CURRENT]| && TornReads(d, k, q)
    requires IsTop(d, q) && Pend(d, q).fd.num < q && forall n: int64 :: Cross(d, n) ==> n == q
    ensures Loses(d)
  {
    hide Choose, TryCurrent, Pend, Loses, ValidPends, TornBackup, Tore, Misread;
    var d1 := TornBackup(d, k);
    TornBackupReads(d, k);
    ChooseTop(d1, q);
    WholeBackup(d);
    StillThere(d, k);
    var d2 := TearChosen(d1);
    forall n: int64 ensures !Cross(d2, n) {
      ToreCross(d1, q, d2, n);
      assert Pend(d1, n) == Pend(d, n) && (Cross(d1, n) ==> Cross(d, n));
    }
    SelfNamedLose(d2);
    ChooseTop(d, q);
    CopyStep(d, k);
  }

  lemma StillThere(d: Dir, k: nat)
    requires CURRENT in d && k <= |d[CURRENT]|
    ensures CURRENT in TornBackup(d, k)
  {
  }

  lemma NotLastingLoses(d: Dir)
    requires !Lasting(d)
    ensures Loses(d)
  {
    hide Outcome, Choose, TryCurrent, Pend, Loses, ValidPends, Prepared, Misread, TornBackup, SomeValid;
    GetMetaExact(d);
    OutcomeFound(d);
    if !SomeValid(d) {
      LosesNow(d);
    } else if q: int64 :| Misread(d, q) && Cross(d, q) && Pend(d, q).fd.num < q {
      PairFirst(d, q);
    } else {
      NoPairLoses(d);
    }
  }

  /** A file that is no anchor is undermined, or the chosen backup names it. */
  lemma NotAnchor(d: Dir, n: int64)
    requires !Lasting(d) && Choose(d).Found? && Cross(d, n)
    ensures Undermined(d, n) || ChoosesBackup(d, n)
  {
    hide Choose, TryCurrent, Cross, Undermined;
    assert !Anchor(d, n);
  }

  lemma NoPairLoses(d: Dir)
    requires !Lasting(d) && Choose(d).Found? && forall n: int64 :: !Undermined(d, n)
    ensures Loses(d)
  {
    hide Choose, TryCurrent, Pend, Loses, Misread, Tore, Cross, Undermined;
    var d' := TearChosen(d);
    forall n: int64 ensures !Cross(d', n) {
      ToreCross(d, Choose(d).fd.num, d', n);
      if Cross(d, n) { NotAnchor(d, n); }
    }
    SelfNamedLose(d');
  }

  /** Beside the pair, only the file that a chosen backup names can be cross-named. */
  lemma OnlyPair(d: Dir, q: int64, n: int64)
    requires !Lasting(d) && Choose(d).Found? && Misread(d, q) && Cross(d, q) && Pend(d, q).fd.num < q && Cross(d, n)
    ensures n == q || n == Pend(d, q).fd.num || ChoosesBackup(d, n)
  {
    hide Choose, TryCurrent, Pend, Misread;
    NotAnchor(d, n);
    if Undermined(d, n) {
      var r: int64 :| Misread(d, r) && Cross(d, r) && Pend(d, r).fd.num < r && (n == r || n == Pend(d, r).fd.num);
      MisreadUnique(d, q, r);
    }
  }

  lemma PairFirst(d: Dir, q: int64)
    requires !Lasting(d) && Choose(d).Found? && Misread(d, q) && Cross(d, q) && Pend(d, q).fd.num < q
    ensures Loses(d)
  {
    hide Choose, TryCurrent, Pend, Loses, ValidPends, Misread, TornBackup, Tore, Cross, Undermined, Headless, Anchor;
    CrossValid(d, q);
    var t, p := Choose(d).fd.num, Pend(d, q).fd.num;
    MisreadHasCurrent(d, q);
    forall n: int64 ensures Cross(d, n) ==> n == q || n == p || (Choose(d).name == BAK && n == t) {
      if Cross(d, n) { OnlyPair(d, q, n); }
    }
    if Choose(d).name == BAK && t != q && t != p {
      var d' := TearChosen(d);
      ToreCross(d, t, d', q);
      forall n: int64 ensures Cross(d', n) ==> Cross(d, n) && n != t { ToreCross(d, t, d', n); }
      PairLoses(d', q);
    } else {
      var k := |d[CURRENT]|;
      CopiedBackup(d, q);
      PairLoses(TornBackup(d, k), q);
      CopyStep(d, k);
    }
  }

  /** With a whole copy of the unreadable CURRENT as backup, only the pending files count. */
  lemma CopiedBackup(d: Dir, q: int64)
    requires CURRENT in d && !TryCurrent(d, CURRENT).Valid?
    ensures var d' := TornBackup(d, |d[CURRENT]|);
      && Headless(d') && (Misread(d, q) ==> Misread(d', q))
      && forall n: int64 :: Pend(d', n) == Pend(d, n) && (Cross(d', n) <==> Cross(d, n))
  {
    hide TryCurrent, Pend, Misread, TornBackup, Uncommitted;
    TornBackupReads(d, |d[CURRENT]|);
    var any := FileDesc(Manifest, 0);
    BackupUncommitted(d, any, |d[CURRENT]|);
    MisreadAfter(d, any, TornBackup(d, |d[CURRENT]|), q);
  }

  lemma MisreadHasCurrent(d: Dir, q: int64)
    requires Misread(d, q)
    ensures CURRENT in d
  {
  }

  // ---------------------------------------------------------------- main results

  /** GetMeta can be interrupted any number of times, anywhere, and still succeed when it is run
      again, if and only if the directory is lasting. */
  lemma RecoveryLasts(d: Dir)
    ensures Lasting(d) <==>
      forall ds, i :: |ds| > 0 && ds[0] == d && Recoveries(ds) && 0 <= i < |ds| ==> Outcome(ds[i]).Ok?
  {
    hide Outcome, Lasting, Recoveries;
    if Lasting(d) {
      forall ds, i | |ds| > 0 && ds[0] == d && Recoveries(ds) && 0 <= i < |ds| ensures Outcome(ds[i]).Ok? {
        LastingForever(ds, i);
        LastingFound(ds[i]);
      }
    } else {
      NotLastingLoses(d);
    }
  }

  /** Starting from a readable CURRENT no run of interrupted recoveries loses it. */
  lemma {:induction false} ReadableForever(ds: seq<Dir>, i: nat)
    requires |ds| > 0 && Recoveries(ds) && TryCurrent(ds[0], CURRENT).Valid? && i < |ds|
    ensures TryCurrent(ds[i], CURRENT).Valid? && Outcome(ds[i]).Ok?
  {
    hide TryCurrent, RecoveryCut, Recovered, Outcome;
    if i > 0 {
      ReadableForever(ds, i - 1);
      if Recovered(ds[i - 1], ds[i]) { RecoveredIsCut(ds[i - 1], ds[i]); }
      ReadableStays(ds[i - 1], ds[i]);
    }
    GetMetaExact(ds[i]);
  }

  /** One interruption may do no harm and a second one all of it: an empty CURRENT and two pending
      files that name themselves. */
  lemma TwoInterruptionsCanLose(a: FileDesc, b: FileDesc)
    requires FileDescOk(a) && FileDescOk(b) && a.num < b.num
    ensures var d: Dir := map[CURRENT := "", PendName(a.num) := Content(a), PendName(b.num) := Content(b),
                              GenName(a) := "", GenName(b) := ""];
      Outcome(d) == Ok(b) && Backed(d, b) && !Lasting(d)
  {
    hide ParseName, GenName, FormatInt, ParseInt, PendName, Content, ParseCurrent;
    var d: Dir := map[CURRENT := "", PendName(a.num) := Content(a), PendName(b.num) := Content(b),
                      GenName(a) := "", GenName(b) := ""];
    GenNameChars(a);
    GenNameChars(b);
    WholeContent(a);
    WholeContent(b);
    forall n: int64
      ensures PendName(n) !in {CURRENT, BAK} && MetaName(PendName(n))
      ensures (PendName(n) == PendName(a.num) ==> n == a.num) && (PendName(n) == PendName(b.num) ==> n == b.num)
    {
      NamesApart(n, a.num);
      NamesApart(n, b.num);
    }
    assert d[PendName(a.num)] == Content(a) && d[PendName(b.num)] == Content(b) && d[CURRENT] == "";
    assert ParseCurrent("").None? by { EmptyUnreadable(); }
    assert BAK !in d;
    assert Pend(d, a.num) == Valid(a) && Pend(d, b.num) == Valid(b);
    forall n: int64 ensures !Cross(d, n) && (Pend(d, n).Valid? ==> n <= b.num) {
      assert PendName(n) in d ==> n == a.num || n == b.num;
    }
    assert IsTop(d, b.num);
    ChooseTop(d, b.num);
  }

  /** Nor is a pending file that makes GetMeta overwrite another one always safe: here CURRENT holds a
      complete content and one character more, which a torn copy of it may lose. */
  lemma MisreadCanLose(f: FileDesc, g: FileDesc)
    requires FileDescOk(f) && FileDescOk(g) && f.num < g.num
    ensures var d: Dir := map[CURRENT := Content(g) + "x", PendName(g.num) := Content(f), GenName(f) := "", GenName(g) := ""];
      Outcome(d) == Ok(f) && Backed(d, f) && !Lasting(d)
  {
    hide ParseName, GenName, FormatInt, ParseInt, PendName, Content, ParseCurrent;
    var d: Dir := map[CURRENT := Content(g) + "x", PendName(g.num) := Content(f), GenName(f) := "", GenName(g) := ""];
    GenNameChars(f);
    GenNameChars(g);
    WholeContent(f);
    WholeContent(g);
    OneMoreUnreadable(Content(g));
    forall n: int64
      ensures PendName(n) !in {CURRENT, BAK} && MetaName(PendName(n)) && (PendName(n) == PendName(g.num) ==> n == g.num)
    {
      NamesApart(n, g.num);
    }
    assert d[CURRENT] == Content(g) + "x" && d[PendName(g.num)] == Content(f) && BAK !in d;
    assert Pend(d, g.num) == Valid(f);
    assert d[CURRENT][..|Content(g)|] == Content(g);
    assert TornReads(d, |Content(g)|, g.num);
    assert Undermined(d, g.num);
    forall n: int64 ensures n != g.num ==> !Pend(d, n).Valid? {
      assert PendName(n) in d ==> n == g.num;
    }
    ChooseTop(d, g.num);
  }

  lemma OneMoreUnreadable(c: string)
    ensures ParseCurrent(c + "x").None?
  {
  }

  lemma EmptyUnreadable()
    ensures ParseCurrent("").None?
  {
  }
}
