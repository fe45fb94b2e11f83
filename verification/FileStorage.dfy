/** The storage object: SetMeta and GetMeta as they run on the directory. */
module FileStorage {
  import opened Basics
  import opened FileNames
  import opened MetaDir

  predicate Descending(s: seq<int64>) { forall i, j :: 0 <= i < j < |s| ==> s[i] >= s[j] }

  function InsertDescending(s: seq<int64>, x: int64): (r: seq<int64>)
    requires Descending(s)
    ensures Descending(r) && forall y :: y in r <==> y == x || y in s
  {
    if s == [] || x >= s[0] then [x] + s
    else
      var rest := InsertDescending(s[1..], x);
      assert forall y :: y in s <==> y == s[0] || y in s[1..];
      assert forall y :: y in rest ==> y <= s[0];
      assert forall i :: 0 <= i < |rest| ==> rest[i] in rest;
      [s[0]] + rest
  }

  /** `sort.Sort(sort.Reverse(…))` */
  function SortDescending(s: seq<int64>): (r: seq<int64>)
    ensures Descending(r) && forall y :: y in r <==> y in s
  {
    if s == [] then []
    else
      assert forall y :: y in s <==> y == s[0] || y in s[1..];
      InsertDescending(SortDescending(s[1..]), s[0])
  }

  class FileStorage {
    const readOnly: bool
    var dir: Dir
    // Negative once the storage is closed.
    var open: int
    // Every file-system step taken so far: a crash leaves a cut of what is being appended.
    ghost var journal: seq<Step>

    constructor (dir: Dir, readOnly: bool)
      ensures this.dir == dir && this.readOnly == readOnly && open == 0 && journal == []
    {
      this.dir, this.readOnly, open, journal := dir, readOnly, 0, [];
    }

    method WriteFileSynced(name: string, data: string)
      modifies `dir, `journal
      ensures dir == Apply(old(dir), Write(name, data)) && journal == old(journal) + [Write(name, data)]
    {
      dir := dir[name := data];
      journal := journal + [Write(name, data)];
    }

    method RenameFile(from: string, to: string)
      requires from in dir
      modifies `dir, `journal
      ensures dir == Apply(old(dir), Rename(from, to)) && journal == old(journal) + [Rename(from, to)]
    {
      dir := (dir - {from})[to := dir[from]];
      journal := journal + [Rename(from, to)];
    }

    /** Removing a missing file is only logged by the source. */
    method RemoveFile(name: string)
      modifies `dir, `journal
      ensures dir == Apply(old(dir), Remove(name)) && journal == old(journal) + [Remove(name)]
    {
      dir := dir - {name};
      journal := journal + [Remove(name)];
    }

    /** `setMeta` */
    method StoreMeta(fd: FileDesc)
      requires Known(fd)
      modifies `dir, `journal
      ensures journal == old(journal) + SetMetaSteps(old(dir), fd)
      ensures dir == Exec(old(dir), SetMetaSteps(old(dir), fd))
    {
      hide PendName, Content, GenName;
      var content := Content(fd);
      if CURRENT in dir {
        var b := dir[CURRENT];
        if b == content {
          return;
        }
        WriteFileSynced(BAK, b);
      }
      var path := PendName(fd.num);
      ghost var d1 := dir;
      WriteFileSynced(path, content);
      ghost var d2 := dir;
      RenameFile(path, CURRENT);
      assert Exec(d2, [Rename(path, CURRENT)]) == dir by {
        assert [Rename(path, CURRENT)][1..] == [];
      }
      var commit := [Write(path, content), Rename(path, CURRENT)];
      assert commit[1..] == [Rename(path, CURRENT)];
      assert Exec(d1, commit) == dir;
      assert SetMetaSteps(old(dir), fd) ==
        if CURRENT in old(dir) then [Write(BAK, old(dir)[CURRENT])] + commit else commit;
      if CURRENT in old(dir) {
        assert ([Write(BAK, old(dir)[CURRENT])] + commit)[1..] == commit;
      }
    }

    /** `SetMeta`: refused calls change nothing, an accepted one performs exactly the commit steps. */
    method SetMeta(fd: FileDesc) returns (r: Option<MetaError>)
      modifies `dir, `journal
      ensures r == if fd.ftype.Unknown? || fd.num < 0 then Some(ErrInvalidFile)
                   else if readOnly then Some(ErrReadOnly)
                   else if open < 0 then Some(ErrClosed)
                   else None
      ensures r.Some? ==> dir == old(dir) && journal == old(journal)
      ensures r.None? ==> journal == old(journal) + SetMetaSteps(old(dir), fd)
      ensures r.None? ==> dir == Exec(old(dir), SetMetaSteps(old(dir), fd))
    {
      if !FileDescOk(fd) { return Some(ErrInvalidFile); }
      if readOnly { return Some(ErrReadOnly); }
      if open < 0 { return Some(ErrClosed); }
      StoreMeta(fd);
      return None;
    }

    /** `tryCurrents` */
    method TryInOrder(names: seq<string>) returns (c: Choice)
      ensures c == TryCurrents(dir, names)
    {
      hide ParseCurrent;
      var corrupt := false;
      ghost var probe := Prober(dir);
      for i := 0 to |names|
        invariant var rest := FirstValid(probe, names[i..]);
          FirstValid(probe, names) == if rest.Found? then rest else NotFound(corrupt || rest.corrupt)
      {
        assert names[i..][1..] == names[i + 1..];
        assert probe(names[i]) == TryCurrent(dir, names[i]);
        match TryCurrent(dir, names[i]) {
          case Valid(fd) => return Found(names[i], fd);
          case Missing =>
          case Corrupt => corrupt := true;
        }
      }
      c := NotFound(corrupt);
    }

    /** The numbers of the pending files in a directory listing. */
    method PendingNumbers(listing: seq<string>) returns (nums: seq<int64>)
      requires forall x :: x in listing <==> x in dir
      ensures forall n :: n in nums <==> n in PendNums(dir)
    {
      hide PendNum;
      nums := [];
      for i := 0 to |listing|
        invariant forall n :: n in nums <==> exists j :: 0 <= j < i && PendNum(listing[j]) == Some(n)
      {
        if PendNum(listing[i]).Some? {
          nums := nums + [PendNum(listing[i]).value];
        }
      }
      forall n | n in PendNums(dir) ensures n in nums {
        var x :| x in dir && PendNum(x) == Some(n);
        assert x in listing;
      }
      forall n | n in nums ensures n in PendNums(dir) {
        var j :| 0 <= j < |listing| && PendNum(listing[j]) == Some(n);
        assert listing[j] in listing;
      }
    }

    /** GetMeta's first half: the pending names in descending order, and the best of them. */
    method TryPending(listing: seq<string>) returns (pendNames: seq<string>, pend: Choice)
      requires forall x :: x in listing <==> x in dir
      ensures PendListing(dir, pendNames) && pend == Pending(dir)
    {
      hide *;
      var nums := PendingNumbers(listing);
      nums := SortDescending(nums);
      pendNames := seq(|nums|, i requires 0 <= i < |nums| => PendName(nums[i]));
      pend := TryInOrder(pendNames);
      PendingOfListing(dir, nums, pendNames);
    }

    /** `GetMeta`.  The answer is a function of the directory alone, for every listing order; a
        writable directory is moved by exactly the recovery steps. */
    method GetMeta(listing: seq<string>) returns (r: Result<FileDesc, MetaError>, ghost steps: seq<Step>)
      requires forall x :: x in listing <==> x in dir
      modifies `dir, `journal
      ensures r == if open < 0 then Err(ErrClosed) else Outcome(old(dir))
      ensures open < 0 || readOnly ==> steps == []
      ensures !(open < 0 || readOnly) ==> RestoredBy(old(dir), steps) && Recovered(old(dir), dir)
      ensures journal == old(journal) + steps && dir == Exec(old(dir), steps)
    {
      hide PendName, TryCurrent, PendNum, FirstValid, Best, SetMetaSteps, Removes, TryCurrents, Pending, PendListing, Exec;
      steps := [];
      ExecNothing(dir);
      if open < 0 { return Err(ErrClosed), []; }

      var pendNames, pend := TryPending(listing);
      var cur := TryInOrder([CURRENT, BAK]);
      // A pending file takes precedence unless it is obsolete.
      if pend.Found? && (cur.NotFound? || pend.fd.num > cur.fd.num) {
        cur := pend;
      } else if cur.NotFound? {
        cur := NotFound(pend.corrupt || cur.corrupt);
      }
      ChooseKnown(dir);
      r := OutcomeOf(cur);
      if !readOnly {
        steps := RestoreSteps(dir, cur, pendNames);
        Restore(cur, pendNames);
        assert RestoredBy(old(dir), steps);
        RestoredIsRecovered(old(dir), steps);
      }
    }

    /** Puts CURRENT in order and only then removes the pending files. */
    method Restore(cur: Choice, pendNames: seq<string>)
      requires cur.Found? ==> Known(cur.fd)
      modifies `dir, `journal
      ensures journal == old(journal) + RestoreSteps(old(dir), cur, pendNames)
      ensures dir == Exec(old(dir), RestoreSteps(old(dir), cur, pendNames))
    {
      hide SetMetaSteps, Removes, Exec;
      ExecNothing(dir);
      if cur.Found? && (cur.name != CURRENT || pendNames != []) {
        StoreMeta(cur.fd);
        RemovePending(pendNames);
        ExecConcat(old(dir), SetMetaSteps(old(dir), cur.fd), Removes(pendNames));
      }
    }

    method RemovePending(names: seq<string>)
      modifies `dir, `journal
      ensures journal == old(journal) + Removes(names) && dir == Exec(old(dir), Removes(names))
    {
      assert names[..|names|] == names;
      for i := 0 to |names|
        invariant journal == old(journal) + Removes(names[..i])
        invariant dir == Exec(old(dir), Removes(names[..i]))
      {
        hide Exec, Removes;
        assert names[..i + 1] == names[..i] + [names[i]];
        RemovesSnoc(old(dir), names[..i], names[i]);
        RemoveFile(names[i]);
      }
    }
  }

  lemma RestoredIsRecovered(d: Dir, steps: seq<Step>)
    requires RestoredBy(d, steps)
    ensures Recovered(d, Exec(d, steps))
  {
    hide Choose, RestoreSteps, PendListing, Exec;
  }

  lemma ExecNothing(d: Dir)
    ensures Exec(d, []) == d
  {
  }

  lemma {:induction false} RemovesSnoc(d: Dir, names: seq<string>, x: string)
    ensures Removes(names + [x]) == Removes(names) + [Remove(x)]
    ensures Exec(d, Removes(names + [x])) == Apply(Exec(d, Removes(names)), Remove(x))
    decreases |names|
  {
    if names == [] {
      assert names + [x] == [x] && [x][1..] == [] && [Remove(x)][1..] == [];
    } else {
      assert (names + [x])[1..] == names[1..] + [x];
      RemovesSnoc(d - {names[0]}, names[1..], x);
      assert Removes(names + [x])[1..] == Removes(names[1..] + [x]);
      assert Removes(names)[1..] == Removes(names[1..]);
    }
  }

  lemma PendingOfListing(d: Dir, nums: seq<int64>, names: seq<string>)
    requires Descending(nums) && forall n :: n in nums <==> n in PendNums(d)
    requires |names| == |nums| && forall i :: 0 <= i < |nums| ==> names[i] == PendName(nums[i])
    ensures PendListing(d, names) && TryCurrents(d, names) == Pending(d)
  {
    hide PendName, TryCurrent, PendNums, FirstValid, Best;
    forall i | 0 <= i < |nums| ensures names[i] == PendNamer()(nums[i]) { }
    WalkIsBest(Prober(d), PendNamer(), nums, names, PendNums(d));
    forall x | x in names ensures exists n :: n in PendNums(d) && x == PendName(n) {
      var i :| 0 <= i < |names| && names[i] == x;
      assert nums[i] in nums;
    }
    forall n | n in PendNums(d) ensures PendName(n) in names {
      assert n in nums;
      var i :| 0 <= i < |nums| && nums[i] == n;
      assert names[i] == PendName(n);
    }
  }
}
