/**
  Whole histories of the tuner's commands (diagnostics/perf_tune.py:749-869), each of which
  may stop anywhere: what stays restorable, and when `revert all` still leads back.
*/
module KnobHistory {
  import opened Prelude
  import opened KnobModel
  import opened KnobSpec
  import opened KnobTuner

  /** Command `c`, begun in `d`, can leave `e`, finished or stopped. */
  ghost predicate Leaves(knobs: Registry, d: Disk, c: Command, e: Disk)
    requires RegistryOk(knobs)
  {
    match c
    case DoKeep(n) => e == RunOne(knobs, d, c) || (n in knobs && MidKeep(knobs, d, n, e))
    case DoRevert(names) => e == RunOne(knobs, d, c) || MidRevert(knobs, d, names, e)
    case DoAb(names) => MidAb(knobs, d, names, e)
  }

  lemma LeavesOk(knobs: Registry, d: Disk, c: Command, e: Disk)
    requires DiskOk(knobs, d) && Leaves(knobs, d, c, e)
    ensures DiskOk(knobs, e)
  {
    RegistryInDisk(knobs, d);
    hide DiskOk, MidKeep, MidRevert, MidTest, RunOne;
    match c {
      case DoKeep(n) => if n in knobs && MidKeep(knobs, d, n, e) { MidKeepOk(knobs, d, n, e); } else { FinishedOk(knobs, d, c); }
      case DoRevert(names) => if MidRevert(knobs, d, names, e) { MidRevertOk(knobs, d, names, e); } else { FinishedOk(knobs, d, c); }
      case DoAb(names) =>
        var tested :| tested <= names && (e == Popped(d, tested) || exists n | n in names && n in knobs :: MidTest(knobs, Popped(d, tested), n, e));
        PoppedOk(knobs, d, tested);
        if n :| n in names && n in knobs && MidTest(knobs, Popped(d, tested), n, e) { MidTestOk(knobs, Popped(d, tested), n, e); }
    }
  }

  lemma PoppedOk(knobs: Registry, d: Disk, tested: set<Name>)
    requires DiskOk(knobs, d)
    ensures DiskOk(knobs, Popped(d, tested))
  {
  }

  lemma FinishedOk(knobs: Registry, d: Disk, c: Command)
    requires DiskOk(knobs, d)
    ensures DiskOk(knobs, RunOne(knobs, d, c))
  {
    match c {
      case DoKeep(n) => if n in knobs { KeepOk(knobs, d, n); }
      case DoRevert(names) => RevertOk(knobs, d, names);
      case DoAb(tested) => PoppedOk(knobs, d, tested);
    }
  }

  ghost predicate History(knobs: Registry, ds: seq<Disk>, cs: seq<Command>) {
    && |ds| == |cs| + 1 && DiskOk(knobs, ds[0])
    && forall k | 0 <= k < |cs| :: Leaves(knobs, ds[k], cs[k], ds[k + 1])
  }

  /** Any commands, each stopped anywhere: every entry stays restorable, and a finished
      `revert all` gives every file of every recorded knob the value its entry holds, leaves
      all other files alone, and leaves no entry. */
  lemma {:induction false} AnyHistoryReverts(knobs: Registry, ds: seq<Disk>, cs: seq<Command>, k: nat)
    requires History(knobs, ds, cs) && k < |ds|
    ensures DiskOk(knobs, ds[k])
    ensures RevertAll(knobs, ds[k]).persisted == map[] == RevertAll(knobs, ds[k]).pending
    ensures forall n, p | n in knobs && Entry(ds[k], n).Some? && p in SnapPaths(knobs[n]) && p in ds[k].live ::
              p in RevertAll(knobs, ds[k]).live && Recorded(Entry(ds[k], n).value, p) == Some(RevertAll(knobs, ds[k]).live[p])
    ensures forall p | p in ds[k].live && !exists n :: Reverts(knobs, ds[k], n, p) ::
              p in RevertAll(knobs, ds[k]).live && RevertAll(knobs, ds[k]).live[p] == ds[k].live[p]
  {
    hide DiskOk, Leaves, RevertAll;
    if k > 0 {
      AnyHistoryReverts(knobs, ds, cs, k - 1);
      LeavesOk(knobs, ds[k - 1], cs[k - 1], ds[k]);
    }
    RevertAllMeans(knobs, ds[k]);
  }

  lemma RevertAllMeans(knobs: Registry, d: Disk)
    requires DiskOk(knobs, d)
    ensures RevertAll(knobs, d).persisted == map[] == RevertAll(knobs, d).pending
    ensures forall n, p | n in knobs && Entry(d, n).Some? && p in SnapPaths(knobs[n]) && p in d.live ::
              p in RevertAll(knobs, d).live && Recorded(Entry(d, n).value, p) == Some(RevertAll(knobs, d).live[p])
    ensures forall p | p in d.live && !exists n :: Reverts(knobs, d, n, p) ::
              p in RevertAll(knobs, d).live && RevertAll(knobs, d).live[p] == d.live[p]
  {
    assert d.persisted - Entries(d) == map[] == d.pending - Entries(d);
    forall n, p | n in knobs && Entry(d, n).Some? && p in SnapPaths(knobs[n]) && p in d.live
      ensures Recorded(Entry(d, n).value, p) == Some(RevertAll(knobs, d).live[p])
    {
      RevertsOwnFiles(knobs, d, n, p);
      AtMostOneReverter(knobs, d, p);
      assert n in Entries(d);
    }
  }

  // ----- the way back is kept

  /** The snapshot a keep records is what an entry, if there is one, would restore. */
  ghost predicate SafeToKeep(knobs: Registry, d: Disk, n: Name) {
    Entry(d, n).None? || Restored(d.live, Entry(d, n).value) == d.live
  }

  lemma KeepRecordedOk(knobs: Registry, d: Disk, n: Name, e: Disk)
    requires DiskOk(knobs, d) && n in knobs && KeepRecorded(knobs, d, n, e)
    ensures DiskOk(knobs, e) && OnlyInside(d.live, e.live, SnapPaths(knobs[n]))
  {
    KeepOk(knobs, d, n);
  }

  lemma KeptOwnFile(knobs: Registry, d: Disk, n: Name, e: Disk, p: Path)
    requires DiskOk(knobs, d) && DiskOk(knobs, e) && n in knobs && KeepRecorded(knobs, d, n, e)
    requires p in d.live && p in e.live && p in SnapPaths(knobs[n])
    ensures RevertValue(knobs, e, Entries(e), p) == d.live[p]
    ensures RevertValue(knobs, d, Entries(d), p) ==
              if Entry(d, n).Some? then Restored(d.live, Entry(d, n).value)[p] else d.live[p]
  {
    OthersDoNotRevert(knobs, d, n, p);
    OthersDoNotRevert(knobs, e, n, p);
    SnapshotRecords(d.live, knobs[n], p);
    RevertsOwnFiles(knobs, e, n, p);
    assert n in Entries(e);
    if Entry(d, n).Some? {
      RevertsOwnFiles(knobs, d, n, p);
      assert n in Entries(d);
    }
  }

  lemma KeptOtherFile(knobs: Registry, d: Disk, n: Name, e: Disk, p: Path)
    requires DiskOk(knobs, d) && DiskOk(knobs, e) && n in knobs && KeepRecorded(knobs, d, n, e)
    requires OnlyInside(d.live, e.live, SnapPaths(knobs[n])) && p in d.live && p !in SnapPaths(knobs[n])
    ensures RevertValue(knobs, d, Entries(d), p) == RevertValue(knobs, e, Entries(e), p)
  {
    hide DiskOk, Applied, Snapshot, SnapPaths, OneReverter, Recorded, RevertValue;
    if Entry(d, n).Some? { RevertsOwnFiles(knobs, d, n, p); }
    RevertsOwnFiles(knobs, e, n, p);
    AtMostOneReverter(knobs, d, p);
    AtMostOneReverter(knobs, e, p);
    assert forall m | m != n :: Entry(d, m) == Entry(e, m);
    assert forall m :: Reverts(knobs, d, m, p) <==> Reverts(knobs, e, m, p);
    assert AlikeAt(knobs, d, e, p);
    AlikeSameValue(knobs, d, e, p);
  }

  lemma RevertAllLive(knobs: Registry, d: Disk, p: Path)
    requires RegistryOk(knobs) && p in d.live
    ensures p in RevertAll(knobs, d).live && RevertAll(knobs, d).live[p] == RevertValue(knobs, d, Entries(d), p)
  {
  }

  /** Exactly when a recorded keep leaves `revert all` leading where it led: an earlier entry
      for the knob holds nothing but what the files hold. */
  lemma KeepSafeIff(knobs: Registry, d: Disk, n: Name, e: Disk)
    requires DiskOk(knobs, d) && n in knobs && KeepRecorded(knobs, d, n, e)
    ensures RevertAll(knobs, e) == RevertAll(knobs, d) <==> SafeToKeep(knobs, d, n)
  {
    KeepRecordedOk(knobs, d, n, e);
    hide DiskOk, RevertAll, RevertValue, KeepRecorded;
    if SafeToKeep(knobs, d, n) {
      forall p | p in d.live ensures RevertValue(knobs, d, Entries(d), p) == RevertValue(knobs, e, Entries(e), p) {
        if p in SnapPaths(knobs[n]) { KeptOwnFile(knobs, d, n, e, p); } else { KeptOtherFile(knobs, d, n, e, p); }
      }
      RegistryInDisk(knobs, d);
      SameValuesSameRevert(knobs, d, e);
    } else {
      var back := Restored(d.live, Entry(d, n).value);
      assert back.Keys == d.live.Keys;
      var p :| p in d.live && back[p] != d.live[p];
      EntryOk(knobs, d, n);
      RecordedIn(knobs[n], d.live.Keys, Entry(d, n).value, p);
      KeptOwnFile(knobs, d, n, e, p);
      RegistryInDisk(knobs, d);
      RevertAllLive(knobs, d, p);
      RevertAllLive(knobs, e, p);
    }
  }

  /** What a revert of some names leaves to `revert all` is the rest. */
  lemma RevertLeavesTheRest(knobs: Registry, d: Disk, names: set<Name>, e: Disk)
    requires DiskOk(knobs, d) && e.(dropins := map[]) == Revert(knobs, d, names).(dropins := map[])
    ensures RevertAll(knobs, e) == RevertAll(knobs, d)
  {
    RevertedConsistent(knobs, d, names);
    forall p | p in d.live ensures RevertValue(knobs, d, Entries(d), p) == RevertValue(knobs, e, Entries(e), p) {
      AtMostOneReverter(knobs, d, p);
      RevertedFile(knobs, d, names, e, p);
    }
    SameValuesSameRevert(knobs, d, e);
  }

  lemma RevertedFile(knobs: Registry, d: Disk, names: set<Name>, e: Disk, p: Path)
    requires p in d.live && p in e.live && OneReverter(knobs, d, p) && e.live[p] == RevertValue(knobs, d, names, p)
    requires e.persisted == d.persisted - names && e.pending == d.pending - names
    ensures RevertValue(knobs, d, Entries(d), p) == RevertValue(knobs, e, Entries(e), p)
  {
    assert forall m :: Entry(e, m) == if m in names then None else Entry(d, m);
    forall l ensures Reverts(knobs, e, l, p) <==> l !in names && Reverts(knobs, d, l, p) {
      assert Entry(e, l) == if l in names then None else Entry(d, l);
    }
    if m :| Reverts(knobs, d, m, p) {
      assert m in Entries(d);
      assert m !in names ==> m in Entries(e) && Reverts(knobs, e, m, p);
    }
  }

  /** A careful command: only safe knobs are tested or kept, and a keep is not stopped between
      its first write and its record. */
  ghost predicate Careful(knobs: Registry, d: Disk, c: Command, e: Disk) {
    match c
    case DoKeep(n) => n in knobs ==> SafeToKeep(knobs, d, n) && (e.persisted == d.persisted ==> e.live == d.live)
    case DoRevert(_) => true
    case DoAb(names) => forall n | n in names :: n in knobs && SafeToTest(knobs, d, n)
  }

  lemma StepKeepsWayBack(knobs: Registry, d: Disk, c: Command, e: Disk)
    requires DiskOk(knobs, d) && Leaves(knobs, d, c, e) && Careful(knobs, d, c, e)
    ensures RevertAll(knobs, e) == RevertAll(knobs, d)
  {
    RegistryInDisk(knobs, d);
    hide DiskOk, RevertAll, SafeToTest, SafeToKeep, MidTest, Revert, Applied;
    match c {
      case DoKeep(n) =>
        if n in knobs {
          if KeepRecorded(knobs, d, n, e) { KeepSafeIff(knobs, d, n, e); } else { assert e == d; }
        }
      case DoRevert(names) =>
        if HalfReverted(knobs, d, e) { StoppedRevertReverts(knobs, d, e); } else { RevertLeavesTheRest(knobs, d, names, e); }
      case DoAb(names) =>
        var tested :| tested <= names && (e == Popped(d, tested) || exists n | n in names && n in knobs :: MidTest(knobs, Popped(d, tested), n, e));
        WithoutTested(knobs, d, tested, names);
        if e != Popped(d, tested) {
          var n :| n in names && n in knobs && MidTest(knobs, Popped(d, tested), n, e);
          StoppedTesting(knobs, d, tested, names, n, e);
        }
    }
  }

  /** Over any history of careful commands, each stopped anywhere else, `revert all` leads
      to one and the same machine. */
  lemma {:induction false} CarefulHistoriesLeadBack(knobs: Registry, ds: seq<Disk>, cs: seq<Command>, k: nat)
    requires History(knobs, ds, cs) && k < |ds|
    requires forall j | 0 <= j < |cs| :: Careful(knobs, ds[j], cs[j], ds[j + 1])
    ensures DiskOk(knobs, ds[k]) && RevertAll(knobs, ds[k]) == RevertAll(knobs, ds[0])
    ensures Entries(ds[0]) == {} ==> RevertAll(knobs, ds[k]).live == ds[0].live
  {
    hide DiskOk, Leaves, Careful, RevertAll;
    if k > 0 {
      CarefulHistoriesLeadBack(knobs, ds, cs, k - 1);
      LeavesOk(knobs, ds[k - 1], cs[k - 1], ds[k]);
      StepKeepsWayBack(knobs, ds[k - 1], cs[k - 1], ds[k]);
    }
    if Entries(ds[0]) == {} { NothingToRevert(knobs, ds[0]); }
  }

  lemma NothingToRevert(knobs: Registry, d: Disk)
    requires DiskOk(knobs, d) && Entries(d) == {}
    ensures RevertAll(knobs, d).live == d.live
  {
    assert forall m :: m !in Entries(d);
    RevertedConsistent(knobs, d, {});
  }
}
