/**
  The runtime tuner's knob transactions (diagnostics/perf_tune.py).

  A knob is a list of kernel files with the values it proposes.  The tuner snapshots the
  files, records the snapshot on disk, writes the proposal, restores it, and re-renders
  three boot-time drop-ins from the knobs it was told to keep.

  Environment assumption: the dirty-page limits come in pairs (a ratio and its byte
  twin), and a write that changes one of a pair zeroes the other.
*/
module KnobModel {
  import opened Prelude

  type Path = string
  type Value = string
  type Name = string
  type Live = map<Path, Value>

  const ZERO: Value := "0"
  const CUDA_CACHE: Name := "cuda_cache"

  datatype Verdict = Adopt | Measure

  /** `targets` are the files written, with the proposal; `extra` is only snapshotted. */
  datatype Knob = Knob(verdict: Verdict, targets: seq<(Path, Value)>, extra: seq<Path>, persistable: bool)

  /** What a snapshot recorded for each path, in writing order; `None` was unreadable. */
  type Snap = seq<(Path, Option<Value>)>

  /** A line of one of the three drop-ins, by what it sets. */
  datatype Line = Sysctl(key: string) | Tmpfiles(path: Path) | Env(variable: string)

  /** The three drop-ins; each is written sorted, so its lines as a map fix its text, and a
      drop-in without lines does not exist. */
  type Dropins = map<Line, Value>

  /** Everything that survives the tuner's process. */
  datatype Disk = Disk(live: Live, persisted: map<Name, Snap>, pending: map<Name, Snap>, dropins: Dropins)

  // ----- coupled kernel files

  const RATIO: Path := "/proc/sys/vm/dirty_ratio"
  const BYTES: Path := "/proc/sys/vm/dirty_bytes"
  const BG_RATIO: Path := "/proc/sys/vm/dirty_background_ratio"
  const BG_BYTES: Path := "/proc/sys/vm/dirty_background_bytes"

  function Twin(p: Path): Option<Path> {
    if p == RATIO then Some(BYTES)
    else if p == BYTES then Some(RATIO)
    else if p == BG_RATIO then Some(BG_BYTES)
    else if p == BG_BYTES then Some(BG_RATIO)
    else None
  }

  /** At most one of a pair of limits is in force. */
  ghost predicate Consistent(live: Live) {
    OneInForce(live, RATIO, BYTES) && OneInForce(live, BG_RATIO, BG_BYTES)
  }

  ghost predicate OneInForce(live: Live, p: Path, q: Path) {
    p in live && q in live ==> live[p] == ZERO || live[q] == ZERO
  }

  lemma TwinsInForce(live: Live, p: Path)
    requires Consistent(live) && Twin(p).Some?
    ensures OneInForce(live, p, Twin(p).value)
  {
  }

  /** The files after one write: a changed limit zeroes its twin. */
  function Written(live: Live, p: Path, v: Value): (now: Live)
    ensures now.Keys == live.Keys
  {
    if p !in live || live[p] == v then live
    else if Twin(p).Some? && Twin(p).value in live then live[p := v][Twin(p).value := ZERO]
    else live[p := v]
  }

  lemma WrittenFacts(live: Live, p: Path, v: Value)
    requires Consistent(live)
    ensures Consistent(Written(live, p, v))
    ensures p in live ==> Written(live, p, v)[p] == v
  {
  }

  // ----- snapshots

  function SnapPaths(k: Knob): seq<Path> {
    k.extra + seq(|k.targets|, i requires 0 <= i < |k.targets| => k.targets[i].0)
  }

  function Snapshot(live: Live, k: Knob): Snap {
    seq(|SnapPaths(k)|, i requires 0 <= i < |SnapPaths(k)| =>
      (SnapPaths(k)[i], if SnapPaths(k)[i] in live then Some(live[SnapPaths(k)[i]]) else None))
  }

  function Recorded(snap: Snap, p: Path): (v: Option<Value>)
    ensures v.Some? ==> exists i :: 0 <= i < |snap| && snap[i] == (p, v)
    ensures v.None? ==> forall i | 0 <= i < |snap| && snap[i].0 == p :: snap[i].1.None?
  {
    if |snap| == 0 then None
    else if snap[0].0 == p && snap[0].1.Some? then snap[0].1
    else Recorded(snap[1..], p)
  }

  /** `snap` is what Snapshot could have recorded when exactly the files `keys` existed. */
  ghost predicate SnapOf(k: Knob, keys: set<Path>, snap: Snap) {
    && |snap| == |SnapPaths(k)|
    && (forall i {:trigger snap[i]} | 0 <= i < |snap| :: snap[i].0 == SnapPaths(k)[i] && (snap[i].1.Some? <==> snap[i].0 in keys))
    && OneRecorded(snap, RATIO, BYTES) && OneRecorded(snap, BG_RATIO, BG_BYTES)
  }

  ghost predicate OneRecorded(snap: Snap, p: Path, q: Path) {
    Recorded(snap, p).Some? && Recorded(snap, q).Some? ==>
      Recorded(snap, p).value == ZERO || Recorded(snap, q).value == ZERO
  }

  lemma TwinsRecorded(snap: Snap, p: Path)
    requires OneRecorded(snap, RATIO, BYTES) && OneRecorded(snap, BG_RATIO, BG_BYTES) && Twin(p).Some?
    ensures OneRecorded(snap, p, Twin(p).value)
  {
  }

  lemma SnapshotIsSnapOf(live: Live, k: Knob)
    requires Consistent(live)
    ensures SnapOf(k, live.Keys, Snapshot(live, k))
  {
  }

  /** The files with every recorded value put back. */
  function Restored(live: Live, snap: Snap): Live {
    map p | p in live :: if Recorded(snap, p).Some? then Recorded(snap, p).value else live[p]
  }

  // ----- the registry

  ghost predicate KnobOk(k: Knob) {
    && (forall i, j | 0 <= i < j < |SnapPaths(k)| :: SnapPaths(k)[i] != SnapPaths(k)[j])
    && (RATIO in SnapPaths(k) <==> BYTES in SnapPaths(k))
    && (BG_RATIO in SnapPaths(k) <==> BG_BYTES in SnapPaths(k))
    && (forall i | 0 <= i < |k.targets| :: '.' !in k.targets[i].0)
  }

  /** Distinct knobs own distinct files, and both halves of a coupled pair. */
  ghost predicate RegistryOk(knobs: map<Name, Knob>) {
    && (forall n | n in knobs :: KnobOk(knobs[n]))
    && (forall m, n | m in knobs && n in knobs && m != n :: DisjointFiles(knobs[m], knobs[n]))
  }

  ghost predicate DisjointFiles(k: Knob, l: Knob) {
    forall p | p in SnapPaths(k) :: p !in SnapPaths(l)
  }

  /** The shipped dirty-page knob: byte limits proposed, the ratios snapshotted with them. */
  const DIRTY_KNOB := Knob(Measure, [(BYTES, "268435456"), (BG_BYTES, "67108864")], [RATIO, BG_RATIO], true)

  lemma DirtyKnobOk()
    ensures KnobOk(DIRTY_KNOB)
  {
    var k := DIRTY_KNOB;
    assert SnapPaths(k) == [RATIO, BG_RATIO, BYTES, BG_BYTES];
    LimitsDiffer();
    assert '.' !in BYTES && '.' !in BG_BYTES;
  }

  lemma LimitsDiffer()
    ensures RATIO != BYTES && BG_RATIO != BG_BYTES && |RATIO| == |BYTES| && |BG_RATIO| == |BG_BYTES| && |RATIO| < |BG_RATIO|
  {
    assert RATIO[|RATIO| - 1] == 'o' && BYTES[|BYTES| - 1] == 's';
    assert BG_RATIO[|BG_RATIO| - 1] == 'o' && BG_BYTES[|BG_BYTES| - 1] == 's';
  }

  lemma RecordedIn(k: Knob, keys: set<Path>, snap: Snap, p: Path)
    requires KnobOk(k) && SnapOf(k, keys, snap)
    ensures Recorded(snap, p).Some? <==> p in SnapPaths(k) && p in keys
    ensures forall i | 0 <= i < |snap| && snap[i].0 == p :: Recorded(snap, p) == snap[i].1
  {
    if p in SnapPaths(k) {
      var i :| 0 <= i < |snap| && SnapPaths(k)[i] == p;
      assert snap[i].0 == p;
    }
  }

  lemma SnapshotRecords(live: Live, k: Knob, p: Path)
    requires Consistent(live) && KnobOk(k) && p in SnapPaths(k) && p in live
    ensures Recorded(Snapshot(live, k), p) == Some(live[p])
  {
    SnapshotIsSnapOf(live, k);
    var i :| 0 <= i < |SnapPaths(k)| && SnapPaths(k)[i] == p;
    RecordedIn(k, live.Keys, Snapshot(live, k), p);
    assert Snapshot(live, k)[i] == (p, Some(live[p]));
  }

  /** Sequential writes, as Knob.apply performs them. */
  function Applied(live: Live, writes: seq<(Path, Value)>): (now: Live)
    ensures now.Keys == live.Keys
  {
    if |writes| == 0 then live
    else Written(Applied(live, writes[..|writes| - 1]), writes[|writes| - 1].0, writes[|writes| - 1].1)
  }

  /** `after` differs from `before` at most inside `paths`. */
  ghost predicate OnlyInside(before: Live, after: Live, paths: seq<Path>) {
    && after.Keys == before.Keys
    && forall p | p in before && p !in paths :: after[p] == before[p]
  }

  lemma WriteStaysInside(before: Live, live: Live, k: Knob, p: Path, v: Value)
    requires Consistent(live) && KnobOk(k) && OnlyInside(before, live, SnapPaths(k)) && p in SnapPaths(k)
    ensures OnlyInside(before, Written(live, p, v), SnapPaths(k)) && Consistent(Written(live, p, v))
  {
    WrittenFacts(live, p, v);
  }

  lemma {:induction false} AppliedInside(live: Live, k: Knob, n: nat)
    requires Consistent(live) && KnobOk(k) && n <= |k.targets|
    ensures OnlyInside(live, Applied(live, k.targets[..n]), SnapPaths(k)) && Consistent(Applied(live, k.targets[..n]))
  {
    if n > 0 {
      AppliedInside(live, k, n - 1);
      assert k.targets[..n][..n - 1] == k.targets[..n - 1];
      assert SnapPaths(k)[|k.extra| + n - 1] == k.targets[n - 1].0;
      WriteStaysInside(live, Applied(live, k.targets[..n - 1]), k, k.targets[n - 1].0, k.targets[n - 1].1);
    }
  }

  // ----- what an apply leaves in the files

  /** No target is the twin of another. */
  ghost predicate TwinsApart(k: Knob) {
    forall i | 0 <= i < |k.targets| :: NoTargetsTwin(k, k.targets[i].0)
  }

  ghost predicate NoTargetsTwin(k: Knob, p: Path) {
    forall j | 0 <= j < |k.targets| :: Twin(k.targets[j].0) != Some(p)
  }

  /** A proposed value stands in its file unless a target's twin is another target. */
  lemma {:induction false} ProposalStands(live: Live, k: Knob, n: nat, i: nat)
    requires KnobOk(k) && i < n <= |k.targets| && k.targets[i].0 in live && NoTargetsTwin(k, k.targets[i].0)
    ensures Applied(live, k.targets[..n])[k.targets[i].0] == k.targets[i].1
  {
    hide KnobOk, SnapPaths;
    AppliedOneMore(live, k, n - 1);
    if i < n - 1 {
      ProposalStands(live, k, n - 1, i);
      TargetsDiffer(k, i, n - 1);
    }
  }

  lemma AppliedOneMore(live: Live, k: Knob, n: nat)
    requires n < |k.targets|
    ensures Applied(live, k.targets[..n + 1]) == Written(Applied(live, k.targets[..n]), k.targets[n].0, k.targets[n].1)
  {
    assert k.targets[..n + 1][..n] == k.targets[..n];
  }

  lemma TargetsDiffer(k: Knob, i: nat, j: nat)
    requires KnobOk(k) && i < j < |k.targets|
    ensures k.targets[i].0 != k.targets[j].0
  {
    assert SnapPaths(k)[|k.extra| + i] == k.targets[i].0 && SnapPaths(k)[|k.extra| + j] == k.targets[j].0;
  }

  /** The file `p` is neither written nor zeroed by the first `n` writes. */
  ghost predicate LeftAlone(live: Live, k: Knob, n: nat, p: Path)
    requires n <= |k.targets|
  {
    forall i | 0 <= i < n :: k.targets[i].0 != p &&
      (Twin(k.targets[i].0) == Some(p) ==> k.targets[i].0 !in live || live[k.targets[i].0] == k.targets[i].1)
  }

  /** The `i`-th write changes its file, whose twin is `p`. */
  ghost predicate Zeroes(live: Live, k: Knob, i: nat, p: Path)
    requires i < |k.targets|
  {
    k.targets[i].0 in live && live[k.targets[i].0] != k.targets[i].1 && Twin(k.targets[i].0) == Some(p)
  }

  /** Every file after an apply: a target holds the value proposed for it, the twin of a target
      that changed holds zero, and any other file what it held. */
  lemma {:induction false} AppliedFileByFile(live: Live, k: Knob, n: nat, p: Path)
    requires KnobOk(k) && TwinsApart(k) && n <= |k.targets| && p in live
    ensures var now := Applied(live, k.targets[..n]);
      && (forall i | 0 <= i < n && k.targets[i].0 == p :: now[p] == k.targets[i].1)
      && (forall i | 0 <= i < n && Zeroes(live, k, i, p) :: now[p] == ZERO)
      && (LeftAlone(live, k, n, p) ==> now[p] == live[p])
  {
    hide KnobOk, SnapPaths, Applied;
    forall i | 0 <= i < n && k.targets[i].0 == p ensures Applied(live, k.targets[..n])[p] == k.targets[i].1 {
      ProposalStands(live, k, n, i);
    }
    if n == 0 {
      NothingApplied(live, k);
    } else {
      AppliedFileByFile(live, k, n - 1, p);
      AppliedOneMore(live, k, n - 1);
      if k.targets[n - 1].0 in live { UnwrittenStays(live, k, n - 1, n - 1); }
    }
  }

  /** A target's file holds what it held until it is written. */
  lemma {:induction false} UnwrittenStays(live: Live, k: Knob, m: nat, n: nat)
    requires KnobOk(k) && TwinsApart(k) && m <= n < |k.targets| && k.targets[n].0 in live
    ensures Applied(live, k.targets[..m])[k.targets[n].0] == live[k.targets[n].0]
  {
    hide KnobOk, SnapPaths, Applied;
    if m == 0 {
      NothingApplied(live, k);
    } else {
      UnwrittenStays(live, k, m - 1, n);
      AppliedOneMore(live, k, m - 1);
      TargetsDiffer(k, m - 1, n);
    }
  }

  lemma NothingApplied(live: Live, k: Knob)
    ensures Applied(live, k.targets[..0]) == live
  {
  }

  /** The shipped dirty-page knob applied: the byte limits are the ones in force, whatever held before. */
  lemma DirtyKnobApplied(live: Live)
    requires Consistent(live) && RATIO in live && BYTES in live && BG_RATIO in live && BG_BYTES in live
    ensures var now := Applied(live, DIRTY_KNOB.targets);
      now[BYTES] == "268435456" && now[RATIO] == ZERO && now[BG_BYTES] == "67108864" && now[BG_RATIO] == ZERO
  {
    hide KnobOk, Applied;
    var k := DIRTY_KNOB;
    DirtyKnobOk();
    LimitsDiffer();
    AppliedInside(live, k, 2);
    assert k.targets[..2] == k.targets && TwinsApart(k);
    AppliedFileByFile(live, k, 2, BYTES);
    AppliedFileByFile(live, k, 2, BG_BYTES);
    NotZero();
  }

  lemma NotZero()
    ensures "268435456" != ZERO && "67108864" != ZERO
  {
    assert |ZERO| == 1;
  }

  // ----- coupled restore

  /** The files after the first `n` recorded values were written back, in order. */
  function RestoredSoFar(live: Live, snap: Snap, n: nat): Live
    requires n <= |snap|
  {
    if n == 0 then live
    else if snap[n - 1].1.None? then RestoredSoFar(live, snap, n - 1)
    else Written(RestoredSoFar(live, snap, n - 1), snap[n - 1].0, snap[n - 1].1.value)
  }

  ghost predicate WrittenBack(live: Live, snap: Snap, n: nat)
    requires n <= |snap|
  {
    forall i | 0 <= i < n && snap[i].1.Some? :: snap[i].0 in live && live[snap[i].0] == snap[i].1.value
  }

  /** A later write zeroes an earlier one only when zero is what was recorded. */
  lemma RestoreStep(live: Live, k: Knob, snap: Snap, n: nat)
    requires Consistent(live) && KnobOk(k) && SnapOf(k, live.Keys, snap) && n < |snap| && snap[n].1.Some?
    requires WrittenBack(live, snap, n)
    ensures WrittenBack(Written(live, snap[n].0, snap[n].1.value), snap, n + 1)
  {
    var p, v := snap[n].0, snap[n].1.value;
    var now := Written(live, p, v);
    WrittenFacts(live, p, v);
    forall i | 0 <= i < n && snap[i].1.Some?
      ensures snap[i].0 in now && now[snap[i].0] == snap[i].1.value
    {
      if live[p] != v && Twin(p) == Some(snap[i].0) {
        RecordedIn(k, live.Keys, snap, p);
        RecordedIn(k, live.Keys, snap, snap[i].0);
        TwinsRecorded(snap, p);
        TwinsInForce(live, p);
      }
    }
  }

  ghost predicate Progress(start: Live, k: Knob, snap: Snap, n: nat)
    requires n <= |snap|
  {
    var now := RestoredSoFar(start, snap, n);
    Consistent(now) && OnlyInside(start, now, SnapPaths(k)) && WrittenBack(now, snap, n)
  }

  lemma RestoreStepInside(start: Live, k: Knob, snap: Snap, n: nat)
    requires KnobOk(k) && SnapOf(k, start.Keys, snap) && n < |snap| && Progress(start, k, snap, n)
    ensures Progress(start, k, snap, n + 1)
  {
    var live := RestoredSoFar(start, snap, n);
    if snap[n].1.Some? {
      assert snap[n].0 == SnapPaths(k)[n];
      WriteStaysInside(start, live, k, snap[n].0, snap[n].1.value);
      RestoreStep(live, k, snap, n);
    }
  }

  lemma {:induction false} RestoreProgress(start: Live, k: Knob, snap: Snap, n: nat)
    requires Consistent(start) && KnobOk(k) && SnapOf(k, start.Keys, snap) && n <= |snap|
    ensures Progress(start, k, snap, n)
  {
    if n > 0 {
      RestoreProgress(start, k, snap, n - 1);
      RestoreStepInside(start, k, snap, n - 1);
    }
  }

  /** Writing a snapshot back in the tuner's order yields exactly the snapshot, from every
      consistent state of the files, however far an apply or a restore had got. */
  lemma CoupledRestore(live: Live, k: Knob, snap: Snap)
    requires Consistent(live) && KnobOk(k) && SnapOf(k, live.Keys, snap)
    ensures RestoredSoFar(live, snap, |snap|) == Restored(live, snap)
    ensures Consistent(Restored(live, snap))
  {
    RestoreProgress(live, k, snap, |snap|);
    var now := RestoredSoFar(live, snap, |snap|);
    forall p | p in live
      ensures now[p] == Restored(live, snap)[p]
    {
      RecordedIn(k, live.Keys, snap, p);
      if p in SnapPaths(k) {
        var i :| 0 <= i < |snap| && SnapPaths(k)[i] == p;
        assert snap[i].0 == p;
      }
    }
    assert now.Keys == Restored(live, snap).Keys;
  }

  /** Why the ratios are snapshotted too: with the byte limits alone the ratio stays lost. */
  lemma RatioLostWithoutExtra()
    ensures var ratio, bytes := "/proc/sys/vm/dirty_ratio", "/proc/sys/vm/dirty_bytes";
            var live: Live := map[ratio := "40", bytes := ZERO];
            var k := Knob(Measure, [(bytes, "268435456")], [], true);
            && Consistent(live)
            && RestoredSoFar(Applied(live, k.targets), Snapshot(live, k), 1) == map[ratio := ZERO, bytes := ZERO]
  {
    var ratio, bytes := "/proc/sys/vm/dirty_ratio", "/proc/sys/vm/dirty_bytes";
    var live: Live := map[ratio := "40", bytes := ZERO];
    var k := Knob(Measure, [(bytes, "268435456")], [], true);
    assert ratio[|ratio| - 1] != bytes[|bytes| - 1];
    assert SnapPaths(k) == [bytes];
    assert Snapshot(live, k) == [(bytes, Some(ZERO))];
    assert k.targets[..0] == [];
    assert Applied(live, k.targets) == Written(live, bytes, "268435456") == map[ratio := ZERO, bytes := "268435456"];
    assert RestoredSoFar(Applied(live, k.targets), Snapshot(live, k), 0) == Applied(live, k.targets);
  }

  /** A snapshot taken before any writes inside its knob undoes all of them. */
  lemma RestoreUndoes(before: Live, after: Live, k: Knob)
    requires Consistent(before) && KnobOk(k) && OnlyInside(before, after, SnapPaths(k))
    ensures Restored(after, Snapshot(before, k)) == before
  {
    SnapshotIsSnapOf(before, k);
    forall p | p in before
      ensures Restored(after, Snapshot(before, k))[p] == before[p]
    {
      RecordedIn(k, before.Keys, Snapshot(before, k), p);
      if p in SnapPaths(k) { SnapshotRecords(before, k, p); }
    }
  }
}
