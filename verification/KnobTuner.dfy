/**
  The tuner's commands as they run: one write after another, any of which may be refused
  by the kernel, and any gap between two of which may be where the machine stops.
*/
module KnobTuner {
  import opened Prelude
  import opened KnobModel
  import opened KnobSpec

  /** `Refused` is an OSError or RuntimeError the caller may catch; after `Stopped` nothing
      of the process is left but what it wrote. */
  datatype Outcome = Done | Refused | Stopped

  class Tuner {
    const knobs: Registry
    const adopt: seq<Name>
    /** On a calm machine the kernel refuses no write, no pass fails, nothing stops the process. */
    const calm: bool
    var live: Live
    var persisted: map<Name, Snap>
    var pending: map<Name, Snap>
    var dropins: Dropins
    /** What the files held during each benchmark pass that ran to its end. */
    ghost var benched: seq<Live>

    ghost function Saved(): Disk
      reads this
    {
      Disk(live, persisted, pending, dropins)
    }

    ghost predicate Valid()
      reads this
    {
      DiskOk(knobs, Saved()) && forall n | n in adopt :: n in knobs
    }

    constructor (knobs: Registry, adopt: seq<Name>, live: Live, calm: bool)
      requires RegistryOk(knobs) && Consistent(live) && forall n | n in adopt :: n in knobs
      ensures Valid() && Saved() == Disk(live, map[], map[], map[]) && this.knobs == knobs && this.adopt == adopt
      ensures this.calm == calm && benched == []
    {
      this.knobs, this.adopt, this.calm, benched := knobs, adopt, calm, [];
      this.live, persisted, pending, dropins := live, map[], map[], map[];
    }

    method WriteVal(p: Path, v: Value) returns (o: Outcome)
      modifies this`live
      ensures o.Done? ==> live == Written(old(live), p, v)
      ensures !o.Done? ==> live == old(live)
      ensures calm ==> o == if p in old(live) then Done else Refused
      ensures p !in old(live) ==> o != Done
    {
      if !calm { if * { return Stopped; } }
      if p !in live { return Refused; }
      if !calm { if * { return Refused; } }
      live := Written(live, p, v);
      return Done;
    }

    /** A benchmark pass touches none of the modelled files, but may fail or be killed. */
    method Bench() returns (o: Outcome)
      modifies this`benched
      ensures benched == if o.Done? then old(benched) + [live] else old(benched)
      ensures calm ==> o.Done?
    {
      if !calm { if * { return Refused; } else if * { return Stopped; } }
      benched := benched + [live];
      return Done;
    }

    predicate Available(n: Name)
      requires n in knobs
      reads this`live
    {
      knobs[n].targets != [] && AllThere(live, knobs[n])
    }

    method Apply(k: Knob) returns (o: Outcome)
      requires Consistent(live) && KnobOk(k)
      modifies this`live
      ensures o.Done? ==> live == Applied(old(live), k.targets)
      ensures o.Done? ==> ProposalsStand(live, k)
      ensures calm && AllThere(old(live), k) ==> o.Done?
      ensures Consistent(live) && OnlyInside(old(live), live, SnapPaths(k))
    {
      hide KnobOk, Consistent, OnlyInside, SnapPaths, ProposalsStand, Applied;
      assert k.targets[..0] == [];
      AppliedInside(live, k, 0);
      NothingApplied(live, k);
      for i := 0 to |k.targets|
        invariant live == Applied(old(live), k.targets[..i]) && live.Keys == old(live).Keys
        invariant forall j | 0 <= j < i :: k.targets[j].0 in old(live)
        invariant Consistent(live) && OnlyInside(old(live), live, SnapPaths(k))
      {
        o := WriteVal(k.targets[i].0, k.targets[i].1);
        if o != Done { return; }
        AppliedOneMore(old(live), k, i);
        AppliedInside(old(live), k, i + 1);
      }
      assert k.targets[..|k.targets|] == k.targets;
      AllStand(old(live), k);
      return Done;
    }

    method Restore(k: Knob, snap: Snap) returns (o: Outcome)
      requires Consistent(live) && KnobOk(k) && SnapOf(k, live.Keys, snap)
      modifies this`live
      ensures o.Done? ==> live == Restored(old(live), snap)
      ensures calm ==> o.Done?
      ensures Consistent(live) && OnlyInside(old(live), live, SnapPaths(k))
    {
      hide KnobOk, SnapOf, Consistent, OnlyInside, SnapPaths, WrittenBack;
      RestoreProgress(live, k, snap, 0);
      for i := 0 to |snap|
        invariant live == RestoredSoFar(old(live), snap, i) && live.Keys == old(live).Keys
        invariant Consistent(live) && OnlyInside(old(live), live, SnapPaths(k))
      {
        if snap[i].1.Some? {
          RecordedIsThere(k, live.Keys, snap, i);
          o := WriteVal(snap[i].0, snap[i].1.value);
          if o != Done { return; }
        }
        RestoreProgress(old(live), k, snap, i + 1);
      }
      CoupledRestore(old(live), k, snap);
      return Done;
    }

    /** save_state replaces the state file in one step. */
    method SaveState(persisted: map<Name, Snap>, pending: map<Name, Snap>) returns (o: Outcome)
      modifies this`persisted, this`pending
      ensures o.Done? ==> this.persisted == persisted && this.pending == pending
      ensures !o.Done? ==> this.persisted == old(this.persisted) && this.pending == old(this.pending)
      ensures o != Refused && (calm ==> o.Done?)
    {
      if !calm { if * { return Stopped; } }
      this.persisted, this.pending := persisted, pending;
      return Done;
    }

    /** One knob of an A/B: bench, apply, bench, restore, bench. What is compared is one pass with
        the knob's proposal in the files between two with the files as they were. */
    method TestKnob(n: Name) returns (o: Outcome)
      requires n in knobs && KnobOk(knobs[n]) && Consistent(live)
      modifies this`live, this`pending, this`persisted, this`benched
      ensures calm && AllThere(old(live), knobs[n]) ==> o.Done? && benched == old(benched) + Passes(old(live), knobs[n])
      ensures Ran(old(benched), benched, Allowed(knobs, old(live), {n}))
      ensures o != Refused && persisted == old(persisted)
      ensures o.Done? ==> Saved() == old(Saved()).(pending := old(pending) - {n})
      ensures o.Stopped? ==> Saved() == old(Saved()) || MidTest(knobs, old(Saved()), n, Saved())
    {
      ghost var ran;
      o, ran := TestSteps(n);
      SomePasses(old(benched), benched, knobs, old(live), n, ran);
    }

    method TestSteps(n: Name) returns (o: Outcome, ghost ran: nat)
      requires n in knobs && KnobOk(knobs[n]) && Consistent(live)
      modifies this`live, this`pending, this`persisted, this`benched
      ensures calm && AllThere(old(live), knobs[n]) ==> o.Done? && ran == 3
      ensures ran <= 3 && benched == old(benched) + Passes(old(live), knobs[n])[..ran]
      ensures o != Refused && persisted == old(persisted)
      ensures o.Done? ==> Saved() == old(Saved()).(pending := old(pending) - {n})
      ensures o.Stopped? ==> Saved() == old(Saved()) || MidTest(knobs, old(Saved()), n, Saved())
    {
      hide KnobOk, SnapOf, Consistent, Snapshot, SnapPaths, AllThere, Applied, OnlyInside, Passes;
      FirstPasses(live, knobs[n]);
      var snap := Snapshot(live, knobs[n]);
      SnapshotIsSnapOf(live, knobs[n]);
      NothingOutside(live, SnapPaths(knobs[n]));
      ran := 0;
      o := SaveState(persisted, pending[n := snap]);
      if o != Done { return; }
      var bench := Bench();
      if bench != Done { return Stopped, 0; }
      var failed;
      failed, ran := ApplyAndRestore(knobs[n], snap);
      if failed == Stopped { return Stopped, ran; }
      if failed == Done {
        bench := Bench();
        if bench != Done { return Stopped, ran; }
        ran := 3;
      }
      o := SaveState(persisted, pending - {n});
      assert old(pending)[n := snap] - {n} == old(pending) - {n};
    }

    /** A killed process restores nothing; a refused or interrupted one still restores. */
    method ApplyAndRestore(k: Knob, snap: Snap) returns (failed: Outcome, ghost ran: nat)
      requires KnobOk(k) && Consistent(live) && SnapOf(k, live.Keys, snap) && snap == Snapshot(live, k)
      modifies this`live, this`benched
      ensures failed != Stopped ==> live == old(live)
      ensures 1 <= ran <= 2 && benched == old(benched) + if ran == 2 then [Applied(old(live), k.targets)] else []
      ensures failed.Done? ==> ran == 2
      ensures calm && AllThere(old(live), k) ==> failed.Done?
      ensures Consistent(live) && OnlyInside(old(live), live, SnapPaths(k))
    {
      hide KnobOk, SnapOf, Consistent, Snapshot, SnapPaths, Applied, AllThere, ProposalsStand;
      ran := 1;
      failed := Apply(k);
      if failed == Done {
        failed := Bench();
        if failed == Done { ran := 2; }
      }
      if failed == Stopped { if * { return; } }
      RestoreUndoes(old(live), live, k);
      var back := Restore(k, snap);
      if back != Done { failed := Stopped; }
    }

    /** Whatever stops an A/B over any list of knobs, wherever it stops, `revert all` then
        ends where it would have ended without the A/B; a finished A/B leaves live files
        and kept knobs as they were and its knobs not pending. */
    method Ab(names: seq<Name>) returns (o: Outcome, ghost tested: set<Name>)
      requires Valid()
      modifies this
      ensures Valid()
      ensures persisted == old(persisted) && dropins == old(dropins)
      ensures (exists n | n in names :: n !in knobs || knobs[n].verdict != Measure) ==>
                o == Refused && Saved() == old(Saved())
      ensures o.Done? ==> live == old(live) && pending == old(pending) - tested
      ensures o.Done? ==> tested == set n | n in names && old(Available(n))
      ensures (forall n | n in names :: SafeToTest(knobs, old(Saved()), n)) ==>
                RevertAll(knobs, Saved()) == RevertAll(knobs, old(Saved()))
      ensures MidAb(knobs, old(Saved()), (set n | n in names), Saved())
      ensures Ran(old(benched), benched, Allowed(knobs, old(live), set n | n in names))
      ensures calm && (forall n | n in names :: n in knobs && knobs[n].verdict == Measure) ==>
                o.Done? && benched == old(benched) + AllPasses(knobs, old(live), names)
    {
      hide DiskOk, SafeToTest, MidTest, MidAb, RevertAll, Ran, Allowed, AllPasses;
      ghost var d := Saved();
      ghost var all := set n | n in names;
      if exists n | n in names :: n !in knobs || knobs[n].verdict != Measure {
        PoppedNone(d);
        NothingRan(benched, Allowed(knobs, live, all));
        RefusedAb(knobs, d, all);
        return Refused, {};
      }
      RegistryInDisk(knobs, d);
      ConsistentInDisk(knobs, d);
      o, tested := TestAll(names);
      AbLeaves(knobs, d, tested, all, Saved());
    }

    /** The knobs one after the other, up to the one whose test is stopped. */
    method TestAll(names: seq<Name>) returns (o: Outcome, ghost tested: set<Name>)
      requires RegistryOk(knobs) && Consistent(live) && forall n | n in names :: n in knobs
      modifies this
      ensures o != Refused && tested <= (set n | n in names) && persisted == old(persisted) && dropins == old(dropins)
      ensures Saved() == Popped(old(Saved()), tested) ||
                (o.Stopped? && exists n | n in names :: MidTest(knobs, Popped(old(Saved()), tested), n, Saved()))
      ensures o.Done? ==> tested == set n | n in names && AllThere(old(live), knobs[n]) && knobs[n].targets != []
      ensures Ran(old(benched), benched, Allowed(knobs, old(live), set n | n in names))
      ensures calm ==> o.Done? && benched == old(benched) + AllPasses(knobs, old(live), names)
    {
      hide MidTest, Ran, Allowed, Passes, AllPasses, AllThere, KnobOk, Consistent;
      ghost var d := Saved();
      ghost var all := set n | n in names;
      tested := {};
      NothingRan(benched, Allowed(knobs, live, all));
      NoPasses(knobs, live);
      PoppedNone(d);
      assert names[..0] == [];
      for i := 0 to |names|
        invariant tested == set n | n in names[..i] && AllThere(d.live, knobs[n]) && knobs[n].targets != []
        invariant Saved() == Popped(d, tested)
        invariant Ran(old(benched), benched, Allowed(knobs, d.live, all))
        invariant calm ==> benched == old(benched) + AllPasses(knobs, d.live, names[..i])
      {
        var n := names[i];
        assert n in names;
        assert names[..i + 1] == names[..i] + [n];
        ghost var before := benched;
        OneMorePasses(knobs, d.live, names, i);
        if Available(n) {
          o := TestKnob(n);
          RanMore(old(benched), before, benched, knobs, d.live, n, all);
          if o != Done { return; }
          PoppedOneMore(d, tested, n);
          tested := tested + {n};
        }
      }
      assert names[..|names|] == names;
      return Done, tested;
    }

    /** Re-renders the drop-ins; the order in which the kept knobs are visited is left open. */
    method RegenerateDropins() returns (o: Outcome)
      requires RegistryOk(knobs)
      modifies this`dropins
      ensures o.Done? ==> dropins == Rendered(knobs, persisted.Keys)
      ensures o != Refused && (calm ==> o.Done?)
    {
      hide DiskOk, RegistryOk, Renders, LinesOf;
      var todo, rendered := persisted.Keys, map[];
      ghost var seen: set<Name> := {};
      NothingKeptRendersEmpty(knobs);
      while todo != {}
        invariant todo + seen == persisted.Keys && todo !! seen
        invariant Renders(knobs, seen, rendered)
        decreases |todo|
      {
        var n :| n in todo;
        WithKnobRenders(knobs, seen, rendered, n);
        rendered := AddLines(rendered, LinesOf(knobs, n));
        todo, seen := todo - {n}, seen + {n};
      }
      assert seen == persisted.Keys;
      RendersUnique(knobs, persisted.Keys, rendered, Rendered(knobs, persisted.Keys));
      // stopped between two of the three files, the drop-ins are anything
      if !calm { if * { dropins := *; return Stopped; } }
      dropins := rendered;
      return Done;
    }

    /** One kept knob's lines, written over whatever is there. */
    method AddLines(before: Dropins, lines: seq<(Line, Value)>) returns (rendered: Dropins)
      ensures rendered == WithLines(before, lines)
    {
      rendered := before;
      for i := 0 to |lines|
        invariant rendered == WithLines(before, lines[..i])
      {
        assert lines[..i + 1][..i] == lines[..i];
        rendered := rendered[lines[i].0 := lines[i].1];
      }
      assert lines[..|lines|] == lines;
    }

    method KeepKnob(n: Name) returns (o: Outcome)
      requires Valid()
      modifies this
      ensures o.Done? ==> n in knobs && Saved() == Keep(knobs, old(Saved()), n)
      ensures o.Done? ==> ProposalsStand(live, knobs[n])
      ensures calm && n in knobs && knobs[n].persistable && AllThere(old(live), knobs[n]) ==> o.Done?
      ensures Valid() && (!o.Done? && n in knobs ==> MidKeep(knobs, old(Saved()), n, Saved()))
      ensures n !in knobs || !knobs[n].persistable ==> o == Refused && Saved() == old(Saved())
    {
      if n !in knobs || !knobs[n].persistable { return Refused; }
      o := Persist(n);
    }

    method Persist(n: Name) returns (o: Outcome)
      requires DiskOk(knobs, Saved()) && n in knobs
      modifies this
      ensures DiskOk(knobs, Saved())
      ensures o.Done? ==> Saved() == Keep(knobs, old(Saved()), n)
      ensures !o.Done? ==> MidKeep(knobs, old(Saved()), n, Saved())
      ensures o.Done? ==> ProposalsStand(live, knobs[n])
      ensures calm && AllThere(old(live), knobs[n]) ==> o.Done?
    {
      hide DiskOk, MidKeep, ProposalsStand, AllThere;
      ghost var d := Saved();
      KeepOk(knobs, d, n);
      RegistryInDisk(knobs, d);
      o := KeepSteps(n);
      if o != Done { MidKeepOk(knobs, d, n, Saved()); }
    }

    method KeepSteps(n: Name) returns (o: Outcome)
      requires DiskOk(knobs, Saved()) && n in knobs
      modifies this
      ensures o.Done? ==> Saved() == Keep(knobs, old(Saved()), n)
      ensures !o.Done? ==> MidKeep(knobs, old(Saved()), n, Saved())
      ensures o.Done? ==> ProposalsStand(live, knobs[n])
      ensures calm && AllThere(old(live), knobs[n]) ==> o.Done?
    {
      hide ProposalsStand, AllThere;
      hide DiskOk, SnapOf, KnobOk, Consistent, Snapshot, SnapPaths, OnlyInside;
      ghost var d := Saved();
      KnobInRegistry(knobs, d, n);
      var snap := Snapshot(live, knobs[n]);
      o := Apply(knobs[n]);
      if o != Done { return; }
      o := SaveState(persisted[n := snap], pending);
      if o != Done { return; }
      RegistryInDisk(knobs, d);
      o := RegenerateDropins();
    }

    /** `apply` keeps the adopted knobs one after the other. */
    method ApplyAdopted() returns (o: Outcome)
      requires Valid()
      modifies this
      ensures Valid()
      ensures o.Done? ==> Saved() == RunMany(knobs, old(Saved()), KeepEach(adopt))
      ensures !o.Done? ==> exists i | 0 <= i < |adopt| ::
                MidKeep(knobs, RunMany(knobs, old(Saved()), KeepEach(adopt[..i])), adopt[i], Saved())
      ensures calm && (forall n | n in adopt :: AllThere(old(live), knobs[n])) ==> o.Done?
    {
      hide DiskOk, Keep, MidKeep;
      ghost var d := Saved();
      RegistryInDisk(knobs, d);
      assert adopt[..0] == [] && KeepEach([]) == [];
      for i := 0 to |adopt|
        invariant DiskOk(knobs, Saved()) && Saved() == RunMany(knobs, d, KeepEach(adopt[..i]))
        invariant live.Keys == d.live.Keys
      {
        assert KeepEach(adopt[..i + 1]) == KeepEach(adopt[..i]) + [DoKeep(adopt[i])];
        RunManyOneMore(knobs, d, KeepEach(adopt[..i]), DoKeep(adopt[i]));
        assert adopt[i] in adopt;
        ghost var now := Saved();
        KeepKeys(knobs, now, adopt[i]);
        o := Persist(adopt[i]);
        if o != Done {
          assert MidKeep(knobs, RunMany(knobs, d, KeepEach(adopt[..i])), adopt[i], Saved());
          return;
        }
      }
      assert adopt[..|adopt|] == adopt;
      return Done;
    }

    /** `revert <name>` or, with every recorded name, `revert all`.  Stopped half-way through
        the files it can simply be run again. */
    method RevertNames(names: set<Name>) returns (o: Outcome)
      requires Valid()
      modifies this
      ensures Valid() && (o.Done? ==> Saved() == Revert(knobs, old(Saved()), names))
      ensures !o.Done? ==> MidRevert(knobs, old(Saved()), names, Saved())
      ensures calm ==> o.Done?
    {
      hide DiskOk, RevertedLive, Rendered, Consistent, HalfReverted;
      ghost var d := Saved();
      RegistryInDisk(knobs, d);
      RevertOk(knobs, d, names);
      RestoredEntriesHalf(knobs, d, names);
      o := RestoreEntries(names);
      if o == Done {
        o := SaveState(persisted - names, pending - names);
        if o == Done { o := RegenerateDropins(); }
      }
      if o != Done { MidRevertOk(knobs, d, names, Saved()); }
    }

    /** Restores every recorded entry among `names`, in any order. */
    method RestoreEntries(names: set<Name>) returns (o: Outcome)
      requires DiskOk(knobs, Saved())
      modifies this`live
      ensures o.Done? ==> live == RevertedLive(knobs, old(Saved()), names)
      ensures !o.Done? ==> HalfReverted(knobs, old(Saved()), Saved())
      ensures calm ==> o.Done?
    {
      hide DiskOk, RevertedLive, HalfReverted, Consistent, KnobOk, SnapOf, SnapPaths, Restored, RegistryOk;
      ghost var d := Saved();
      var todo := names;
      ghost var seen: set<Name> := {};
      NothingReverted(knobs, d);
      RevertedConsistent(knobs, d, {});
      while todo != {}
        invariant todo + seen == names && todo !! seen
        invariant live == RevertedLive(knobs, d, seen) && Consistent(live) && live.Keys == d.live.Keys
        invariant Saved() == d.(live := live)
        decreases |todo|
      {
        var n :| n in todo;
        RestoreNext(knobs, d, seen, n);
        if n in knobs && (n in persisted || n in pending) {
          var snap := if n in persisted then persisted[n] else pending[n];
          o := Restore(knobs[n], snap);
          if o != Done {
            StoppedInside(knobs, d, seen, n, Saved());
            return;
          }
        }
        todo, seen := todo - {n}, seen + {n};
      }
      assert seen == names;
      return Done;
    }
  }

  lemma KeepKeys(knobs: Registry, d: Disk, n: Name)
    requires RegistryOk(knobs) && n in knobs
    ensures Keep(knobs, d, n).live.Keys == d.live.Keys
  {
  }

  predicate AllThere(live: Live, k: Knob) {
    forall i | 0 <= i < |k.targets| :: k.targets[i].0 in live
  }

  /** Every file of `k` is there and holds what `k` proposes for it; for a target that is the
      twin of another, only the former. */
  ghost predicate ProposalsStand(live: Live, k: Knob) {
    forall i | 0 <= i < |k.targets| ::
      k.targets[i].0 in live && (NoTargetsTwin(k, k.targets[i].0) ==> live[k.targets[i].0] == k.targets[i].1)
  }

  lemma AllStand(live: Live, k: Knob)
    requires KnobOk(k) && AllThere(live, k)
    ensures ProposalsStand(Applied(live, k.targets), k)
  {
    assert k.targets[..|k.targets|] == k.targets;
    forall i | 0 <= i < |k.targets| && NoTargetsTwin(k, k.targets[i].0)
      ensures Applied(live, k.targets)[k.targets[i].0] == k.targets[i].1 {
      ProposalStands(live, k, |k.targets|, i);
    }
  }

  lemma RecordedIsThere(k: Knob, keys: set<Path>, snap: Snap, i: nat)
    requires SnapOf(k, keys, snap) && i < |snap| && snap[i].1.Some?
    ensures snap[i].0 in keys
  {
  }

  /** What one knob's test compares: the files as they are, with the proposal, and as they were. */
  function Passes(live: Live, k: Knob): seq<Live> {
    [live, Applied(live, k.targets), live]
  }

  lemma FirstPasses(live: Live, k: Knob)
    ensures var all, with := Passes(live, k), Applied(live, k.targets);
            all[..0] == [] && all[..1] == [live] && all[..2] == [live] + [with] && all[..3] == [live] + [with] + [live]
  {
  }

  /** What any pass of an A/B over `names` may find: the files as they are, or one proposal in them. */
  ghost function Allowed(knobs: Registry, live: Live, names: set<Name>): set<Live> {
    {live} + set n | n in names && n in knobs :: Applied(live, knobs[n].targets)
  }

  ghost predicate Ran(before: seq<Live>, after: seq<Live>, found: set<Live>) {
    before <= after && forall b | b in after[|before|..] :: b in found
  }

  lemma SomePasses(before: seq<Live>, after: seq<Live>, knobs: Registry, live: Live, n: Name, ran: nat)
    requires n in knobs && ran <= 3 && after == before + Passes(live, knobs[n])[..ran]
    ensures Ran(before, after, Allowed(knobs, live, {n}))
    ensures ran == 3 ==> after == before + Passes(live, knobs[n])
  {
    hide Applied;
    assert Passes(live, knobs[n])[..3] == Passes(live, knobs[n]);
    forall b | b in after[|before|..] ensures b in Allowed(knobs, live, {n}) {
      assert b in Passes(live, knobs[n]);
      assert n in {n};
    }
  }

  lemma NothingOutside(live: Live, paths: seq<Path>)
    ensures OnlyInside(live, live, paths)
  {
  }

  lemma NothingRan(before: seq<Live>, found: set<Live>)
    ensures Ran(before, before, found)
  {
  }

  lemma RanMore(a: seq<Live>, b: seq<Live>, c: seq<Live>, knobs: Registry, live: Live, n: Name, names: set<Name>)
    requires n in names && Ran(a, b, Allowed(knobs, live, names)) && Ran(b, c, Allowed(knobs, live, {n}))
    ensures Ran(a, c, Allowed(knobs, live, names))
  {
    assert c[|a|..] == b[|a|..] + c[|b|..];
    assert Allowed(knobs, live, {n}) <= Allowed(knobs, live, names);
  }

  /** The passes of an A/B over `names`; a knob with a file missing is skipped. */
  function AllPasses(knobs: Registry, live: Live, names: seq<Name>): seq<Live>
    requires forall n | n in names :: n in knobs
  {
    if |names| == 0 then []
    else
      var k := knobs[names[|names| - 1]];
      AllPasses(knobs, live, names[..|names| - 1]) + if k.targets != [] && AllThere(live, k) then Passes(live, k) else []
  }

  lemma NoPasses(knobs: Registry, live: Live)
    ensures AllPasses(knobs, live, []) == []
  {
  }

  lemma OneMorePasses(knobs: Registry, live: Live, names: seq<Name>, i: nat)
    requires i < |names| && forall n | n in names :: n in knobs
    ensures var k := knobs[names[i]];
            AllPasses(knobs, live, names[..i + 1]) ==
              AllPasses(knobs, live, names[..i]) + if k.targets != [] && AllThere(live, k) then Passes(live, k) else []
  {
    assert names[..i + 1][..i] == names[..i];
  }

  lemma NothingKeptRendersEmpty(knobs: Registry)
    ensures Renders(knobs, {}, map[])
  {
  }

  lemma RegistryInDisk(knobs: Registry, d: Disk)
    requires DiskOk(knobs, d)
    ensures RegistryOk(knobs)
  {
  }

  lemma RefusedAb(knobs: Registry, d: Disk, names: set<Name>)
    ensures MidAb(knobs, d, names, d)
  {
    PoppedNone(d);
    assert {} <= names;
  }

  /** Where an A/B may end, its knobs all known: what is left is still restorable, and from a safe
      start still leads back where the start led. */
  lemma AbLeaves(knobs: Registry, d: Disk, tested: set<Name>, names: set<Name>, e: Disk)
    requires DiskOk(knobs, d) && tested <= names && forall n | n in names :: n in knobs
    requires e == Popped(d, tested) || exists n | n in names :: MidTest(knobs, Popped(d, tested), n, e)
    ensures DiskOk(knobs, e) && MidAb(knobs, d, names, e)
    ensures (forall n | n in names :: SafeToTest(knobs, d, n)) ==> RevertAll(knobs, e) == RevertAll(knobs, d)
  {
    hide DiskOk, SafeToTest, MidTest, RevertAll, Popped;
    WithoutTested(knobs, d, tested, names);
    if e != Popped(d, tested) {
      var n :| n in names && MidTest(knobs, Popped(d, tested), n, e);
      StoppedTesting(knobs, d, tested, names, n, e);
    }
  }

  lemma ConsistentInDisk(knobs: Registry, d: Disk)
    requires DiskOk(knobs, d)
    ensures Consistent(d.live)
  {
  }

  lemma NothingReverted(knobs: Registry, d: Disk)
    ensures RevertedLive(knobs, d, {}) == d.live
  {
  }

  lemma EntryOk(knobs: Registry, d: Disk, n: Name)
    requires DiskOk(knobs, d) && n in knobs && Entry(d, n).Some?
    ensures KnobOk(knobs[n]) && SnapOf(knobs[n], d.live.Keys, Entry(d, n).value)
  {
  }

  lemma RestoreNext(knobs: Registry, d: Disk, seen: set<Name>, n: Name)
    requires DiskOk(knobs, d) && n !in seen
    ensures var live := RevertedLive(knobs, d, seen + {n});
            && Consistent(live) && live.Keys == d.live.Keys
            && if n in knobs && Entry(d, n).Some?
               then KnobOk(knobs[n]) && SnapOf(knobs[n], d.live.Keys, Entry(d, n).value)
                    && live == Restored(RevertedLive(knobs, d, seen), Entry(d, n).value)
               else live == RevertedLive(knobs, d, seen)
  {
    hide DiskOk, RevertedLive, Consistent, KnobOk, SnapOf, Restored;
    RevertOneMore(knobs, d, seen, n);
    RevertedConsistent(knobs, d, seen + {n});
    if n in knobs && Entry(d, n).Some? { EntryOk(knobs, d, n); }
  }

  lemma StoppedInside(knobs: Registry, d: Disk, seen: set<Name>, n: Name, e: Disk)
    requires DiskOk(knobs, d) && n in knobs && Entry(d, n).Some?
    requires e == d.(live := e.live) && Consistent(e.live)
    requires OnlyInside(RevertedLive(knobs, d, seen), e.live, SnapPaths(knobs[n]))
    ensures HalfReverted(knobs, d, e)
  {
    hide DiskOk, RegistryOk, SnapPaths, Recorded;
    forall p | p in d.live && e.live[p] != d.live[p]
      ensures exists m :: Reverts(knobs, d, m, p)
    {
      if p in SnapPaths(knobs[n]) { RevertsOwnFiles(knobs, d, n, p); }
    }
  }

  lemma RestoredEntriesHalf(knobs: Registry, d: Disk, names: set<Name>)
    requires DiskOk(knobs, d)
    ensures HalfReverted(knobs, d, d.(live := RevertedLive(knobs, d, names)))
  {
    RevertedConsistent(knobs, d, names);
  }

  lemma MidRevertOk(knobs: Registry, d: Disk, names: set<Name>, e: Disk)
    requires DiskOk(knobs, d) && MidRevert(knobs, d, names, e)
    ensures DiskOk(knobs, e)
  {
    RevertOk(knobs, d, names);
    if HalfReverted(knobs, d, e) { StoppedRevertReverts(knobs, d, e); }
  }

  lemma PoppedNone(d: Disk)
    ensures Popped(d, {}) == d
  {
  }

  lemma PoppedOneMore(d: Disk, tested: set<Name>, n: Name)
    ensures Popped(Popped(d, tested), {n}) == Popped(d, tested + {n})
  {
  }

  lemma KnobInRegistry(knobs: Registry, d: Disk, n: Name)
    requires DiskOk(knobs, d) && n in knobs
    ensures KnobOk(knobs[n]) && Consistent(d.live)
  {
  }

  /** Finished tests of safe knobs leave `revert all` with the same work to do. */
  lemma {:induction false} WithoutTested(knobs: Registry, d: Disk, tested: set<Name>, names: set<Name>)
    requires DiskOk(knobs, d) && tested <= names
    requires forall n | n in names :: n in knobs
    ensures DiskOk(knobs, Popped(d, tested))
    ensures (forall n | n in names :: SafeToTest(knobs, d, n)) ==>
              RevertAll(knobs, Popped(d, tested)) == RevertAll(knobs, d)
    decreases tested
  {
    hide RevertAll, SnapOf, RegistryOk, Consistent;
    if tested == {} {
      assert Popped(d, tested) == d;
    } else {
      var n :| n in tested;
      WithoutTested(knobs, d, tested - {n}, names);
      PoppedOneMore(d, tested - {n}, n);
      assert tested - {n} + {n} == tested;
      if forall m | m in names :: SafeToTest(knobs, d, m) {
        assert SafeToTest(knobs, d, n);
        PoppedReverts(knobs, Popped(d, tested - {n}), n);
      }
    }
  }

  lemma StoppedTesting(knobs: Registry, d: Disk, tested: set<Name>, names: set<Name>, n: Name, e: Disk)
    requires DiskOk(knobs, d) && n in names && tested <= names
    requires forall m | m in names :: m in knobs
    requires MidTest(knobs, Popped(d, tested), n, e)
    ensures DiskOk(knobs, e)
    ensures (forall m | m in names :: SafeToTest(knobs, d, m)) ==> RevertAll(knobs, e) == RevertAll(knobs, d)
  {
    hide RevertAll, SnapOf, RegistryOk, Consistent, MidTest, DiskOk;
    WithoutTested(knobs, d, tested, names);
    MidTestOk(knobs, Popped(d, tested), n, e);
    if forall m | m in names :: SafeToTest(knobs, d, m) {
      assert SafeToTest(knobs, d, n);
      CrashedTestReverts(knobs, Popped(d, tested), n, e);
    }
  }

  function KeepEach(names: seq<Name>): seq<Command> {
    seq(|names|, i requires 0 <= i < |names| => DoKeep(names[i]))
  }

  lemma {:induction false} RunManyOneMore(knobs: Registry, d: Disk, cs: seq<Command>, c: Command)
    requires RegistryOk(knobs)
    ensures RunMany(knobs, d, cs + [c]) == RunOne(knobs, RunMany(knobs, d, cs), c)
    decreases |cs|
  {
    if |cs| == 0 {
      assert cs + [c] == [c];
      assert [c][1..] == [];
      assert RunMany(knobs, RunOne(knobs, d, c), []) == RunOne(knobs, d, c);
    } else {
      assert (cs + [c])[1..] == cs[1..] + [c];
      RunManyOneMore(knobs, RunOne(knobs, d, cs[0]), cs[1..], c);
    }
  }
}
