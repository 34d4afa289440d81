/**
  The pipeline as the program runs it: two state objects updated in place, one process
  after the other, each proved to do what module Pipeline says.
*/
module Wizard {
  import opened Prelude
  import opened Pipeline

  class PersistedState {
    var sourceDir: Option<string>
    var pkgver: string
    var built: Debs
    var packaged: Debs
    var completed: seq<Phase>
    var changedAt: nat

    constructor (s: Saved)
      ensures View() == s
    {
      sourceDir, pkgver, built, packaged := s.sourceDir, s.pkgver, s.built, s.packaged;
      completed, changedAt := s.completed, s.changedAt;
    }

    function View(): Saved
      reads this
    {
      Saved(sourceDir, pkgver, built, packaged, completed, changedAt)
    }

    method MarkComplete(p: Phase)
      modifies this
      ensures View() == MarkedComplete(old(View()), p)
      ensures p in completed && (forall q | q in completed :: q == p || q in old(completed)) && old(completed) <= completed
      ensures p in old(completed) ==> completed == old(completed)
    {
      if p !in completed { completed := completed + [p]; }
    }

    method InvalidateFrom(p: Phase)
      modifies this
      ensures View() == InvalidatedFrom(old(View()), p)
      ensures built.files == [] == packaged.files && pkgver == ""
      ensures forall q :: q in completed <==> q in old(completed) && Index(q) < Index(p)
    {
      var idx := Index(p);
      var kept: seq<Phase> := [];
      for i := 0 to |completed|
        invariant kept == Before(completed[..i], idx)
        invariant View() == old(View())
      {
        assert completed[..i + 1][..i] == completed[..i];
        if Index(completed[i]) < idx { kept := kept + [completed[i]]; }
      }
      assert completed[..|completed|] == completed;
      completed := kept;
      built, packaged, pkgver := NO_DEBS, NO_DEBS, "";
    }
  }

  class Ctx {
    var sourceDir: Option<string>
    var pkgver: string
    var built: Debs
    var packaged: Debs

    constructor ()
      ensures View() == EMPTY_CONTEXT
    {
      sourceDir, pkgver, built, packaged := None, "", NO_DEBS, NO_DEBS;
    }

    function View(): Context
      reads this
    {
      Context(sourceDir, pkgver, built, packaged)
    }

    /** Fills in from the saved state whatever is not set yet. */
    method Hydrate(state: PersistedState, exist: string -> bool)
      modifies this
      ensures View() == Hydrated(old(View()), state.View(), exist)
      ensures if old(built).files == [] then forall f :: f in built.files <==> f in state.built.files && exist(f)
              else built == old(built)
      ensures if old(packaged).files == [] then forall f :: f in packaged.files <==> f in state.packaged.files && exist(f)
              else packaged == old(packaged)
      ensures old(sourceDir).Some? ==> sourceDir == old(sourceDir)
      ensures old(pkgver) != "" ==> pkgver == old(pkgver)
    {
      if sourceDir.None? && state.sourceDir.Some? && exist(state.sourceDir.value) {
        sourceDir := state.sourceDir;
      }
      if pkgver == "" { pkgver := state.pkgver; }
      if built.files == [] { built := state.built.(files := Existing(state.built.files, exist)); }
      if packaged.files == [] { packaged := state.packaged.(files := Existing(state.packaged.files, exist)); }
    }

    method Snapshot(state: PersistedState)
      modifies state
      ensures state.View() == Snapshotted(View(), old(state.View()))
    {
      if sourceDir.Some? { state.sourceDir := sourceDir; }
      if pkgver != "" { state.pkgver := pkgver; }
      state.built, state.packaged := built, packaged;
    }
  }

  /** One process after another over the state file `disk`. */
  class Program {
    var ctx: Ctx
    var mem: PersistedState
    var disk: Saved
    var clock: nat
    var stopped: bool
    ghost var log: seq<Start>

    constructor ()
      ensures View() == World(EMPTY_CONTEXT, EMPTY_STATE, EMPTY_STATE, 0, false, []) && fresh(ctx) && fresh(mem)
    {
      ctx := new Ctx();
      mem := new PersistedState(EMPTY_STATE);
      disk, clock, stopped, log := EMPTY_STATE, 0, false, [];
    }

    ghost function View(): World
      reads this, ctx, mem
    {
      World(ctx.View(), mem.View(), disk, clock, stopped, log)
    }

    method RunPhase(p: Phase, e: Effect)
      modifies this`disk, this`clock, this`stopped, this`log, ctx, mem
      ensures View() == Step(old(View()), p, e)
    {
      hide Index, Existing, Retargeted, MarkedComplete, Snapshotted;
      clock := clock + 1;
      log := log + [Start(p, mem.completed, ctx.packaged, mem.changedAt)];
      if e.fails {
        stopped := true;
        return;
      }
      ghost var now, before := clock, mem.View();
      match p {
        case Source => RunSource(e);
        case Build => ctx.pkgver, ctx.built := e.pkgver, Debs(e.files, clock, 0);
        case Package =>
          ctx.packaged := Debs(Existing(ctx.built.files, f => f in e.files), ctx.built.builtAt, clock);
        case _ =>
      }
      OnlySourceRetargets(before, p, e, now);
      assert mem.View() == Retargeted(before, p, e, now);
      mem.MarkComplete(p);
      ctx.Snapshot(mem);
      disk := mem.View();
    }

    method RunSource(e: Effect)
      modifies ctx, mem
      ensures ctx.View() == Body(old(ctx.View()), Source, e, clock)
      ensures mem.View() == Retargeted(old(mem.View()), Source, e, clock)
    {
      var prior := mem.sourceDir;
      ctx.sourceDir := Some(e.dir);
      if prior != Some(e.dir) {
        if prior.Some? { mem.InvalidateFrom(Patch); }
        mem.changedAt := clock;
      }
    }

    method RunPhases(names: seq<Phase>, effects: seq<Effect>)
      requires |effects| == |names|
      modifies this`disk, this`clock, this`stopped, this`log, ctx, mem
      ensures View() == Run(old(View()), names, effects)
    {
      hide Step, ORDER;
      var i := 0;
      while i < |names| && !stopped
        invariant 0 <= i <= |names|
        invariant Run(View(), names[i..], effects[i..]) == Run(old(View()), names, effects)
      {
        assert names[i..][1..] == names[i + 1..] && effects[i..][1..] == effects[i + 1..];
        RunPhase(names[i], effects[i]);
        i := i + 1;
      }
    }

    /** A fresh process: load the state file, hydrate, resolve, run. */
    method Invoke(call: Invocation)
      requires Enough(View(), call)
      modifies this
      ensures fresh(ctx) && fresh(mem)
      ensures View() == Invoked(old(View()), call)
    {
      hide Run, ORDER;
      mem := new PersistedState(disk);
      ctx := new Ctx();
      ctx.Hydrate(mem, call.exist);
      stopped := false;
      var names: seq<Phase> := [];
      match call.request {
        case Full => names := ORDER;
        case Single(p) =>
          var deps := Deps(p);
          for i := 0 to |deps|
            invariant names == Missing(deps[..i], mem.completed)
          {
            assert deps[..i + 1][..i] == deps[..i];
            if deps[i] !in mem.completed { names := names + [deps[i]]; }
          }
          assert deps[..|deps|] == deps;
          names := names + [p];
      }
      RunPhases(names, call.effects);
    }
  }

  lemma OnlySourceRetargets(s: Saved, p: Phase, e: Effect, now: nat)
    ensures p != Source ==> Retargeted(s, p, e, now) == s
  {
  }
}
