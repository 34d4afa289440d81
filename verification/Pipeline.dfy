/**
  The phase pipeline (hyphaed/cli.py, hyphaed/state.py, hyphaed/phases/source.py): a
  dependency resolver over phases recorded as completed, a saved state that outlives the
  process, and the invalidation when the source phase lands on another tree.

  What a phase body does is a parameter (`Effect`).  Every package list carries the times
  of the build and package runs it came from; the clock never goes back.
*/
module Pipeline {
  import opened Prelude

  datatype Phase =
    | Detect | Source | Patch | Configure | Security | Build | Package
    | Install | PostInstall | Nvidia | Desktop | Proton

  const ORDER: seq<Phase> :=
    [Detect, Source, Patch, Configure, Security, Build, Package, Install, PostInstall, Nvidia, Desktop, Proton]

  function Index(p: Phase): (i: nat)
    ensures i < |ORDER| && ORDER[i] == p
  {
    match p
    case Detect => 0
    case Source => 1
    case Patch => 2
    case Configure => 3
    case Security => 4
    case Build => 5
    case Package => 6
    case Install => 7
    case PostInstall => 8
    case Nvidia => 9
    case Desktop => 10
    case Proton => 11
  }

  /** Transitive prerequisites, in running order. */
  function Deps(p: Phase): seq<Phase> {
    match p
    case Detect => []
    case Source => [Detect]
    case Patch => [Detect, Source]
    case Configure => [Detect, Source, Patch]
    case Security => [Detect, Source, Patch, Configure]
    case Build => [Detect, Source, Patch, Configure, Security]
    case Package => [Detect, Source, Patch, Configure, Security, Build]
    case Install => [Detect, Source, Patch, Configure, Security, Build, Package]
    case PostInstall => [Detect, Source, Patch, Configure, Security, Build, Package, Install]
    case Nvidia => [Detect, Source, Patch, Configure, Security, Build, Package, Install]
    case Desktop => [Detect, Source, Patch, Configure, Security, Build, Package, Install]
    case Proton => [Detect]
  }

  // ----- the two state objects

  /** A package list with the times of the build run and the package run behind it. */
  datatype Debs = Debs(files: seq<string>, builtAt: nat, packagedAt: nat)

  const NO_DEBS := Debs([], 0, 0)

  /** PersistedState; `changedAt` is when its source_dir last became what it is. */
  datatype Saved = Saved(sourceDir: Option<string>, pkgver: string, built: Debs, packaged: Debs,
                         completed: seq<Phase>, changedAt: nat)

  /** The part of Ctx that phases hand to each other. */
  datatype Context = Context(sourceDir: Option<string>, pkgver: string, built: Debs, packaged: Debs)

  const EMPTY_STATE := Saved(None, "", NO_DEBS, NO_DEBS, [], 0)
  const EMPTY_CONTEXT := Context(None, "", NO_DEBS, NO_DEBS)

  function MarkedComplete(s: Saved, p: Phase): Saved {
    if p in s.completed then s else s.(completed := s.completed + [p])
  }

  /** The phases of `ps` that come before position `idx`. */
  function Before(ps: seq<Phase>, idx: nat): (r: seq<Phase>)
    ensures forall p :: p in r <==> p in ps && Index(p) < idx
  {
    if |ps| == 0 then []
    else if Index(ps[|ps| - 1]) < idx then Before(ps[..|ps| - 1], idx) + [ps[|ps| - 1]]
    else Before(ps[..|ps| - 1], idx)
  }

  function InvalidatedFrom(s: Saved, p: Phase): Saved {
    s.(completed := Before(s.completed, Index(p)), built := NO_DEBS, packaged := NO_DEBS, pkgver := "")
  }

  function Existing(files: seq<string>, exist: string -> bool): (r: seq<string>)
    ensures forall f :: f in r <==> f in files && exist(f)
  {
    if |files| == 0 then []
    else if exist(files[|files| - 1]) then Existing(files[..|files| - 1], exist) + [files[|files| - 1]]
    else Existing(files[..|files| - 1], exist)
  }

  function Hydrated(c: Context, s: Saved, exist: string -> bool): Context {
    Context(
      if c.sourceDir.None? && s.sourceDir.Some? && exist(s.sourceDir.value) then s.sourceDir else c.sourceDir,
      if c.pkgver == "" then s.pkgver else c.pkgver,
      if c.built.files == [] then s.built.(files := Existing(s.built.files, exist)) else c.built,
      if c.packaged.files == [] then s.packaged.(files := Existing(s.packaged.files, exist)) else c.packaged)
  }

  /** Copies the context's outputs back, old package lists included. */
  function Snapshotted(c: Context, s: Saved): Saved {
    s.(sourceDir := if c.sourceDir.Some? then c.sourceDir else s.sourceDir,
       pkgver := if c.pkgver != "" then c.pkgver else s.pkgver,
       built := c.built,
       packaged := c.packaged)
  }

  // ----- running phases

  /** What a phase body did: failed, or left these outputs behind. */
  datatype Effect = Effect(fails: bool, dir: string, pkgver: string, files: seq<string>)

  /** What a phase saw when it started. */
  datatype Start = Start(phase: Phase, completed: seq<Phase>, packaged: Debs, changedAt: nat)

  datatype World = World(ctx: Context, mem: Saved, disk: Saved, clock: nat, stopped: bool, log: seq<Start>)

  function Body(c: Context, p: Phase, e: Effect, now: nat): Context {
    match p
    case Source => c.(sourceDir := Some(e.dir))
    case Build => c.(pkgver := e.pkgver, built := Debs(e.files, now, 0))
    case Package =>
      c.(packaged := Debs(Existing(c.built.files, f => f in e.files), c.built.builtAt, now))
    case _ => c
  }

  /** The source phase drops patch and everything later when it changed the tree's path. */
  function Retargeted(s: Saved, p: Phase, e: Effect, now: nat): Saved {
    if p != Source || s.sourceDir == Some(e.dir) then s
    else if s.sourceDir.Some? then InvalidatedFrom(s, Patch).(changedAt := now)
    else s.(changedAt := now)
  }

  /** One turn of the loop in _run_phases. */
  function Step(w: World, p: Phase, e: Effect): World {
    var now := w.clock + 1;
    var log := w.log + [Start(p, w.mem.completed, w.ctx.packaged, w.mem.changedAt)];
    if e.fails then w.(clock := now, stopped := true, log := log)
    else
      var ctx := Body(w.ctx, p, e, now);
      var mem := Snapshotted(ctx, MarkedComplete(Retargeted(w.mem, p, e, now), p));
      w.(ctx := ctx, mem := mem, disk := mem, clock := now, log := log)
  }

  function Run(w: World, names: seq<Phase>, effects: seq<Effect>): World
    requires |effects| == |names|
    decreases |names|
  {
    if |names| == 0 || w.stopped then w else Run(Step(w, names[0], effects[0]), names[1..], effects[1..])
  }

  datatype Request = Full | Single(phase: Phase)

  function Missing(deps: seq<Phase>, completed: seq<Phase>): (r: seq<Phase>)
    ensures forall p :: p in r <==> p in deps && p !in completed
  {
    if |deps| == 0 then []
    else if deps[|deps| - 1] in completed then Missing(deps[..|deps| - 1], completed)
    else Missing(deps[..|deps| - 1], completed) + [deps[|deps| - 1]]
  }

  function Resolved(r: Request, completed: seq<Phase>): seq<Phase> {
    match r
    case Full => ORDER
    case Single(p) => Missing(Deps(p), completed) + [p]
  }

  /** One process: load, hydrate, resolve, run. */
  datatype Invocation = Invocation(request: Request, exist: string -> bool, effects: seq<Effect>)

  function Loaded(w: World, exist: string -> bool): World {
    w.(mem := w.disk, ctx := Hydrated(EMPTY_CONTEXT, w.disk, exist), stopped := false)
  }

  ghost predicate Enough(w: World, i: Invocation) {
    |i.effects| == |Resolved(i.request, w.disk.completed)|
  }

  ghost function Invoked(w: World, i: Invocation): World
    requires Enough(w, i)
  {
    Run(Loaded(w, i.exist), Resolved(i.request, w.disk.completed), i.effects)
  }

  /** `w` is reachable from nothing by some history of invocations. */
  ghost predicate History(ws: seq<World>, calls: seq<Invocation>) {
    && |ws| == |calls| + 1
    && ws[0] == World(EMPTY_CONTEXT, EMPTY_STATE, EMPTY_STATE, 0, false, [])
    && forall k | 0 <= k < |calls| :: Enough(ws[k], calls[k]) && ws[k + 1] == Invoked(ws[k], calls[k])
  }

  // ----- the resolver's list

  ghost predicate Ascending(ps: seq<Phase>) {
    forall i, j | 0 <= i < j < |ps| :: Index(ps[i]) < Index(ps[j])
  }

  lemma {:induction false} MissingAscending(deps: seq<Phase>, completed: seq<Phase>)
    requires Ascending(deps)
    ensures Ascending(Missing(deps, completed))
  {
    if |deps| > 0 {
      var rest, last := deps[..|deps| - 1], deps[|deps| - 1];
      MissingAscending(rest, completed);
      forall q | q in rest
        ensures Index(q) < Index(last)
      {
        var i :| 0 <= i < |rest| && rest[i] == q;
        assert deps[i] == q;
      }
      var m := Missing(rest, completed);
      forall i | 0 <= i < |m|
        ensures Index(m[i]) < Index(last)
      {
        assert m[i] in m;
      }
    }
  }

  /** The table of prerequisites says no more than how far back in ORDER each phase reaches. */
  function Reach(p: Phase): nat {
    match p
    case PostInstall => 8
    case Nvidia => 8
    case Desktop => 8
    case Proton => 1
    case _ => Index(p)
  }

  lemma DepsAreAPrefix(p: Phase)
    ensures Reach(p) <= Index(p) && Deps(p) == ORDER[..Reach(p)]
  {
  }

  lemma DepsAre(p: Phase)
    ensures forall d :: d in Deps(p) <==> Index(d) < Reach(p)
    ensures Ascending(Deps(p))
  {
    hide Deps;
    DepsAreAPrefix(p);
    var n := Reach(p);
    forall d | Index(d) < n
      ensures d in ORDER[..n]
    {
      assert ORDER[..n][Index(d)] == d;
    }
    forall i | 0 <= i < |ORDER|
      ensures Index(ORDER[i]) == i
    {
    }
  }

  lemma OrderAscending()
    ensures Ascending(ORDER) && forall p :: p in ORDER
  {
    forall i | 0 <= i < |ORDER|
      ensures Index(ORDER[i]) == i
    {
    }
    forall p: Phase
      ensures p in ORDER
    {
      assert ORDER[Index(p)] == p;
    }
  }

  /** What is run is always a subsequence of ORDER, and contains what is missing and no more. */
  lemma ResolvedInOrder(r: Request, completed: seq<Phase>)
    ensures Ascending(Resolved(r, completed))
    ensures r.Single? ==> forall p :: p in Resolved(r, completed) <==> p == r.phase || (p in Deps(r.phase) && p !in completed)
    ensures r.Full? ==> forall p :: p in Resolved(r, completed)
  {
    hide Deps, Index, Missing;
    match r
    case Full => OrderAscending();
    case Single(p) =>
      DepsAre(p);
      DepsAreAPrefix(p);
      MissingAscending(Deps(p), completed);
      var m := Missing(Deps(p), completed);
      forall i | 0 <= i < |m|
        ensures Index(m[i]) < Index(p)
      {
        assert m[i] in m;
      }
  }

  // ----- invariants

  ghost predicate Closed(completed: seq<Phase>) {
    forall p, d | p in completed && d in Deps(p) :: d in completed
  }

  ghost predicate BuiltFresh(s: Saved, built: Debs) {
    Build in s.completed && built.files != [] ==> s.changedAt < built.builtAt
  }

  ghost predicate PackagedFresh(s: Saved, packaged: Debs) {
    Package in s.completed && packaged.files != [] ==> s.changedAt < packaged.builtAt < packaged.packagedAt
  }

  ghost predicate StateOk(s: Saved, clock: nat) {
    && Closed(s.completed) && (Source in s.completed ==> s.sourceDir.Some?)
    && s.changedAt <= clock && s.built.builtAt <= clock
    && BuiltFresh(s, s.built) && PackagedFresh(s, s.packaged)
  }

  /** A start with every prerequisite completed, and an install of a list that a package run
      took from a build run, both after the tree's path last changed. */
  ghost predicate StartOk(s: Start) {
    && (forall d | d in Deps(s.phase) :: d in s.completed)
    && (s.phase == Install && s.packaged.files != [] ==> s.changedAt < s.packaged.builtAt < s.packaged.packagedAt)
  }

  ghost predicate WorldOk(w: World) {
    && StateOk(w.mem, w.clock) && StateOk(w.disk, w.clock)
    && w.ctx.built.builtAt <= w.clock
    && BuiltFresh(w.mem, w.ctx.built) && PackagedFresh(w.mem, w.ctx.packaged)
    && forall s | s in w.log :: StartOk(s)
  }

  /** Every name still to run will find its prerequisites: run before it in this list, or
      completed and out of reach of an invalidation earlier in the list. */
  ghost predicate Ready(names: seq<Phase>, completed: seq<Phase>) {
    forall i, d | 0 <= i < |names| && d in Deps(names[i]) ::
      d in names[..i] || (d in completed && (Source in names[..i] ==> d == Detect))
  }

  lemma ResolvedReady(r: Request, completed: seq<Phase>)
    requires Closed(completed)
    ensures Ready(Resolved(r, completed), completed)
  {
    hide Deps, Index, Resolved;
    var names := Resolved(r, completed);
    ResolvedInOrder(r, completed);
    forall i, d | 0 <= i < |names| && d in Deps(names[i])
      ensures d in names[..i] || (d in completed && (Source in names[..i] ==> d == Detect))
    {
      DepsBefore(names[i], d);
      if d in names {
        var j :| 0 <= j < |names| && names[j] == d;
        assert j < i;
        assert d == names[..i][j];
      } else {
        assert names[i] in names;
        DepsOfDeps(r, completed, names[i], d);
        if Source in names[..i] && d != Detect { SourceRerunsAll(r, completed, d); }
      }
    }
  }

  lemma DepsBefore(p: Phase, d: Phase)
    requires d in Deps(p)
    ensures Index(d) < Index(p)
  {
    hide Deps;
    DepsAre(p);
    DepsAreAPrefix(p);
  }

  lemma DepsTransitive(p: Phase, q: Phase, d: Phase)
    requires q in Deps(p) && d in Deps(q)
    ensures d in Deps(p)
  {
    hide Deps;
    DepsAre(p);
    DepsBefore(q, d);
  }

  lemma DepsOfDeps(r: Request, completed: seq<Phase>, p: Phase, d: Phase)
    requires p in Resolved(r, completed) && d in Deps(p) && d !in Resolved(r, completed)
    ensures r.Single? && d in Deps(r.phase) && d in completed
  {
    hide Deps, Resolved;
    ResolvedInOrder(r, completed);
    if r.Single? && p != r.phase { DepsTransitive(r.phase, p, d); }
  }

  /** When source is among the missing, nothing but detect was completed before it. */
  lemma SourceRerunsAll(r: Request, completed: seq<Phase>, d: Phase)
    requires Closed(completed) && r.Single? && d in Deps(r.phase) && d in completed && d != Detect
    ensures Source !in Resolved(r, completed)
  {
    DepsAre(r.phase);
    DepsAre(d);
    ResolvedInOrder(r, completed);
    if d != Source { assert Source in Deps(d); }
  }

  lemma StepReady(names: seq<Phase>, completed: seq<Phase>, completed': seq<Phase>)
    requires |names| > 0 && Ascending(names) && Ready(names, completed)
    requires names[0] in completed'
    requires forall d | d in completed && (names[0] == Source ==> Index(d) < Index(Patch)) :: d in completed'
    ensures Ready(names[1..], completed')
  {
    hide Deps, Index;
    var rest := names[1..];
    forall i, d | 0 <= i < |rest| && d in Deps(rest[i])
      ensures d in rest[..i] || (d in completed' && (Source in rest[..i] ==> d == Detect))
    {
      assert rest[i] == names[i + 1];
      assert names[..i + 1] == [names[0]] + rest[..i];
      if d == names[0] {
        if Source in rest[..i] {
          var j :| 0 <= j < i && rest[..i][j] == Source;
          assert names[j + 1] == Source;
          OnlyDetectBeforeSource(d);
        }
      } else if d !in rest[..i] {
        assert d !in names[..i + 1];
        assert d in completed && (Source in names[..i + 1] ==> d == Detect);
        assert names[..i + 1][0] == names[0];
        DetectBeforePatch();
      }
    }
  }

  lemma OnlyDetectBeforeSource(d: Phase)
    requires Index(d) < Index(Source)
    ensures d == Detect
  {
  }

  lemma DetectBeforePatch()
    ensures Index(Detect) < Index(Patch)
  {
  }

  lemma CompletedAfter(s: Saved, p: Phase, e: Effect, now: nat)
    ensures forall q :: q in MarkedComplete(Retargeted(s, p, e, now), p).completed ==> q in s.completed || q == p
    ensures p in MarkedComplete(Retargeted(s, p, e, now), p).completed
    ensures forall q | q in s.completed && (p == Source ==> Index(q) < Index(Patch)) ::
              q in MarkedComplete(Retargeted(s, p, e, now), p).completed
  {
  }

  lemma CloseOne(s: Saved, p: Phase, e: Effect, now: nat)
    requires Closed(s.completed) && forall d | d in Deps(p) :: d in s.completed
    ensures Closed(MarkedComplete(Retargeted(s, p, e, now), p).completed)
  {
    var t := Retargeted(s, p, e, now);
    var c := MarkedComplete(t, p).completed;
    forall q, d | q in c && d in Deps(q)
      ensures d in c
    {
      DepsBefore(q, d);
      assert d in s.completed;
    }
  }

  lemma StartIsOk(w: World, p: Phase)
    requires WorldOk(w) && forall d | d in Deps(p) :: d in w.mem.completed
    ensures StartOk(Start(p, w.mem.completed, w.ctx.packaged, w.mem.changedAt))
  {
    hide BuiltFresh, Closed;
    if p == Install { assert Package in Deps(p); }
  }

  lemma StepOk(w: World, p: Phase, e: Effect)
    requires WorldOk(w) && forall d | d in Deps(p) :: d in w.mem.completed
    ensures WorldOk(Step(w, p, e))
  {
    hide StartOk, Deps, Closed, BuiltFresh, PackagedFresh;
    StartIsOk(w, p);
    if !e.fails {
      FreshAfter(w, p, e);
      FinishedStepOk(w, p, e);
    }
  }

  lemma FinishedStepOk(w: World, p: Phase, e: Effect)
    requires WorldOk(w) && !e.fails && forall d | d in Deps(p) :: d in w.mem.completed
    requires var s := Step(w, p, e); BuiltFresh(s.mem, s.ctx.built) && PackagedFresh(s.mem, s.ctx.packaged)
    ensures var s := Step(w, p, e); StateOk(s.mem, s.clock) && s.ctx.built.builtAt <= s.clock
  {
    hide StartOk, Deps, Closed, BuiltFresh, PackagedFresh;
    CloseOne(w.mem, p, e, w.clock + 1);
    CompletedAfter(w.mem, p, e, w.clock + 1);
  }

  lemma NothingBuiltWithoutSource(completed: seq<Phase>)
    requires Closed(completed) && (Build in completed || Package in completed)
    ensures Source in completed
  {
    assert Source in Deps(Build) && Source in Deps(Package);
  }

  /** A changed path leaves no build completed: dropped, or never begun. */
  lemma RetargetLeavesNoBuild(s: Saved, e: Effect, now: nat)
    requires Closed(s.completed) && (Source in s.completed ==> s.sourceDir.Some?) && s.sourceDir != Some(e.dir)
    ensures var t := MarkedComplete(Retargeted(s, Source, e, now), Source);
            Build !in t.completed && Package !in t.completed
  {
    hide Deps, Closed;
    CompletedAfter(s, Source, e, now);
    if Build in s.completed || Package in s.completed { NothingBuiltWithoutSource(s.completed); }
  }

  lemma FreshAfterSource(w: World, e: Effect)
    requires WorldOk(w) && !e.fails
    ensures var s := Step(w, Source, e); BuiltFresh(s.mem, s.ctx.built) && PackagedFresh(s.mem, s.ctx.packaged)
  {
    hide Deps, Closed, StartOk;
    CompletedAfter(w.mem, Source, e, w.clock + 1);
    if w.mem.sourceDir != Some(e.dir) {
      RetargetLeavesNoBuild(w.mem, e, w.clock + 1);
      hide InvalidatedFrom, Retargeted, MarkedComplete;
    }
  }

  lemma FreshAfterOther(w: World, p: Phase, e: Effect)
    requires WorldOk(w) && !e.fails && p != Source && forall d | d in Deps(p) :: d in w.mem.completed
    ensures var s := Step(w, p, e); BuiltFresh(s.mem, s.ctx.built) && PackagedFresh(s.mem, s.ctx.packaged)
  {
    hide Deps, Closed, StartOk, Before, Existing;
    assert Retargeted(w.mem, p, e, w.clock + 1) == w.mem;
    if p == Package {
      PackageNeedsBuild();
      var taken := Step(w, p, e).ctx.packaged.files;
      if taken != [] { assert taken[0] in taken && taken[0] in w.ctx.built.files; }
    }
  }

  lemma PackageNeedsBuild()
    ensures Build in Deps(Package)
  {
  }

  lemma FreshAfter(w: World, p: Phase, e: Effect)
    requires WorldOk(w) && !e.fails && forall d | d in Deps(p) :: d in w.mem.completed
    ensures var s := Step(w, p, e); BuiltFresh(s.mem, s.ctx.built) && PackagedFresh(s.mem, s.ctx.packaged)
  {
    if p == Source { FreshAfterSource(w, e); } else { FreshAfterOther(w, p, e); }
  }

  // ----- whole histories

  lemma {:induction false} RunOk(w: World, names: seq<Phase>, effects: seq<Effect>)
    requires |effects| == |names| && WorldOk(w) && Ascending(names) && Ready(names, w.mem.completed)
    ensures WorldOk(Run(w, names, effects))
    decreases |names|
  {
    if |names| > 0 && !w.stopped {
      var p, e := names[0], effects[0];
      assert names[..0] == [];
      StepOk(w, p, e);
      if !e.fails {
        CompletedAfter(w.mem, p, e, w.clock + 1);
        StepReady(names, w.mem.completed, Step(w, p, e).mem.completed);
        RunOk(Step(w, p, e), names[1..], effects[1..]);
      }
    }
  }

  lemma LoadedOk(w: World, exist: string -> bool)
    requires WorldOk(w)
    ensures WorldOk(Loaded(w, exist))
  {
  }

  lemma InvokedOk(w: World, i: Invocation)
    requires WorldOk(w) && Enough(w, i)
    ensures WorldOk(Invoked(w, i))
  {
    LoadedOk(w, i.exist);
    ResolvedInOrder(i.request, w.disk.completed);
    ResolvedReady(i.request, w.disk.completed);
    RunOk(Loaded(w, i.exist), Resolved(i.request, w.disk.completed), i.effects);
  }

  /** In every history of single-phase and full invocations, with failures anywhere: every
      phase starts with all its prerequisites completed, and every non-empty list `install`
      reads came from a package run, fed by a build run, both after the last change of the
      tree's path. */
  lemma {:induction false} HistoriesAreFresh(ws: seq<World>, calls: seq<Invocation>, k: nat)
    requires History(ws, calls) && k < |ws|
    ensures WorldOk(ws[k]) && Closed(ws[k].disk.completed)
    ensures forall s | s in ws[k].log :: StartOk(s)
  {
    if k > 0 {
      HistoriesAreFresh(ws, calls, k - 1);
      InvokedOk(ws[k - 1], calls[k - 1]);
    }
  }

  // ----- what one process leaves to the next

  /** A new process has back what was recorded: the packages that still exist, no others, the
      tree if it still exists, and the version. */
  lemma NextProcessHasItBack(w: World, exist: string -> bool)
    ensures var c := Loaded(w, exist).ctx;
      && (forall f :: f in c.built.files <==> f in w.disk.built.files && exist(f))
      && (forall f :: f in c.packaged.files <==> f in w.disk.packaged.files && exist(f))
      && ((forall f | f in w.disk.built.files :: exist(f)) ==> c.built == w.disk.built)
      && ((forall f | f in w.disk.packaged.files :: exist(f)) ==> c.packaged == w.disk.packaged)
      && c.pkgver == w.disk.pkgver
      && c.sourceDir == if w.disk.sourceDir.Some? && exist(w.disk.sourceDir.value) then w.disk.sourceDir else None
  {
    AllExist(w.disk.built.files, exist);
    AllExist(w.disk.packaged.files, exist);
  }

  lemma {:induction false} AllExist(files: seq<string>, exist: string -> bool)
    ensures (forall f | f in files :: exist(f)) ==> Existing(files, exist) == files
  {
    if |files| > 0 {
      var init, last := files[..|files| - 1], files[|files| - 1];
      AllExist(init, exist);
      assert files == init + [last];
    }
  }

  lemma {:induction false} NothingMissing(deps: seq<Phase>, completed: seq<Phase>)
    requires forall d | d in deps :: d in completed
    ensures Missing(deps, completed) == []
  {
    if |deps| > 0 {
      assert deps[|deps| - 1] in deps;
      NothingMissing(deps[..|deps| - 1], completed);
    }
  }

  /** A phase whose prerequisites are completed is run alone. */
  lemma RunAlone(w: World, i: Invocation)
    requires i.request.Single? && (forall d | d in Deps(i.request.phase) :: d in w.disk.completed) && |i.effects| == 1
    ensures Enough(w, i) && Invoked(w, i) == Step(Loaded(w, i.exist), i.request.phase, i.effects[0])
  {
    hide Step, Deps, Loaded;
    NothingMissing(Deps(i.request.phase), w.disk.completed);
    var names := Resolved(i.request, w.disk.completed);
    assert names == [i.request.phase] && names[1..] == [] && i.effects[1..] == [];
    assert !Loaded(w, i.exist).stopped by { LoadedRuns(w, i.exist); }
    var now := Step(Loaded(w, i.exist), i.request.phase, i.effects[0]);
    assert Run(now, [], []) == now;
  }

  lemma LoadedRuns(w: World, exist: string -> bool)
    ensures !Loaded(w, exist).stopped
  {
  }

  /** `install` in a process of its own is handed exactly the recorded packages that still exist. */
  lemma InstallIsHandedTheList(w: World, i: Invocation)
    requires Closed(w.disk.completed) && Package in w.disk.completed && i.request == Single(Install) && |i.effects| == 1
    ensures Enough(w, i)
    ensures var log := Invoked(w, i).log;
      && |log| == |w.log| + 1 && log[..|w.log|] == w.log && log[|w.log|].phase == Install
      && forall f :: f in log[|w.log|].packaged.files <==> f in w.disk.packaged.files && i.exist(f)
  {
    DepsDone(Package, Install, w.disk.completed);
    RunAlone(w, i);
    NextProcessHasItBack(w, i.exist);
  }

  /** The last prerequisite of `q` completed, all of them are. */
  lemma DepsDone(p: Phase, q: Phase, completed: seq<Phase>)
    requires Closed(completed) && p in completed && ((p == Build && q == Package) || (p == Package && q == Install))
    ensures forall d | d in Deps(q) :: d in completed
  {
    assert Deps(q) == Deps(p) + [p];
  }

  /** What a phase that ran alone to its end leaves on disk. */
  lemma AloneLeaves(w: World, i: Invocation)
    requires i.request.Single? && (forall d | d in Deps(i.request.phase) :: d in w.disk.completed) && |i.effects| == 1
    requires Closed(w.disk.completed) && !i.effects[0].fails && i.request.phase != Source
    ensures Enough(w, i)
    ensures var disk := Invoked(w, i).disk;
      && Closed(disk.completed) && i.request.phase in disk.completed
      && (i.request.phase == Build ==> disk.built.files == i.effects[0].files)
      && disk.pkgver == (if i.request.phase == Build && i.effects[0].pkgver != "" then i.effects[0].pkgver else w.disk.pkgver)
      && (i.request.phase == Package ==> forall f :: f in disk.packaged.files <==>
           f in w.disk.built.files && i.exist(f) && f in i.effects[0].files)
  {
    RunAlone(w, i);
    NextProcessHasItBack(w, i.exist);
    CloseOne(w.disk, i.request.phase, i.effects[0], w.clock + 1);
    CompletedAfter(w.disk, i.request.phase, i.effects[0], w.clock + 1);
    hide Deps, Closed;
  }

  /** Build, package and install, each in a process of its own: what install is handed is what the
      build made, was there for packaging, was packaged, and is there still; nothing else. */
  lemma BuiltReachesInstall(w: World, b: Invocation, p: Invocation, i: Invocation)
    requires Closed(w.disk.completed) && forall d | d in Deps(Build) :: d in w.disk.completed
    requires b.request == Single(Build) && p.request == Single(Package) && i.request == Single(Install)
    requires |b.effects| == |p.effects| == |i.effects| == 1 && !b.effects[0].fails && !p.effects[0].fails
    ensures Enough(w, b) && Enough(Invoked(w, b), p) && Enough(Invoked(Invoked(w, b), p), i)
    ensures var log := Invoked(Invoked(Invoked(w, b), p), i).log;
      && |log| > 0 && log[|log| - 1].phase == Install
      && forall f :: f in log[|log| - 1].packaged.files <==>
           f in b.effects[0].files && p.exist(f) && f in p.effects[0].files && i.exist(f)
    ensures b.effects[0].pkgver != "" ==> Loaded(Invoked(Invoked(w, b), p), i.exist).ctx.pkgver == b.effects[0].pkgver
  {
    hide Invoked, Deps, Enough;
    AloneLeaves(w, b);
    var w1 := Invoked(w, b);
    DepsDone(Build, Package, w1.disk.completed);
    AloneLeaves(w1, p);
    InstallIsHandedTheList(Invoked(w1, p), i);
  }

  /** A run nothing fails in starts every phase of its list in order and records each. */
  lemma {:induction false} UnhinderedRun(w: World, names: seq<Phase>, effects: seq<Effect>)
    requires |effects| == |names| > 0 && Ascending(names) && !w.stopped && forall e | e in effects :: !e.fails
    ensures var now := Run(w, names, effects);
      && !now.stopped && now.disk == now.mem
      && (forall p | p in names :: p in now.disk.completed)
      && (forall p | p in w.mem.completed && Index(p) < Index(names[0]) :: p in now.disk.completed)
      && |now.log| == |w.log| + |names| && now.log[..|w.log|] == w.log
      && forall k | 0 <= k < |names| :: now.log[|w.log| + k].phase == names[k]
    decreases |names|
  {
    hide Index, Step;
    var p, rest := names[0], names[1..];
    assert effects[0] in effects;
    StepRecords(w, p, effects[0]);
    var next := Step(w, p, effects[0]);
    if |rest| == 0 {
      assert Run(next, rest, effects[1..]) == next;
    } else {
      assert rest[0] == names[1];
      UnhinderedRun(next, rest, effects[1..]);
      forall k | 1 <= k < |names| ensures Run(w, names, effects).log[|w.log| + k].phase == names[k] {
        assert rest[k - 1] == names[k];
      }
    }
  }

  /** A phase that did not fail is recorded, with all that came before it. */
  lemma StepRecords(w: World, p: Phase, e: Effect)
    requires !e.fails
    ensures var next := Step(w, p, e);
      && next.stopped == w.stopped && next.disk == next.mem && p in next.mem.completed
      && (forall q | q in w.mem.completed && Index(q) < Index(p) :: q in next.mem.completed)
      && |next.log| == |w.log| + 1 && next.log[..|w.log|] == w.log && next.log[|w.log|].phase == p
  {
    CompletedAfter(w.mem, p, e, w.clock + 1);
    hide Retargeted, MarkedComplete, Body;
  }

  /** So an invocation nothing fails in ends with the phases asked for completed. */
  lemma UnhinderedCompletes(w: World, i: Invocation)
    requires Enough(w, i) && forall e | e in i.effects :: !e.fails
    ensures var names := Resolved(i.request, w.disk.completed);
      && (forall p | p in names :: p in Invoked(w, i).disk.completed)
      && |Invoked(w, i).log| == |w.log| + |names|
      && (forall k | 0 <= k < |names| :: Invoked(w, i).log[|w.log| + k].phase == names[k])
      && (i.request.Full? ==> forall p :: p in Invoked(w, i).disk.completed)
  {
    ResolvedInOrder(i.request, w.disk.completed);
    LoadedRuns(w, i.exist);
    hide Resolved, Run, Loaded;
    SomethingResolved(i.request, w.disk.completed);
    UnhinderedRun(Loaded(w, i.exist), Resolved(i.request, w.disk.completed), i.effects);
    LoadedLog(w, i.exist);
  }

  lemma SomethingResolved(r: Request, completed: seq<Phase>)
    ensures |Resolved(r, completed)| > 0
  {
  }

  lemma LoadedLog(w: World, exist: string -> bool)
    ensures Loaded(w, exist).log == w.log
  {
  }

  /** What the invalidation clears comes straight back: right after a retarget the saved
      lists are the old ones, and only the missing completions keep `install` off them. */
  lemma RetargetKeepsOldLists(w: World, e: Effect)
    requires WorldOk(w) && !e.fails && w.mem.sourceDir.Some? && w.mem.sourceDir != Some(e.dir)
    ensures var s := Step(w, Source, e).disk;
            && s.built == w.ctx.built && s.packaged == w.ctx.packaged
            && (forall p | Index(p) >= Index(Patch) :: p !in s.completed)
            && (forall p | p == Build || p == Package :: p in Resolved(Single(Install), s.completed))
  {
    RetargetDropsLater(w, e);
    hide Before, Existing, Index, Deps, Closed, StartOk;
    InstallNeedsThem(Step(w, Source, e).disk.completed);
  }

  lemma RetargetDropsLater(w: World, e: Effect)
    requires !e.fails && w.mem.sourceDir.Some? && w.mem.sourceDir != Some(e.dir)
    ensures forall p | Index(p) >= Index(Patch) :: p !in Step(w, Source, e).disk.completed
    ensures Build !in Step(w, Source, e).disk.completed && Package !in Step(w, Source, e).disk.completed
  {
    hide Deps, Closed;
  }

  lemma InstallNeedsThem(completed: seq<Phase>)
    ensures forall p | (p == Build || p == Package) && p !in completed :: p in Resolved(Single(Install), completed)
  {
    assert Build in Deps(Install) && Package in Deps(Install);
  }

  /** Exactly when a finished source run sends the later phases round again. */
  lemma PatchDroppedIffRetargeted(w: World, e: Effect)
    requires WorldOk(w) && !e.fails && Patch in w.mem.completed
    ensures Patch !in Step(w, Source, e).disk.completed <==> w.mem.sourceDir != Some(e.dir)
  {
    assert Source in Deps(Patch);
  }

  /** Exactly which completions a finished source run drops: patch and all later ones, when the
      tree was recorded at another path; a first run drops none. */
  lemma SourceDropsIff(w: World, e: Effect, q: Phase)
    requires !e.fails && q in w.mem.completed && q != Source
    ensures q !in Step(w, Source, e).disk.completed <==>
      w.mem.sourceDir.Some? && w.mem.sourceDir != Some(e.dir) && Index(q) >= Index(Patch)
  {
    hide Deps;
  }

  /** A phase that fails when it is run again stays completed, whatever it had already done
      to the tree: the saved state does not move, so nothing later waits for it. */
  lemma FailedRerunIsForgotten(w: World, p: Phase, q: Phase, i: Invocation)
    requires WorldOk(w) && Enough(w, i) && i.request == Single(p) && p in w.disk.completed && p in Deps(q)
    requires forall e | e in i.effects :: e.fails
    ensures Invoked(w, i).disk == w.disk
    ensures p !in Resolved(Single(q), Invoked(w, i).disk.completed)
  {
    ResolvedInOrder(Single(q), w.disk.completed);
    DepsBefore(q, p);
    var names := Resolved(i.request, w.disk.completed);
    var l := Loaded(w, i.exist);
    assert i.effects[0] in i.effects;
    var s := Step(l, names[0], i.effects[0]);
    assert s.stopped && s.disk == w.disk;
    assert Run(s, names[1..], i.effects[1..]) == s;
  }
}
