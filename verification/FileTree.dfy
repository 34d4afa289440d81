/**
  The tree that de-duplication acts on: real directories, symbolic links, and path lookup
  that goes through links, as `rm -rf` and `symlink` do (scripts/dedupe-clones.py:250-283).
*/
module FileTree {
  import opened Prelude
  import opened Dedupe

  /** Links a lookup follows before it gives up. */
  const MAX_LINKS: nat := 40

  datatype Tree = Tree(dirs: set<Path>, links: map<Path, Path>)

  /** Nothing hangs below a link, and every parent is there. */
  ghost predicate WellFormed(t: Tree) {
    && t.dirs !! t.links.Keys && "" !in t.dirs && "" !in t.links
    && forall p, i | (p in t.dirs || p in t.links) && 0 < i < |p| && p[i] == '/' :: p[..i] in t.dirs
  }

  /** The end of the first proper prefix of `p` that is a link, or |p|. */
  function LinkAt(links: map<Path, Path>, p: Path, i: nat): (j: nat)
    requires i <= |p|
    ensures i <= j <= |p|
    ensures j < |p| ==> p[j] == '/' && p[..j] in links
    ensures forall k | i <= k < j && p[k] == '/' :: p[..k] !in links
    decreases |p| - i
  {
    if i == |p| || (p[i] == '/' && p[..i] in links) then i else LinkAt(links, p, i + 1)
  }

  /** Where lookup ends, the last component not followed; None when there are too many links. */
  function Resolve(links: map<Path, Path>, p: Path, fuel: nat): Option<Path>
    decreases fuel
  {
    var j := LinkAt(links, p, 0);
    if j == |p| then Some(p)
    else if fuel == 0 then None
    else Resolve(links, links[p[..j]] + p[j..], fuel - 1)
  }

  /** The same with the last component followed too. */
  function RealPath(links: map<Path, Path>, p: Path): Option<Path> {
    match Resolve(links, p + "/", MAX_LINKS)
    case None => None
    case Some(q) => if |q| == 0 then None else Some(q[..|q| - 1])
  }

  function Removed(t: Tree, q: Path): Tree {
    Tree(set x | x in t.dirs && !Under(x, q), map x | x in t.links && !Under(x, q) :: t.links[x])
  }

  predicate Free(t: Tree, q: Path) {
    q != "" && q !in t.dirs && q !in t.links && forall i | 0 < i < |q| && q[i] == '/' :: q[..i] in t.dirs
  }

  /** `rm -rf path`: the tree it really reaches. */
  function RemoveTree(t: Tree, p: Path): Option<Tree> {
    match Resolve(t.links, p, MAX_LINKS)
    case None => None
    case Some(q) => Some(Removed(t, q))
  }

  function Symlink(t: Tree, target: Path, p: Path): Option<Tree> {
    match Resolve(t.links, p, MAX_LINKS)
    case None => None
    case Some(q) => if Free(t, q) then Some(t.(links := t.links[q := target])) else None
  }

  function LinkToKeeper(t: Tree, e: Entry): Option<Tree> {
    match e.keeper
    case None => Some(t)
    case Some(k) =>
      match RealPath(t.links, k.path)
      case None => None
      case Some(target) => Symlink(t, target, e.path)
  }

  /** How far it got, and whether nothing has stopped it. */
  datatype Run = Run(tree: Tree, ok: bool)

  /** One entry of the plan; an error after the removal leaves the removal done. */
  function Step(t: Tree, e: Entry): Run {
    if e.why then Run(t, true)
    else
      match RemoveTree(t, e.path)
      case None => Run(t, false)
      case Some(r) =>
        match LinkToKeeper(r, e)
        case None => Run(r, false)
        case Some(u) => Run(u, true)
  }

  function RunPlan(t: Tree, plan: seq<Entry>): Run {
    if |plan| == 0 then Run(t, true)
    else
      var u := RunPlan(t, plan[..|plan| - 1]);
      if u.ok then Step(u.tree, plan[|plan| - 1]) else u
  }

  lemma RunPlanOneMore(t: Tree, plan: seq<Entry>, n: nat)
    requires n < |plan| && RunPlan(t, plan[..n]).ok
    ensures RunPlan(t, plan[..n + 1]) == Step(RunPlan(t, plan[..n]).tree, plan[n])
  {
    assert plan[..n + 1][..n] == plan[..n];
  }

  /** After an error the rest of the plan changes nothing. */
  lemma {:induction false} StoppedStays(t: Tree, plan: seq<Entry>, n: nat)
    requires n <= |plan| && !RunPlan(t, plan[..n]).ok
    ensures RunPlan(t, plan) == RunPlan(t, plan[..n])
    decreases |plan|
  {
    if n < |plan| {
      assert plan[..|plan| - 1][..n] == plan[..n];
      StoppedStays(t, plan[..|plan| - 1], n);
    } else {
      assert plan[..n] == plan;
    }
  }

  class FileSystem {
    var dirs: set<Path>
    var links: map<Path, Path>

    function Now(): Tree
      reads this
    {
      Tree(dirs, links)
    }

    constructor (t: Tree)
      ensures Now() == t
    {
      dirs, links := t.dirs, t.links;
    }

    method Remove(p: Path) returns (ok: bool)
      modifies this
      ensures ok <==> RemoveTree(old(Now()), p).Some?
      ensures Some(Now()) == if ok then RemoveTree(old(Now()), p) else Some(old(Now()))
    {
      var q := Resolve(links, p, MAX_LINKS);
      if q.None? { return false; }
      dirs := set x | x in dirs && !Under(x, q.value);
      links := map x | x in links && !Under(x, q.value) :: links[x];
      return true;
    }

    method Link(target: Path, p: Path) returns (ok: bool)
      modifies this
      ensures ok <==> Symlink(old(Now()), target, p).Some?
      ensures Some(Now()) == if ok then Symlink(old(Now()), target, p) else Some(old(Now()))
    {
      var q := Resolve(links, p, MAX_LINKS);
      if q.None? || !Free(Tree(dirs, links), q.value) { return false; }
      links := links[q.value := target];
      return true;
    }

    /** Remove and link, entry by entry, until done or until one raises. */
    method Execute(plan: seq<Entry>) returns (ok: bool)
      modifies this
      ensures Run(Now(), ok) == RunPlan(old(Now()), plan)
    {
      hide RemoveTree, RealPath, Symlink;
      ghost var t := Now();
      for i := 0 to |plan|
        invariant Run(Now(), true) == RunPlan(t, plan[..i])
      {
        RunPlanOneMore(t, plan, i);
        ok := ExecuteOne(plan[i]);
        if !ok {
          StoppedStays(t, plan, i + 1);
          return;
        }
      }
      assert plan[..|plan|] == plan;
      return true;
    }

    method ExecuteOne(e: Entry) returns (ok: bool)
      modifies this
      ensures Run(Now(), ok) == Step(old(Now()), e)
    {
      hide RemoveTree, RealPath, Symlink;
      if e.why { return true; }
      ok := Remove(e.path);
      if !ok || e.keeper.None? { return; }
      var target := RealPath(links, e.keeper.value.path);
      if target.None? { return false; }
      ok := Link(target.value, e.path);
    }
  }

  // ----- what a plan with no nested paths does

  /** No path to be removed lies inside another to be removed; blocked entries do nothing. */
  ghost predicate Apart(plan: seq<Entry>) {
    forall i, j | 0 <= i < |plan| && 0 <= j < |plan| && i != j && !plan[i].why && !plan[j].why ::
      !Under(plan[i].path, plan[j].path)
  }

  ghost predicate Gone(plan: seq<Entry>, x: Path) {
    exists e | e in plan :: !e.why && Under(x, e.path)
  }

  ghost predicate Linked(plan: seq<Entry>, x: Path, target: Path) {
    exists e | e in plan :: !e.why && e.path == x && e.keeper.Some? && e.keeper.value.path == target
  }

  /** The planned paths are there, and each kept copy is there and outside all that goes. */
  ghost predicate Ready(t: Tree, plan: seq<Entry>) {
    && (forall e | e in plan :: e.path in t.dirs)
    && (forall e | e in plan && e.keeper.Some? :: e.keeper.value.path in t.dirs && !Gone(plan, e.keeper.value.path))
  }

  /** `u` is `t` with exactly the unblocked paths gone, and one link for each kept copy's extra. */
  ghost predicate Deduped(t: Tree, plan: seq<Entry>, u: Tree) {
    && (forall x :: x in u.dirs <==> x in t.dirs && !Gone(plan, x))
    && (forall x :: x in u.links <==> (x in t.links && !Gone(plan, x)) || exists k :: Linked(plan, x, k))
    && (forall x | x in t.links && !Gone(plan, x) :: u.links[x] == t.links[x])
    && (forall x, k | Linked(plan, x, k) :: u.links[x] == k)
  }

  lemma PlaceResolvesToItself(t: Tree, p: Path, fuel: nat)
    requires WellFormed(t) && (p in t.dirs || p in t.links)
    ensures Resolve(t.links, p, fuel) == Some(p)
    ensures p in t.dirs ==> RealPath(t.links, p) == Some(p)
  {
    var q := p + "/";
    forall j | 0 <= j <= |p| && q[j] == '/' && q[..j] in t.links ensures j == |p| {
      assert q[..j] == p[..j];
      assert p[..0] == "";
    }
    assert LinkAt(t.links, p, 0) == |p| by {
      var j := LinkAt(t.links, p, 0);
      assert q[..j] == p[..j];
    }
    if p in t.dirs {
      assert q[..|p|] == p;
      assert LinkAt(t.links, q, 0) == |q|;
    }
  }

  lemma ShorterIsNotUnder(p: Path, i: nat)
    requires i < |p|
    ensures !Under(p[..i], p)
  {
  }

  lemma RemovalKeepsParents(t: Tree, q: Path)
    requires WellFormed(t)
    ensures WellFormed(Removed(t, q))
  {
    var r := Removed(t, q);
    forall p, i | (p in r.dirs || p in r.links) && 0 < i < |p| && p[i] == '/' ensures p[..i] in r.dirs {
      assert Inside(p, p[..i]);
      if Under(p[..i], q) { UnderTrans(p, p[..i], q); }
    }
  }

  /** One unblocked entry on a path that is there: only that path goes, and its link is made. */
  lemma StepDoesOnePath(t: Tree, e: Entry)
    requires WellFormed(t) && !e.why && e.path in t.dirs
    requires e.keeper.Some? ==> e.keeper.value.path in t.dirs && !Under(e.keeper.value.path, e.path)
    ensures Step(t, e).ok && WellFormed(Step(t, e).tree)
    ensures Step(t, e).tree.dirs == Removed(t, e.path).dirs
    ensures e.keeper.None? ==> Step(t, e).tree.links == Removed(t, e.path).links
    ensures e.keeper.Some? ==> Step(t, e).tree.links == Removed(t, e.path).links[e.path := e.keeper.value.path]
  {
    PlaceResolvesToItself(t, e.path, MAX_LINKS);
    var r := Removed(t, e.path);
    RemovalKeepsParents(t, e.path);
    if e.keeper.Some? {
      var k := e.keeper.value.path;
      PlaceResolvesToItself(r, k, MAX_LINKS);
      forall i | 0 < i < |e.path| && e.path[i] == '/' ensures e.path[..i] in r.dirs {
        ShorterIsNotUnder(e.path, i);
      }
      FreePlaceResolves(r, e.path);
      assert Free(r, e.path);
    }
  }

  lemma FreePlaceResolves(t: Tree, p: Path)
    requires WellFormed(t) && Free(t, p)
    ensures Resolve(t.links, p, MAX_LINKS) == Some(p)
  {
    var j := LinkAt(t.links, p, 0);
    assert p[..0] == "";
  }

  lemma GoneWithOneMore(plan: seq<Entry>, e: Entry, x: Path)
    ensures Gone(plan + [e], x) <==> Gone(plan, x) || (!e.why && Under(x, e.path))
  {
    if Gone(plan, x) {
      var d :| d in plan && !d.why && Under(x, d.path);
      assert d in plan + [e];
    }
    assert e in plan + [e];
  }

  lemma LinkedWithOneMore(plan: seq<Entry>, e: Entry, x: Path, k: Path)
    ensures Linked(plan + [e], x, k)
       <==> Linked(plan, x, k) || (!e.why && e.path == x && e.keeper.Some? && e.keeper.value.path == k)
  {
    if Linked(plan, x, k) {
      var d :| d in plan && !d.why && d.path == x && d.keeper.Some? && d.keeper.value.path == k;
      assert d in plan + [e];
    }
    assert e in plan + [e];
  }

  lemma LinkedIsElsewhere(plan: seq<Entry>, e: Entry, x: Path, k: Path)
    requires Apart(plan + [e]) && Linked(plan, x, k) && !e.why
    ensures !Under(x, e.path)
  {
    var i :| 0 <= i < |plan| && !plan[i].why && plan[i].path == x;
    assert (plan + [e])[i] == plan[i] && (plan + [e])[|plan|] == e;
  }

  lemma DedupedOneMore(t: Tree, plan: seq<Entry>, e: Entry, u: Tree, v: Tree)
    requires Apart(plan + [e]) && Deduped(t, plan, u)
    requires e.why ==> v == u
    requires !e.why ==> v.dirs == Removed(u, e.path).dirs
    requires !e.why && e.keeper.None? ==> v.links == Removed(u, e.path).links
    requires !e.why && e.keeper.Some? ==> v.links == Removed(u, e.path).links[e.path := e.keeper.value.path]
    ensures Deduped(t, plan + [e], v)
  {
    hide Apart, Gone, Linked;
    forall x ensures Gone(plan + [e], x) <==> Gone(plan, x) || (!e.why && Under(x, e.path)) {
      GoneWithOneMore(plan, e, x);
    }
    forall x, k ensures Linked(plan + [e], x, k)
       <==> Linked(plan, x, k) || (!e.why && e.path == x && e.keeper.Some? && e.keeper.value.path == k) {
      LinkedWithOneMore(plan, e, x, k);
    }
    forall x, k | Linked(plan, x, k) && !e.why ensures !Under(x, e.path) { LinkedIsElsewhere(plan, e, x, k); }
    forall x ensures x in v.links <==> (x in t.links && !Gone(plan + [e], x)) || exists k :: Linked(plan + [e], x, k) {
      if !e.why && e.keeper.Some? && x == e.path { assert Linked(plan + [e], x, e.keeper.value.path); }
      if k :| Linked(plan, x, k) { assert Linked(plan + [e], x, k); }
      if k :| Linked(plan + [e], x, k) { assert x in v.links; }
    }
  }

  /** Whatever the order: no error, only the planned paths go, and each extra becomes a link. */
  lemma {:induction false} ApartPlanDedupes(t: Tree, plan: seq<Entry>)
    requires WellFormed(t) && Apart(plan) && Ready(t, plan)
    ensures RunPlan(t, plan).ok && WellFormed(RunPlan(t, plan).tree)
    ensures Deduped(t, plan, RunPlan(t, plan).tree)
    decreases |plan|
  {
    if |plan| > 0 {
      var rest, e := plan[..|plan| - 1], plan[|plan| - 1];
      assert plan == rest + [e];
      forall x ensures Gone(rest, x) ==> Gone(plan, x) { GoneWithOneMore(rest, e, x); }
      ApartPlanDedupes(t, rest);
      var u := RunPlan(t, rest).tree;
      if !e.why {
        assert e in plan;
        assert !Gone(rest, e.path);
        StepDoesOnePath(u, e);
      }
      DedupedOneMore(t, rest, e, u, Step(u, e).tree);
    }
  }

  /** A link straight to a directory: whatever was reached under it still is. */
  lemma OneHop(t: Tree, p: Path, k: Path, rest: string)
    requires WellFormed(t) && p in t.links && t.links[p] == k && k + rest in t.dirs
    requires rest == "" || rest[0] == '/'
    ensures RealPath(t.links, p + rest) == Some(k + rest)
  {
    var q, w := (p + rest) + "/", (k + rest) + "/";
    assert q[..|p|] == p && k + q[|p|..] == w && w[..|k + rest|] == k + rest;
    FirstLinkIs(t, p, q);
    NoLinkOnTheWay(t, k + rest);
    hide WellFormed, LinkAt;
    assert Resolve(t.links, q, MAX_LINKS) == Resolve(t.links, w, MAX_LINKS - 1) == Some(w);
  }

  lemma FirstLinkIs(t: Tree, p: Path, q: Path)
    requires WellFormed(t) && p in t.links && Inside(q, p)
    ensures LinkAt(t.links, q, 0) == |p|
  {
    forall j | 0 <= j < |p| && q[j] == '/' ensures q[..j] !in t.links {
      assert q[..j] == p[..j];
      assert p[..0] == "";
    }
  }

  lemma NoLinkOnTheWay(t: Tree, p: Path)
    requires WellFormed(t) && p in t.dirs
    ensures LinkAt(t.links, p + "/", 0) == |p| + 1
  {
    var q := p + "/";
    forall j | 0 <= j <= |p| && q[j] == '/' ensures q[..j] !in t.links {
      assert q[..j] == p[..j];
      assert p[..0] == "" && p[..|p|] == p;
    }
  }

  /** The scan found real directories, each once, and the removal list names real directories. */
  ghost predicate Scanned(s: Scan, t: Tree) {
    && WellFormed(t) && DistinctPaths(s.repos)
    && (forall r | r in s.repos :: r.path in t.dirs)
    && (forall d | d in s.doomed :: d in t.dirs)
  }

  lemma PlanIsReady(s: Scan, t: Tree, plan: seq<Entry>)
    requires Scanned(s, t) && forall e | e in plan :: Planned(s, e)
    ensures Ready(t, plan)
    ensures forall k | k in s.repos && IsKeeper(s, k) :: !Gone(plan, k.path)
  {
    hide Keeper, Why, IsExtra, Doomed;
    forall k | k in s.repos && IsKeeper(s, k) ensures !Gone(plan, k.path) {
      forall e | e in plan && !e.why ensures !Under(k.path, e.path) { UnblockedSparesKeepers(s, e, k); }
    }
    forall e | e in plan
      ensures e.path in t.dirs
      ensures e.keeper.Some? ==> e.keeper.value in s.repos && IsKeeper(s, e.keeper.value)
    {
      PlannedIsInPlace(s, t, e);
    }
  }

  lemma PlannedIsInPlace(s: Scan, t: Tree, e: Entry)
    requires Scanned(s, t) && Planned(s, e)
    ensures e.path in t.dirs
    ensures e.keeper.Some? ==> e.keeper.value in s.repos && IsKeeper(s, e.keeper.value)
  {
    hide Why;
    if m :| m in s.repos && IsExtra(s, m) && e == ExtraEntry(s, m) {
    } else {
      var d :| d in s.doomed && e == DoomedEntry(s, d);
    }
  }

  /**
    A whole plan in which no path to be removed lies inside another, run in any order: it
    never stops with an error; every kept copy is still a real directory with everything
    outside the removed paths; every clone that blocks both kinds of removal is still there,
    and so is a blocked extra that is under no removed path; and everything kept under a copy
    that was replaced is reached through its old path.
  */
  lemma DedupeKeepsOneCopy(s: Scan, t: Tree, plan: seq<Entry>)
    requires Scanned(s, t) && Apart(plan)
    requires forall e :: e in plan <==> Planned(s, e)
    ensures RunPlan(t, plan).ok
    ensures var u := RunPlan(t, plan).tree;
      && (forall k | k in s.repos && IsKeeper(s, k) :: k.path in u.dirs)
      && (forall x | x in t.dirs :: x in u.dirs <==> !exists e :: Planned(s, e) && !e.why && Under(x, e.path))
      && (forall r | r in s.repos && s.blocked(r, false) && s.blocked(r, true) :: r.path in u.dirs)
      && (forall m, rest: string | m in s.repos && IsExtra(s, m) && !Why(s, m.path, Some(m), false) ::
            (rest == "" || rest[0] == '/') && Keeper(s, m.remote).value.path + rest in u.dirs ==>
            RealPath(u.links, m.path + rest) == Some(Keeper(s, m.remote).value.path + rest))
      && (forall m | m in s.repos && IsExtra(s, m) && Why(s, m.path, Some(m), false) ::
            m.path in u.dirs <==> !exists e :: Planned(s, e) && !e.why && Inside(m.path, e.path))
  {
    PlanIsReady(s, t, plan);
    ApartPlanDedupes(t, plan);
    var u := RunPlan(t, plan).tree;
    hide RunPlan, Why, Keeper, IsExtra, Scanned, RealPath;
    forall x | x in t.dirs ensures x in u.dirs <==> !exists e :: Planned(s, e) && !e.why && Under(x, e.path) {
      assert Gone(plan, x) <==> exists e :: Planned(s, e) && !e.why && Under(x, e.path);
    }
    forall k | k in s.repos && IsKeeper(s, k) ensures k.path in u.dirs {
      ScannedAt(s, t, k);
    }
    forall r | r in s.repos && s.blocked(r, false) && s.blocked(r, true) ensures r.path in u.dirs {
      ScannedAt(s, t, r);
      BlockerStays(s, t, r);
    }
    forall m, rest: string | m in s.repos && IsExtra(s, m) && !Why(s, m.path, Some(m), false)
      ensures (rest == "" || rest[0] == '/') && Keeper(s, m.remote).value.path + rest in u.dirs ==>
              RealPath(u.links, m.path + rest) == Some(Keeper(s, m.remote).value.path + rest)
    {
      ExtraIsLinked(s, plan, m);
      if (rest == "" || rest[0] == '/') && Keeper(s, m.remote).value.path + rest in u.dirs {
        OneHop(u, m.path, Keeper(s, m.remote).value.path, rest);
      }
    }
    forall m | m in s.repos && IsExtra(s, m) && Why(s, m.path, Some(m), false)
      ensures m.path in u.dirs <==> !exists e :: Planned(s, e) && !e.why && Inside(m.path, e.path)
    {
      ScannedAt(s, t, m);
      BlockedIsNotItsOwn(s, t, m);
    }
  }

  /** A clone that blocks whichever way it is asked about lies under no removed path. */
  lemma BlockerStays(s: Scan, t: Tree, r: Repo)
    requires Scanned(s, t) && r in s.repos && s.blocked(r, false) && s.blocked(r, true)
    ensures !exists e :: Planned(s, e) && !e.why && Under(r.path, e.path)
  {
    hide Planned, Under;
    forall e | Planned(s, e) && !e.why ensures !Under(r.path, e.path) {
      if Under(r.path, e.path) { UnblockedCoversNoBlocker(s, e, r); }
    }
  }

  /** No unblocked entry is at the path of a blocked extra. */
  lemma BlockedIsNotItsOwn(s: Scan, t: Tree, m: Repo)
    requires Scanned(s, t) && m in s.repos && IsExtra(s, m) && Why(s, m.path, Some(m), false)
    ensures forall e | Planned(s, e) && !e.why :: e.path != m.path
  {
    hide Why, Keeper;
    forall e | Planned(s, e) && !e.why ensures e.path != m.path {
      if x :| x in s.repos && IsExtra(s, x) && e == ExtraEntry(s, x) {
        if x.path == m.path { SamePathSameRepo(s.repos, x, m); }
      } else {
        var d :| d in s.doomed && e == DoomedEntry(s, d);
      }
    }
  }

  lemma ScannedAt(s: Scan, t: Tree, r: Repo)
    requires Scanned(s, t) && r in s.repos
    ensures r.path in t.dirs
  {
  }

  lemma ExtraIsLinked(s: Scan, plan: seq<Entry>, m: Repo)
    requires forall e :: e in plan <==> Planned(s, e)
    requires m in s.repos && IsExtra(s, m) && !Why(s, m.path, Some(m), false)
    ensures Linked(plan, m.path, Keeper(s, m.remote).value.path)
  {
    assert Planned(s, ExtraEntry(s, m));
    assert ExtraEntry(s, m) in plan;
  }

  // ----- planned paths inside one another

  lemma RemovedKeepsOthers(t: Tree, p: Path, x: Path)
    ensures x in Removed(t, p).dirs <==> x in t.dirs && !Under(x, p)
  {
  }

  /** Making a link takes no directory and no other link. */
  lemma LinkingOnlyAdds(t: Tree, e: Entry)
    ensures LinkToKeeper(t, e).Some? ==>
      && LinkToKeeper(t, e).value.dirs == t.dirs
      && forall x | x in t.links :: x in LinkToKeeper(t, e).value.links && LinkToKeeper(t, e).value.links[x] == t.links[x]
  {
    hide Resolve, RealPath;
  }

  lemma LinkingKeepsWellFormed(t: Tree, e: Entry)
    requires WellFormed(t)
    ensures LinkToKeeper(t, e).Some? ==> WellFormed(LinkToKeeper(t, e).value)
  {
    hide Resolve, RealPath;
  }

  /** Whatever was at `x`, directory or link, still is. */
  predicate StillThere(t: Tree, u: Tree, x: Path) {
    (x in t.dirs ==> x in u.dirs) && (x in t.links ==> x in u.links && u.links[x] == t.links[x])
  }

  /** An entry whose path is there takes nothing outside it. */
  lemma StepStaysInside(t: Tree, e: Entry)
    requires WellFormed(t) && e.path in t.dirs
    ensures WellFormed(Step(t, e).tree)
    ensures forall x | e.why || !Under(x, e.path) :: StillThere(t, Step(t, e).tree, x)
    ensures Step(t, e).tree.dirs == if e.why then t.dirs else Removed(t, e.path).dirs
  {
    PlaceResolvesToItself(t, e.path, MAX_LINKS);
    var r := Removed(t, e.path);
    RemovalKeepsParents(t, e.path);
    LinkingKeepsWellFormed(r, e);
    LinkingOnlyAdds(r, e);
    hide LinkToKeeper, Resolve, Under, WellFormed;
  }

  /** Something outside the path of `o`, a directory or a link, is gone or changed. */
  ghost predicate Lost(t: Tree, o: Entry, u: Tree) {
    exists x | !Under(x, o.path) :: !StillThere(t, u, x)
  }

  /** The link at `q` is removed and made again just as it was. */
  ghost predicate SameLinkAgain(u: Tree, i: Entry, q: Path)
    requires q in u.links
  {
    var links := Removed(u, q).links;
    i.keeper.Some? && Resolve(links, i.path, MAX_LINKS) == Some(q) && RealPath(links, i.keeper.value.path) == Some(u.links[q])
  }

  /** Looked up once `o` was replaced by its link, the path of `i` is a directory, or a link
      that does not come back, of the kept copy or of wherever its own links lead. */
  ghost predicate KeptPart(t: Tree, o: Entry, i: Entry) {
    var u := Step(t, o).tree;
    var q := Resolve(u.links, i.path, MAX_LINKS);
    q.Some? && (q.value in u.dirs || (q.value in u.links && q.value != o.path && !SameLinkAgain(u, i, q.value)))
  }

  ghost predicate Nested(t: Tree, o: Entry, i: Entry, rest: string) {
    && WellFormed(t) && o.path in t.dirs && i.path in t.dirs
    && |rest| > 0 && rest[0] == '/' && i.path == o.path + rest
    && (o.keeper.Some? ==> o.keeper.value.path in t.dirs && !Under(o.keeper.value.path, o.path))
  }

  lemma NestedIsInside(o: Path, i: Path, rest: string)
    requires |rest| > 0 && rest[0] == '/' && i == o + rest
    ensures Inside(i, o) && !Under(o, i)
  {
    assert i[..|o|] == o && i[|o|] == rest[0];
  }

  lemma StillThereTwice(t: Tree, u: Tree, v: Tree, x: Path)
    requires StillThere(t, u, x) && StillThere(u, v, x)
    ensures StillThere(t, v, x)
  {
  }

  /** Inner entry first: both stay inside the outer path. */
  lemma InnerFirstLosesNothing(t: Tree, o: Entry, i: Entry, rest: string)
    requires Nested(t, o, i, rest)
    ensures !Lost(t, o, RunPlan(t, [i, o]).tree)
  {
    NestedIsInside(o.path, i.path, rest);
    StepStaysInside(t, i);
    var u := Step(t, i);
    if u.ok { StepStaysInside(u.tree, o); }
    TwoSteps(t, i, o);
    hide Step, RunPlan, WellFormed, StillThere;
    forall x | !Under(x, o.path) ensures StillThere(t, RunPlan(t, [i, o]).tree, x) {
      if Under(x, i.path) { UnderTrans(x, i.path, o.path); }
      if u.ok { StillThereTwice(t, u.tree, Step(u.tree, o).tree, x); }
    }
  }

  lemma TwoSteps(t: Tree, e: Entry, f: Entry)
    ensures RunPlan(t, [e, f]) == if Step(t, e).ok then Step(Step(t, e).tree, f) else Step(t, e)
  {
    hide Step;
    assert [e, f][..1] == [e] && [e][..0] == [];
    assert RunPlan(t, []) == Run(t, true);
    assert RunPlan(t, [e]) == Step(t, e);
  }

  lemma {:induction false} ResolvesSomewhere(links: map<Path, Path>, p: Path, fuel: nat)
    requires p != ""
    ensures Resolve(links, p, fuel).Some? ==> Resolve(links, p, fuel).value != ""
    decreases fuel
  {
    var j := LinkAt(links, p, 0);
    if j < |p| && fuel > 0 { ResolvesSomewhere(links, links[p[..j]] + p[j..], fuel - 1); }
  }

  lemma NothingBelow(t: Tree, q: Path)
    requires WellFormed(t) && q != "" && q !in t.dirs
    ensures forall x | (x in t.dirs || x in t.links) && Under(x, q) :: x == q
  {
    assert forall x | Inside(x, q) :: x[..|q|] == q;
  }

  /** Where a path leads to nothing, removing it does nothing. */
  lemma NothingToRemove(t: Tree, q: Path)
    requires WellFormed(t) && q != "" && q !in t.dirs && q !in t.links
    ensures Removed(t, q) == t
  {
    NothingBelow(t, q);
  }

  lemma InnerAfterRemoval(t: Tree, o: Path, i: Entry, rest: string)
    requires WellFormed(t) && o in t.dirs && |rest| > 0 && rest[0] == '/' && i.path == o + rest
    ensures var r := Removed(t, o);
      && Resolve(r.links, i.path, MAX_LINKS) == Some(i.path) && i.path !in r.dirs && i.path !in r.links
      && LinkToKeeper(r, i) == if i.keeper.Some? then None else Some(r)
  {
    NestedIsInside(o, i.path, rest);
    var r := Removed(t, o);
    forall j | 0 <= j < |i.path| && i.path[j] == '/' ensures i.path[..j] !in r.links {
      if j < |o| {
        assert i.path[..j] == o[..j] && i.path[j] == o[j];
        assert o[..0] == "";
      } else {
        assert i.path[..j][..|o|] == o;
        assert j > |o| ==> i.path[..j][|o|] == '/';
      }
    }
    assert LinkAt(r.links, i.path, 0) == |i.path|;
    assert i.path[..|o|] == o && o !in r.dirs && 0 < |o|;
  }

  /** The outer path removed outright: the inner entry finds nothing. */
  lemma OuterGoneLosesNothing(t: Tree, o: Entry, i: Entry, rest: string)
    requires Nested(t, o, i, rest) && !o.why && !i.why && o.keeper.None?
    ensures !Lost(t, o, RunPlan(t, [o, i]).tree)
  {
    StepDoesOnePath(t, o);
    StepStaysInside(t, o);
    InnerAfterRemoval(t, o.path, i, rest);
    var u := Step(t, o).tree;
    assert u == Removed(t, o.path);
    NestedIsInside(o.path, i.path, rest);
    NothingToRemove(u, i.path);
    TwoSteps(t, o, i);
    assert Step(u, i).tree == u;
    hide RunPlan, WellFormed, StillThere, Step, Under;
  }

  /** The second step, once the path of `i` leads to `q`. */
  lemma SecondStepLosesIff(u: Tree, o: Path, i: Entry, q: Path)
    requires WellFormed(u) && o in u.links && !i.why
    requires Resolve(u.links, i.path, MAX_LINKS) == Some(q) && q != ""
    ensures (exists x | !Under(x, o) :: !StillThere(u, Step(u, i).tree, x)) <==>
              q in u.dirs || (q in u.links && q != o && !SameLinkAgain(u, i, q))
  {
    var r, v := Removed(u, q), Step(u, i).tree;
    LinkingOnlyAdds(r, i);
    NotBelowALink(u, o);
    if q in u.dirs {
      assert q !in v.dirs && !Under(q, o);
      assert !StillThere(u, v, q);
    } else if q in u.links {
      OneLinkGoes(u, o, i, q);
    } else {
      NothingToRemove(u, q);
      hide LinkToKeeper, Resolve, Under, WellFormed;
    }
  }

  lemma NotBelowALink(u: Tree, o: Path)
    requires WellFormed(u) && o in u.links
    ensures forall x | x in u.dirs || x in u.links :: Under(x, o) ==> x == o
  {
    NothingBelow(u, o);
  }

  lemma OneLinkGoes(u: Tree, o: Path, i: Entry, q: Path)
    requires WellFormed(u) && o in u.links && q in u.links && !i.why
    requires Resolve(u.links, i.path, MAX_LINKS) == Some(q) && q != ""
    ensures (exists x | !Under(x, o) :: !StillThere(u, Step(u, i).tree, x)) <==> q != o && !SameLinkAgain(u, i, q)
  {
    var r, v := Removed(u, q), Step(u, i).tree;
    NothingBelow(u, q);
    NotBelowALink(u, o);
    LinkingOnlyAdds(r, i);
    assert forall x | x != q :: StillThere(u, v, x);
    LinkComesBackIff(u, i, q);
    hide Resolve, RealPath, LinkToKeeper, Step, WellFormed, Removed;
    if q != o { assert !Under(q, o); }
  }

  lemma LinkComesBackIff(u: Tree, i: Entry, q: Path)
    requires WellFormed(u) && q in u.links && !i.why && q != ""
    requires Resolve(u.links, i.path, MAX_LINKS) == Some(q)
    ensures StillThere(u, Step(u, i).tree, q) <==> SameLinkAgain(u, i, q)
  {
    var r := Removed(u, q);
    NothingBelow(u, q);
    forall k | 0 < k < |q| && q[k] == '/' ensures q[..k] in r.dirs { ShorterIsNotUnder(q, k); }
    assert Free(r, q);
    hide Resolve, RealPath, WellFormed;
  }

  /** Outer entry first, not blocked: what the inner one does then. */
  lemma OuterFirst(t: Tree, o: Entry, i: Entry, rest: string)
    requires Nested(t, o, i, rest) && !o.why && !i.why && o.keeper.Some?
    ensures Lost(t, o, RunPlan(t, [o, i]).tree) <==> KeptPart(t, o, i)
  {
    NestedIsInside(o.path, i.path, rest);
    StepDoesOnePath(t, o);
    StepStaysInside(t, o);
    TwoSteps(t, o, i);
    var u := Step(t, o).tree;
    var q := Resolve(u.links, i.path, MAX_LINKS);
    ResolvesSomewhere(u.links, i.path, MAX_LINKS);
    if q.Some? {
      SecondStepLosesIff(u, o.path, i, q.value);
    } else {
      assert Step(u, i).tree == u by { hide Resolve; }
    }
    OutsideIsTheSame(t, o, u, Step(u, i).tree);
    hide Step, RunPlan, Resolve, WellFormed, Removed, LinkToKeeper, Nested, Under, StillThere;
  }

  lemma OutsideIsTheSame(t: Tree, o: Entry, u: Tree, v: Tree)
    requires o.keeper.Some? && u.dirs == Removed(t, o.path).dirs
    requires u.links == Removed(t, o.path).links[o.path := o.keeper.value.path]
    ensures Lost(t, o, v) <==> exists x | !Under(x, o.path) :: !StillThere(u, v, x)
  {
    assert forall x | !Under(x, o.path) :: StillThere(t, v, x) <==> StillThere(u, v, x);
  }

  /** Exactly when one of two planned paths, lying inside the other, costs a directory or a link
      outside both: neither is blocked, the outer one is replaced by a link and comes first, and the
      kept copy has that part. Finished or stopped by an error makes no difference. */
  lemma NestedPairLosesIff(t: Tree, o: Entry, i: Entry, rest: string, plan: seq<Entry>)
    requires Nested(t, o, i, rest) && (plan == [o, i] || plan == [i, o])
    ensures Lost(t, o, RunPlan(t, plan).tree) <==>
              plan == [o, i] && !o.why && !i.why && o.keeper.Some? && KeptPart(t, o, i)
  {
    NestedIsInside(o.path, i.path, rest);
    assert o != i && [o, i][0] == o && [i, o][0] == i;
    if plan == [i, o] {
      InnerFirstLosesNothing(t, o, i, rest);
    } else if !o.why && !i.why {
      if o.keeper.Some? { OuterFirst(t, o, i, rest); } else { OuterGoneLosesNothing(t, o, i, rest); }
    } else {
      OneBlockedLosesNothing(t, o, i);
    }
  }

  lemma OneBlockedLosesNothing(t: Tree, o: Entry, i: Entry)
    requires WellFormed(t) && o.path in t.dirs && i.path in t.dirs && Inside(i.path, o.path)
    requires o.why || i.why
    ensures !Lost(t, o, RunPlan(t, [o, i]).tree)
  {
    StepStaysInside(t, o);
    TwoSteps(t, o, i);
    if o.why { StepStaysInside(t, i); }
    hide RunPlan, WellFormed, RemoveTree, LinkToKeeper, StillThere;
    forall x | !Under(x, o.path) ensures StillThere(t, RunPlan(t, [o, i]).tree, x) {
      if Under(x, i.path) { UnderTrans(x, i.path, o.path); }
    }
  }

  /** Where no link lies on the way, the kept copy has that part exactly when it is there. */
  lemma KeptPartIs(t: Tree, o: Entry, i: Entry, rest: string)
    requires Nested(t, o, i, rest) && !o.why && o.keeper.Some?
    requires forall l | l in t.links :: !Under(o.keeper.value.path + rest, l)
    requires !Under(o.keeper.value.path + rest, o.path)
    ensures KeptPart(t, o, i) <==> o.keeper.value.path + rest in t.dirs
  {
    StepDoesOnePath(t, o);
    NestedIsInside(o.path, i.path, rest);
    var u, k, q := Step(t, o).tree, o.keeper.value.path, o.keeper.value.path + rest;
    assert i.path[..|o.path|] == o.path && i.path[|o.path|..] == rest;
    FirstLinkIs(u, o.path, i.path);
    assert forall l | l in u.links :: l == o.path || l in t.links;
    assert forall l | l in u.links :: !Under(q, l);
    forall j | 0 <= j < |q| && q[j] == '/' ensures q[..j] !in u.links {
      assert Under(q, q[..j]);
    }
    assert LinkAt(u.links, q, 0) == |q|;
    assert Resolve(u.links, q, MAX_LINKS - 1) == Some(q);
    assert Resolve(u.links, i.path, MAX_LINKS) == Some(q);
  }

  /** Two clones of one remote, `a` the newer, with a newer and an older clone of another
      remote at `rest` in each; nothing else is selected, and what is inside is smaller. */
  ghost predicate NestedClones(s: Scan, t: Tree, a: Repo, ai: Repo, b: Repo, bi: Repo, rest: string) {
    && Scanned(s, t) && s.doomed == []
    && a in s.repos && ai in s.repos && b in s.repos && bi in s.repos
    && Selected(s, a) && Selected(s, ai) && a.remote == b.remote && ai.remote == bi.remote && a.remote != ai.remote
    && (forall r | r in s.repos && Selected(s, r) :: r == a || r == ai || r == b || r == bi)
    && Newer(a, b) && Newer(ai, bi)
    && (forall r, big :: !s.blocked(r, big)) && (forall p :: !s.busy(p) && !s.submodule(p))
    && |rest| > 0 && rest[0] == '/' && ai.path == a.path + rest && bi.path == b.path + rest
    && !Under(a.path, b.path) && !Under(ai.path, b.path)
    && (forall r | r in s.repos && Inside(r.path, b.path) :: r == bi)
    && (forall x, y | x in s.repos && y in s.repos && Inside(x.path, y.path) :: s.size(x.path) < s.size(y.path))
  }

  lemma NewerOfTwoIsKept(s: Scan, first: Repo, second: Repo)
    requires first in s.repos && second in s.repos && first.remote == second.remote
    requires forall r | r in s.repos && Selected(s, r) && r.remote == first.remote :: r == first || r == second
    requires Selected(s, first) && Newer(first, second) && s.doomed == []
    ensures Keeper(s, first.remote) == Some(first)
  {
    var g := Group(s, s.repos, first.remote);
    assert first in g && second in g && first != second;
    assert first in Pool(s, g);
    assert Best(Pool(s, g)) in Pool(s, g);
  }

  lemma NestedClonesArePlanned(s: Scan, t: Tree, a: Repo, ai: Repo, b: Repo, bi: Repo, rest: string)
    requires NestedClones(s, t, a, ai, b, bi, rest)
    ensures forall e :: Planned(s, e) <==> e == Entry(b.path, Some(a), false) || e == Entry(bi.path, Some(ai), false)
    ensures IsKeeper(s, a) && IsKeeper(s, ai)
  {
    NewerOfTwoIsKept(s, a, b);
    NewerOfTwoIsKept(s, ai, bi);
    NestedIsInside(b.path, bi.path, rest);
    hide Keeper, WellFormed, DistinctPaths, Selected;
    forall r | r in s.repos && Inside(r.path, bi.path) ensures false {
      UnderTrans(r.path, bi.path, b.path);
    }
    ExtraIsPlanned(s, b, a);
    ExtraIsPlanned(s, bi, ai);
    hide Why, Planned, Inside;
    OnlyTwoPlanned(s, a, ai, b, bi);
  }

  lemma OnlyTwoPlanned(s: Scan, a: Repo, ai: Repo, b: Repo, bi: Repo)
    requires s.doomed == [] && b in s.repos && bi in s.repos && IsExtra(s, b) && IsExtra(s, bi)
    requires forall r | r in s.repos && Selected(s, r) :: r == a || r == ai || r == b || r == bi
    requires IsKeeper(s, a) && IsKeeper(s, ai)
    ensures forall e :: Planned(s, e) <==> e == ExtraEntry(s, b) || e == ExtraEntry(s, bi)
  {
    hide Keeper, Why, Selected;
    forall m | m in s.repos && IsExtra(s, m) ensures m == b || m == bi { }
  }

  lemma ExtraIsPlanned(s: Scan, m: Repo, k: Repo)
    requires m in s.repos && Selected(s, m) && Keeper(s, m.remote) == Some(k) && k != m && s.doomed == []
    requires (forall r, big :: !s.blocked(r, big)) && (forall p :: !s.busy(p) && !s.submodule(p))
    requires forall r | r in s.repos && Inside(r.path, m.path) :: Keeper(s, r.remote) != Some(r)
    ensures IsExtra(s, m) && ExtraEntry(s, m) == Entry(m.path, Some(k), false) && Planned(s, Entry(m.path, Some(k), false))
  {
    hide Keeper, Selected, Inside;
    assert IsExtra(s, m);
    assert !Why(s, m.path, Some(m), false);
  }

  /** The larger of two planned trees goes first. */
  lemma LargerGoesFirst(s: Scan, plan: seq<Entry>, o: Entry, i: Entry)
    requires NoTwice(plan) && BySize(s, plan) && o != i && s.size(i.path) < s.size(o.path)
    requires forall e :: e in plan <==> e == o || e == i
    ensures plan == [o, i]
  {
    assert o in plan && i in plan;
    var j :| 0 <= j < |plan| && plan[j] == o;
    var k :| 0 <= k < |plan| && plan[k] == i;
    assert j < k;
    forall m | 0 <= m < |plan| ensures plan[m] == o || plan[m] == i { assert plan[m] in plan; }
    var last := |plan| - 1;
    assert plan[0] == o && plan[1] == i && (plan[last] == o || plan[last] == i);
  }

  /** Such a plan passes every check, is made in the losing order, and deletes the kept `ai`. */
  lemma NestedClonesLoseKeptCopy(s: Scan, t: Tree, a: Repo, ai: Repo, b: Repo, bi: Repo, rest: string, plan: seq<Entry>)
    requires NestedClones(s, t, a, ai, b, bi, rest) && PlanOf(s, plan)
    ensures plan == [Entry(b.path, Some(a), false), Entry(bi.path, Some(ai), false)]
    ensures IsKeeper(s, ai) && ai.path in t.dirs && ai.path !in RunPlan(t, plan).tree.dirs
  {
    NestedClonesArePlanned(s, t, a, ai, b, bi, rest);
    NestedIsInside(b.path, bi.path, rest);
    var o, i := Entry(b.path, Some(a), false), Entry(bi.path, Some(ai), false);
    hide Planned, Keeper, DistinctPaths, Selected, Newer, WellFormed, Step, RunPlan;
    assert s.size(i.path) < s.size(o.path);
    LargerGoesFirst(s, plan, o, i);
    NestedStepDeletes(t, o, i, rest);
  }

  /** The inner removal deletes that part of the kept copy, whatever comes of its own link. */
  lemma NestedStepDeletes(t: Tree, o: Entry, i: Entry, rest: string)
    requires Nested(t, o, i, rest) && !o.why && !i.why && o.keeper.Some?
    requires o.keeper.value.path + rest in t.dirs && !Under(o.keeper.value.path + rest, o.path)
    ensures o.keeper.value.path + rest !in RunPlan(t, [o, i]).tree.dirs
  {
    NestedPlanReachesKeptCopy(t, o, i, rest);
    TwoSteps(t, o, i);
    var u, q := Step(t, o).tree, o.keeper.value.path + rest;
    LinkingOnlyAdds(Removed(u, q), i);
    RemovedKeepsOthers(u, q, q);
    StepDoesOnePath(t, o);
    hide LinkToKeeper, Resolve, Removed;
  }

  /** With the outer path replaced, the removal of the inner one is one of the kept copy's part. */
  lemma NestedPlanReachesKeptCopy(t: Tree, o: Entry, i: Entry, rest: string)
    requires Nested(t, o, i, rest) && !o.why && o.keeper.Some?
    requires o.keeper.value.path + rest in t.dirs && !Under(o.keeper.value.path + rest, o.path)
    ensures var u := Step(t, o).tree;
      && o.keeper.value.path + rest in u.dirs
      && RemoveTree(u, i.path) == Some(Removed(u, o.keeper.value.path + rest))
  {
    StepDoesOnePath(t, o);
    NestedIsInside(o.path, i.path, rest);
    var u, q := Step(t, o).tree, o.keeper.value.path + rest;
    assert i.path[..|o.path|] == o.path && i.path[|o.path|..] == rest;
    FirstLinkIs(u, o.path, i.path);
    PlaceResolvesToItself(u, q, MAX_LINKS - 1);
  }

  lemma FourPlaces(t: Tree, p: Path, q: Path)
    requires |p| == |q| == 2 && p[1] != '/' && q[1] != '/'
    requires t == Tree({p, p + "/i", q, q + "/i"}, map[])
    ensures WellFormed(t)
  {
    assert (p + "/i")[..2] == p && (q + "/i")[..2] == q;
    assert (p + "/i")[1] == p[1] && (q + "/i")[1] == q[1] && (p + "/i")[3] == 'i' == (q + "/i")[3];
  }

  lemma FourPaths(p: Path, q: Path)
    requires |p| == |q| == 2 && p[1] != q[1]
    ensures Inside(p + "/i", p) && Inside(q + "/i", q) && p + "/i" != q + "/i"
    ensures !Under(p, q) && !Under(p + "/i", q) && !Inside(p, p) && !Inside(q, p)
    ensures !Inside(p, p + "/i") && !Inside(p, q + "/i") && !Inside(p + "/i", p + "/i") && !Inside(p + "/i", q + "/i")
  {
    assert (p + "/i")[..2] == p && (p + "/i")[1] == p[1] && (q + "/i")[..2] == q && (q + "/i")[1] == q[1];
  }

  /** Four clean clones are one example, in "/a", "/a/i", "/b" and "/b/i" say. */
  lemma NestedClonesExist(s: Scan, t: Tree, p: Path, q: Path, a: Repo, ai: Repo, b: Repo, bi: Repo)
    requires |p| == |q| == 2 && p[1] != q[1] && p[1] != '/' && q[1] != '/'
    requires a == Repo(p, "x", 2, 0) && ai == Repo(p + "/i", "y", 2, 0)
    requires b == Repo(q, "x", 1, 0) && bi == Repo(q + "/i", "y", 1, 0)
    requires s.repos == [a, ai, b, bi] && s.all && s.doomed == []
    requires (forall r, big :: !s.blocked(r, big)) && (forall x :: !s.busy(x) && !s.submodule(x))
    requires forall x :: s.size(x) == if |x| == 2 then 2 else 1
    requires t == Tree({p, p + "/i", q, q + "/i"}, map[])
    ensures NestedClones(s, t, a, ai, b, bi, "/i")
  {
    FourAreScanned(s, t, p, q);
    FourPaths(p, q);
    FourPaths(q, p);
    hide Scanned, Inside;
    FourSizes(s, p, q);
  }

  lemma FourSizes(s: Scan, p: Path, q: Path)
    requires |p| == |q| == 2 && forall r | r in s.repos :: r.path in [p, p + "/i", q, q + "/i"]
    requires forall x :: s.size(x) == if |x| == 2 then 2 else 1
    ensures forall x, y | x in s.repos && y in s.repos && Inside(x.path, y.path) :: s.size(x.path) < s.size(y.path)
  {
    forall x, y | x in s.repos && y in s.repos && Inside(x.path, y.path) ensures s.size(x.path) < s.size(y.path) {
      InsideIsLonger(x.path, y.path);
      TwoOrFour(p, q, x.path);
      TwoOrFour(p, q, y.path);
    }
  }

  lemma TwoOrFour(p: Path, q: Path, x: Path)
    requires |p| == |q| == 2 && x in [p, p + "/i", q, q + "/i"]
    ensures |x| == 2 || |x| == 4
  {
  }

  lemma InsideIsLonger(p: Path, q: Path)
    ensures Inside(p, q) ==> |p| > |q|
  {
  }

  lemma FourAreScanned(s: Scan, t: Tree, p: Path, q: Path)
    requires |p| == |q| == 2 && p[1] != q[1] && p[1] != '/' && q[1] != '/'
    requires s.repos == [Repo(p, "x", 2, 0), Repo(p + "/i", "y", 2, 0), Repo(q, "x", 1, 0), Repo(q + "/i", "y", 1, 0)]
    requires s.doomed == [] && t == Tree({p, p + "/i", q, q + "/i"}, map[])
    ensures Scanned(s, t)
  {
    FourPlaces(t, p, q);
    FourPaths(p, q);
    hide WellFormed, Inside;
  }
}
