/**
  Keeping one copy of every duplicated clone (scripts/dedupe-clones.py): which copy stays,
  which of the others may go, and what deleting and linking them one by one does to the
  file tree.
*/
module Dedupe {
  import opened Prelude

  type Path = string

  function Under(a: Path, b: Path): bool {
    a == b || Inside(a, b)
  }

  predicate Inside(a: Path, b: Path) {
    |a| > |b| && a[..|b|] == b && a[|b|] == '/'
  }

  lemma UnderTrans(a: Path, b: Path, c: Path)
    requires Under(a, b) && Under(b, c)
    ensures Under(a, c) && (Inside(a, b) || Inside(b, c) ==> Inside(a, c))
  {
    if Inside(a, b) && Inside(b, c) {
      assert a[..|c|] == a[..|b|][..|c|] == c;
      assert a[|c|] == a[..|b|][|c|];
    }
  }

  // ----- the plan

  datatype Repo = Repo(path: Path, remote: string, headTime: int, touched: int)

  /** A scan of the tree, the options, and what git, /proc and du say about each copy. */
  datatype Scan = Scan(repos: seq<Repo>, all: bool, targets: set<string>, doomed: seq<Path>,
                       blocked: (Repo, bool) -> bool, busy: Path -> bool, submodule: Path -> bool, size: Path -> nat)

  predicate Selected(s: Scan, r: Repo) {
    Wanted(s, r.remote)
  }

  predicate Wanted(s: Scan, remote: string) {
    remote != "" && (s.all || remote in s.targets)
  }

  predicate Doomed(s: Scan, p: Path) {
    exists d | d in s.doomed :: Under(p, d)
  }

  function Group(s: Scan, rs: seq<Repo>, remote: string): (g: seq<Repo>)
    ensures forall r :: r in g <==> r in rs && Selected(s, r) && r.remote == remote
  {
    if |rs| == 0 then []
    else Group(s, rs[..|rs| - 1], remote)
         + if Selected(s, rs[|rs| - 1]) && rs[|rs| - 1].remote == remote then [rs[|rs| - 1]] else []
  }

  function Pool(s: Scan, g: seq<Repo>): (p: seq<Repo>)
    ensures forall r :: r in p <==> r in g && !Doomed(s, r.path)
  {
    if |g| == 0 then []
    else Pool(s, g[..|g| - 1]) + if Doomed(s, g[|g| - 1].path) then [] else [g[|g| - 1]]
  }

  predicate Newer(a: Repo, b: Repo) {
    a.headTime > b.headTime || (a.headTime == b.headTime && a.touched > b.touched)
  }

  /** max(pool, key=(head_time, touched)): the first of the newest. */
  function Best(pool: seq<Repo>): (r: Repo)
    requires |pool| > 0
    ensures r in pool && forall x | x in pool :: !Newer(x, r)
  {
    if |pool| == 1 then pool[0]
    else
      var b := Best(pool[..|pool| - 1]);
      assert pool == pool[..|pool| - 1] + [pool[|pool| - 1]];
      if Newer(pool[|pool| - 1], b) then pool[|pool| - 1] else b
  }

  /** The kept copy of a remote cloned more than once, outside the removal list. */
  function Keeper(s: Scan, remote: string): (k: Option<Repo>)
    ensures k.Some? ==> forall x | x in s.repos && Selected(s, x) && x.remote == remote && !Doomed(s, x.path) :: !Newer(x, k.value)
    ensures k.Some? ==> k.value in s.repos && Selected(s, k.value) && k.value.remote == remote && !Doomed(s, k.value.path)
  {
    var g := Group(s, s.repos, remote);
    if |g| < 2 || |Pool(s, g)| == 0 then None else Some(Best(Pool(s, g)))
  }

  predicate IsKeeper(s: Scan, r: Repo) {
    Keeper(s, r.remote) == Some(r)
  }

  /** A clone of `remote`, a remote looked at, outside the removal list. */
  ghost predicate Candidate(s: Scan, remote: string, x: Repo) {
    && x.remote == remote && remote != "" && (s.all || remote in s.targets)
    && forall d | d in s.doomed :: !Under(x.path, d)
  }

  ghost predicate Cloned(rs: seq<Repo>, remote: string) {
    exists i | 0 <= i < |rs| :: rs[i].remote == remote
  }

  /** Cloned more than once, clones on the removal list included. */
  ghost predicate ClonedTwice(rs: seq<Repo>, remote: string) {
    exists i, j | 0 <= i < j < |rs| :: rs[i].remote == remote == rs[j].remote
  }

  /** `k` is the first of the newest candidates of its remote. */
  ghost predicate FirstOfNewest(s: Scan, rs: seq<Repo>, k: Repo) {
    && Candidate(s, k.remote, k)
    && (forall x | x in rs && Candidate(s, k.remote, x) ::
          x.headTime <= k.headTime && (x.headTime == k.headTime ==> x.touched <= k.touched))
    && exists j | 0 <= j < |rs| && rs[j] == k :: forall i | 0 <= i < j && Candidate(s, k.remote, rs[i]) :: Newer(k, rs[i])
  }

  /** Which copy is kept, if any. */
  ghost predicate KeptCopy(s: Scan, k: Repo) {
    ClonedTwice(s.repos, k.remote) && FirstOfNewest(s, s.repos, k)
  }

  lemma GroupOneMore(s: Scan, rs: seq<Repo>, remote: string, x: Repo)
    ensures Group(s, rs + [x], remote) == Group(s, rs, remote) + if Wanted(s, remote) && x.remote == remote then [x] else []
    ensures Pool(s, Group(s, rs + [x], remote)) ==
              Pool(s, Group(s, rs, remote)) + if Candidate(s, remote, x) then [x] else []
  {
    assert (rs + [x])[..|rs|] == rs;
    var g := Group(s, rs, remote);
    assert (g + [x])[..|g|] == g;
    assert g + [] == g;
  }

  lemma {:induction false} GroupTwoIff(s: Scan, rs: seq<Repo>, remote: string)
    ensures |Group(s, rs, remote)| >= 1 <==> Wanted(s, remote) && Cloned(rs, remote)
    ensures |Group(s, rs, remote)| >= 2 <==> Wanted(s, remote) && ClonedTwice(rs, remote)
  {
    if |rs| > 0 {
      var init, x := rs[..|rs| - 1], rs[|rs| - 1];
      assert rs == init + [x];
      GroupTwoIff(s, init, remote);
      GroupOneMore(s, init, remote, x);
      TwiceOneMore(init, x, remote);
      hide Group, Pool, Wanted, Cloned, ClonedTwice, Candidate;
    }
  }

  lemma TwiceOneMore(rs: seq<Repo>, x: Repo, remote: string)
    ensures Cloned(rs + [x], remote) <==> Cloned(rs, remote) || x.remote == remote
    ensures ClonedTwice(rs + [x], remote) <==> ClonedTwice(rs, remote) || (x.remote == remote && Cloned(rs, remote))
  {
    var all := rs + [x];
    assert all[|rs|] == x && forall i | 0 <= i < |rs| :: all[i] == rs[i];
    if i, j :| 0 <= i < j < |rs| && rs[i].remote == remote == rs[j].remote { assert all[i].remote == remote == all[j].remote; }
    if i :| 0 <= i < |rs| && rs[i].remote == remote { assert x.remote == remote ==> all[i].remote == remote == all[|rs|].remote; }
  }

  lemma {:induction false} BestIsFirst(s: Scan, rs: seq<Repo>, remote: string)
    ensures var pool := Pool(s, Group(s, rs, remote));
      && (|pool| > 0 <==> exists x | x in rs :: Candidate(s, remote, x))
      && (|pool| > 0 ==> FirstOfNewest(s, rs, Best(pool)) && Best(pool).remote == remote)
  {
    hide Group, Pool, Candidate;
    if |rs| == 0 {
      NoGroup(s, remote);
    } else {
      var init, x := rs[..|rs| - 1], rs[|rs| - 1];
      assert rs == init + [x];
      BestIsFirst(s, init, remote);
      GroupOneMore(s, init, remote, x);
      BestOneMore(s, init, x, remote, Pool(s, Group(s, init, remote)));
    }
  }

  lemma NoGroup(s: Scan, remote: string)
    ensures Pool(s, Group(s, [], remote)) == []
  {
  }

  lemma BestOneMore(s: Scan, rs: seq<Repo>, x: Repo, remote: string, pool: seq<Repo>)
    requires |pool| > 0 <==> exists y | y in rs :: Candidate(s, remote, y)
    requires |pool| > 0 ==> FirstOfNewest(s, rs, Best(pool)) && Best(pool).remote == remote
    ensures var more := pool + if Candidate(s, remote, x) then [x] else [];
      |more| > 0 ==> FirstOfNewest(s, rs + [x], Best(more)) && Best(more).remote == remote
  {
    var all := rs + [x];
    assert all[|rs|] == x && forall i | 0 <= i < |rs| :: all[i] == rs[i];
    if Candidate(s, remote, x) {
      assert x.remote == remote;
      hide Candidate;
      assert (pool + [x])[..|pool|] == pool;
      if |pool| > 0 && !Newer(x, Best(pool)) {
        assert FirstOfNewest(s, all, Best(pool));
      } else {
        assert forall i | 0 <= i < |rs| && Candidate(s, remote, rs[i]) :: Newer(x, rs[i]);
        assert FirstOfNewest(s, all, x);
      }
    } else {
      assert pool + [] == pool;
    }
  }

  /** The keeper of a remote is its kept copy, and there is one exactly when the remote is looked
      at, cloned more than once, and not only inside the removal list. */
  lemma KeeperIff(s: Scan, remote: string, k: Repo)
    ensures Keeper(s, remote) == Some(k) <==> k.remote == remote && KeptCopy(s, k)
    ensures Keeper(s, remote).Some? <==>
      ClonedTwice(s.repos, remote) && exists x | x in s.repos :: Candidate(s, remote, x)
  {
    GroupTwoIff(s, s.repos, remote);
    BestIsFirst(s, s.repos, remote);
    hide Best, Group, Pool, Newer, ClonedTwice;
    var pool := Pool(s, Group(s, s.repos, remote));
    if k.remote == remote && KeptCopy(s, k) && |pool| > 0 { OneFirst(s, s.repos, k, Best(pool)); }
  }

  lemma OneFirst(s: Scan, rs: seq<Repo>, k: Repo, l: Repo)
    requires k.remote == l.remote && FirstOfNewest(s, rs, k) && FirstOfNewest(s, rs, l)
    ensures k == l
  {
    hide Candidate;
    var j :| 0 <= j < |rs| && rs[j] == k && forall i | 0 <= i < j && Candidate(s, k.remote, rs[i]) :: Newer(k, rs[i]);
    var m :| 0 <= m < |rs| && rs[m] == l && forall i | 0 <= i < m && Candidate(s, l.remote, rs[i]) :: Newer(l, rs[i]);
  }

  datatype Entry = Entry(path: Path, keeper: Option<Repo>, why: bool)

  /** Any reason not to remove what is at `p`: its own or a nested copy's changes, a kept copy
      inside, a process working there, a submodule. */
  predicate Why(s: Scan, p: Path, r: Option<Repo>, explicit: bool) {
    || (r.Some? && (s.blocked(r.value, explicit) || s.submodule(p)))
    || (exists x | x in s.repos :: Inside(x.path, p) && (s.blocked(x, explicit) || IsKeeper(s, x)))
    || s.busy(p)
  }

  function RepoAt(rs: seq<Repo>, p: Path): Option<Repo> {
    if |rs| == 0 then None else if rs[0].path == p then Some(rs[0]) else RepoAt(rs[1..], p)
  }

  predicate IsExtra(s: Scan, m: Repo) {
    Selected(s, m) && Keeper(s, m.remote).Some? && !IsKeeper(s, m) && !Doomed(s, m.path)
  }

  function ExtraEntry(s: Scan, m: Repo): Entry
    requires IsExtra(s, m)
  {
    Entry(m.path, Keeper(s, m.remote), Why(s, m.path, Some(m), false))
  }

  function DoomedEntry(s: Scan, d: Path): Entry {
    Entry(d, None, Why(s, d, RepoAt(s.repos, d), true))
  }

  /** Everything the plan lists: the extra copies, and the removal list. */
  ghost predicate Planned(s: Scan, e: Entry) {
    || (exists m | m in s.repos && IsExtra(s, m) :: e == ExtraEntry(s, m))
    || (exists d | d in s.doomed :: e == DoomedEntry(s, d))
  }

  /** Nothing stands in the way of removing what is at `p`, asked for by name or not: no clone
      there or inside has blockers, none inside is a kept copy, nothing works there, and what is
      there is no submodule. */
  ghost predicate Clear(s: Scan, p: Path, explicit: bool) {
    && (forall x | x in s.repos && Under(x.path, p) :: !s.blocked(x, explicit))
    && (forall x | x in s.repos && Inside(x.path, p) :: !KeptCopy(s, x))
    && (forall x | x in s.repos && x.path == p :: !s.submodule(p))
    && !s.busy(p)
  }

  lemma WhyIff(s: Scan, p: Path, r: Option<Repo>, explicit: bool)
    requires forall x :: x in s.repos && x.path == p <==> r == Some(x)
    ensures Why(s, p, r, explicit) <==> !Clear(s, p, explicit)
  {
    hide KeptCopy, Keeper;
    forall x ensures IsKeeper(s, x) <==> KeptCopy(s, x) { KeeperIff(s, x.remote, x); }
  }

  /** A copy beside the kept one. */
  ghost predicate Spare(s: Scan, m: Repo, k: Repo) {
    m in s.repos && KeptCopy(s, k) && Candidate(s, k.remote, m) && m != k
  }

  /** The plan, without how it is made: every tree of the removal list, and every copy of a remote
      beside the kept one; each is blocked exactly when something stands in the way. */
  lemma PlannedIff(s: Scan, e: Entry)
    requires DistinctPaths(s.repos)
    ensures Planned(s, e) <==>
      || (exists d | d in s.doomed :: e == Entry(d, None, !Clear(s, d, true)))
      || (exists m, k | Spare(s, m, k) :: e == Entry(m.path, Some(k), !Clear(s, m.path, false)))
  {
    forall d | d in s.doomed ensures DoomedEntry(s, d) == Entry(d, None, !Clear(s, d, true)) { DoomedIsClear(s, d); }
    forall m | m in s.repos && IsExtra(s, m) ensures
      Spare(s, m, Keeper(s, m.remote).value) && ExtraEntry(s, m) == Entry(m.path, Keeper(s, m.remote), !Clear(s, m.path, false)) {
      ExtraIsSpare(s, m);
    }
    forall m, k | Spare(s, m, k) ensures IsExtra(s, m) && Keeper(s, m.remote) == Some(k) { SpareIsExtra(s, m, k); }
    hide Clear, Spare, IsExtra, Keeper, Why;
  }

  lemma DoomedIsClear(s: Scan, d: Path)
    requires DistinctPaths(s.repos)
    ensures DoomedEntry(s, d) == Entry(d, None, !Clear(s, d, true))
  {
    hide Why, Clear;
    forall x ensures x in s.repos && x.path == d <==> RepoAt(s.repos, d) == Some(x) { RepoAtIff(s.repos, d, x); }
    WhyIff(s, d, RepoAt(s.repos, d), true);
  }

  lemma {:induction false} RepoAtIff(rs: seq<Repo>, p: Path, x: Repo)
    requires DistinctPaths(rs)
    ensures x in rs && x.path == p <==> RepoAt(rs, p) == Some(x)
  {
    if |rs| > 0 {
      RepoAtIff(rs[1..], p, x);
      assert rs == [rs[0]] + rs[1..];
    }
  }

  lemma ExtraIsSpare(s: Scan, m: Repo)
    requires DistinctPaths(s.repos) && m in s.repos && IsExtra(s, m)
    ensures Spare(s, m, Keeper(s, m.remote).value)
    ensures ExtraEntry(s, m) == Entry(m.path, Keeper(s, m.remote), !Clear(s, m.path, false))
  {
    KeeperIff(s, m.remote, Keeper(s, m.remote).value);
    hide Why, Clear, Keeper, KeptCopy;
    forall x ensures x in s.repos && x.path == m.path <==> x == m { if x in s.repos && x.path == m.path { SamePathSameRepo(s.repos, x, m); } }
    WhyIff(s, m.path, Some(m), false);
  }

  lemma SpareIsExtra(s: Scan, m: Repo, k: Repo)
    requires Spare(s, m, k)
    ensures IsExtra(s, m) && Keeper(s, m.remote) == Some(k)
  {
    KeeperIff(s, k.remote, k);
    hide Keeper, KeptCopy;
  }

  // ----- the largest first

  predicate BySize(s: Scan, plan: seq<Entry>) {
    forall i, j | 0 <= i < j < |plan| :: s.size(plan[i].path) >= s.size(plan[j].path)
  }

  ghost predicate NoTwice(plan: seq<Entry>) {
    forall i, j | 0 <= i < j < |plan| :: plan[i] != plan[j]
  }

  /** `e` behind everything that is not smaller. */
  function Placed(s: Scan, plan: seq<Entry>, e: Entry): seq<Entry> {
    if |plan| == 0 || s.size(plan[|plan| - 1].path) >= s.size(e.path) then plan + [e]
    else Placed(s, plan[..|plan| - 1], e) + [plan[|plan| - 1]]
  }

  lemma {:induction false} PlacedElements(s: Scan, plan: seq<Entry>, e: Entry)
    ensures forall x :: x in Placed(s, plan, e) <==> x in plan || x == e
  {
    if |plan| == 0 || s.size(plan[|plan| - 1].path) >= s.size(e.path) {
    } else {
      PlacedElements(s, plan[..|plan| - 1], e);
      assert plan == plan[..|plan| - 1] + [plan[|plan| - 1]];
    }
  }

  lemma BySizeAppend(s: Scan, init: seq<Entry>, last: Entry)
    ensures BySize(s, init + [last]) <==> BySize(s, init) && forall x | x in init :: s.size(x.path) >= s.size(last.path)
    ensures NoTwice(init + [last]) <==> NoTwice(init) && last !in init
  {
    var r := init + [last];
    assert forall i | 0 <= i < |init| :: r[i] == init[i];
    assert r[|init|] == last;
    if BySize(s, r) {
      forall x | x in init ensures s.size(x.path) >= s.size(last.path) {
        var i :| 0 <= i < |init| && init[i] == x;
        assert r[i] == x;
      }
    }
  }

  lemma {:induction false} PlacedKeepsOrder(s: Scan, plan: seq<Entry>, e: Entry)
    requires BySize(s, plan)
    ensures BySize(s, Placed(s, plan, e))
    ensures NoTwice(plan) && e !in plan ==> NoTwice(Placed(s, plan, e))
    ensures forall x :: x in Placed(s, plan, e) <==> x in plan || x == e
  {
    PlacedElements(s, plan, e);
    if |plan| == 0 {
      assert plan + [e] == [e];
    } else {
      var init, last := plan[..|plan| - 1], plan[|plan| - 1];
      assert plan == init + [last];
      BySizeAppend(s, init, last);
      if s.size(last.path) >= s.size(e.path) {
        BySizeAppend(s, plan, e);
      } else {
        PlacedKeepsOrder(s, init, e);
        BySizeAppend(s, Placed(s, init, e), last);
      }
    }
  }

  /** A finished plan: what is to be done, each once, the largest tree first. */
  ghost predicate PlanOf(s: Scan, plan: seq<Entry>) {
    (forall e :: e in plan <==> Planned(s, e)) && NoTwice(plan) && BySize(s, plan)
  }

  ghost predicate NoPathTwice(s: Scan) {
    DistinctPaths(s.repos) && forall i, j | 0 <= i < j < |s.doomed| :: s.doomed[i] != s.doomed[j]
  }

  /** Groups, keepers, actions, blockers, and the sort by size; ties may be in any order. */
  method BuildPlan(s: Scan) returns (plan: seq<Entry>)
    ensures (forall e :: e in plan <==> Planned(s, e)) && BySize(s, plan)
    ensures NoPathTwice(s) ==> PlanOf(s, plan)
    ensures DistinctPaths(s.repos) ==> forall e :: e in plan <==>
      || (exists d | d in s.doomed :: e == Entry(d, None, !Clear(s, d, true)))
      || (exists m, k | Spare(s, m, k) :: e == Entry(m.path, Some(k), !Clear(s, m.path, false)))
  {
    hide IsExtra, Placed, BySize, NoTwice, Keeper, Why, Clear, Spare;
    plan := [];
    NothingPlanned(s);
    for i := 0 to |s.repos|
      invariant BySize(s, plan)
      invariant forall e :: e in plan <==> exists m | m in s.repos[..i] && IsExtra(s, m) :: e == ExtraEntry(s, m)
      invariant NoPathTwice(s) ==> NoTwice(plan)
    {
      assert s.repos[..i + 1] == s.repos[..i] + [s.repos[i]];
      if IsExtra(s, s.repos[i]) {
        if NoPathTwice(s) { ExtraIsNew(s, i, plan); }
        PlacedKeepsOrder(s, plan, ExtraEntry(s, s.repos[i]));
        plan := Placed(s, plan, ExtraEntry(s, s.repos[i]));
      }
    }
    assert s.repos[..|s.repos|] == s.repos;
    ghost var extras := plan;
    for i := 0 to |s.doomed|
      invariant BySize(s, plan)
      invariant forall e :: e in plan <==> e in extras || exists d | d in s.doomed[..i] :: e == DoomedEntry(s, d)
      invariant NoPathTwice(s) ==> NoTwice(plan)
    {
      assert s.doomed[..i + 1] == s.doomed[..i] + [s.doomed[i]];
      if NoPathTwice(s) { DoomedIsNew(s, i, extras, plan); }
      PlacedKeepsOrder(s, plan, DoomedEntry(s, s.doomed[i]));
      plan := Placed(s, plan, DoomedEntry(s, s.doomed[i]));
    }
    assert s.doomed[..|s.doomed|] == s.doomed;
    if DistinctPaths(s.repos) { forall e { PlannedIff(s, e); } }
  }

  lemma NothingPlanned(s: Scan)
    ensures BySize(s, []) && NoTwice([])
  {
  }

  lemma ExtraIsNew(s: Scan, i: nat, plan: seq<Entry>)
    requires i < |s.repos| && IsExtra(s, s.repos[i]) && DistinctPaths(s.repos)
    requires forall e :: e in plan <==> exists m | m in s.repos[..i] && IsExtra(s, m) :: e == ExtraEntry(s, m)
    ensures ExtraEntry(s, s.repos[i]) !in plan
  {
    hide IsExtra, Why, Keeper;
    forall m | m in s.repos[..i] && IsExtra(s, m) ensures ExtraEntry(s, m).path != s.repos[i].path {
      var j :| 0 <= j < i && s.repos[..i][j] == m;
    }
  }

  lemma DoomedIsNew(s: Scan, i: nat, extras: seq<Entry>, plan: seq<Entry>)
    requires i < |s.doomed| && NoPathTwice(s)
    requires forall e :: e in extras <==> exists m | m in s.repos && IsExtra(s, m) :: e == ExtraEntry(s, m)
    requires forall e :: e in plan <==> e in extras || exists d | d in s.doomed[..i] :: e == DoomedEntry(s, d)
    ensures DoomedEntry(s, s.doomed[i]) !in plan
  {
    hide Why, Keeper;
    assert s.doomed[i] in s.doomed;
    forall m | m in s.repos && IsExtra(s, m) ensures ExtraEntry(s, m).path != s.doomed[i] { }
    forall d | d in s.doomed[..i] ensures d != s.doomed[i] {
      var j :| 0 <= j < i && s.doomed[..i][j] == d;
    }
  }

  ghost predicate DistinctPaths(rs: seq<Repo>) {
    forall i, j | 0 <= i < j < |rs| :: rs[i].path != rs[j].path
  }

  lemma SamePathSameRepo(rs: seq<Repo>, a: Repo, b: Repo)
    requires DistinctPaths(rs) && a in rs && b in rs && a.path == b.path
    ensures a == b
  {
  }

  /** An unblocked entry never covers a kept copy. */
  lemma UnblockedSparesKeepers(s: Scan, e: Entry, k: Repo)
    requires DistinctPaths(s.repos) && Planned(s, e) && !e.why
    requires k in s.repos && IsKeeper(s, k)
    ensures !Under(k.path, e.path)
  {
    if m :| m in s.repos && IsExtra(s, m) && e == ExtraEntry(s, m) {
      if k.path == e.path { SamePathSameRepo(s.repos, k, m); }
    } else {
      var d :| d in s.doomed && e == DoomedEntry(s, d);
    }
  }

  lemma {:induction false} RepoAtFinds(rs: seq<Repo>, r: Repo)
    requires DistinctPaths(rs) && r in rs
    ensures RepoAt(rs, r.path) == Some(r)
  {
    if rs[0] != r {
      var i :| 0 <= i < |rs| && rs[i] == r;
      assert rs[1..][i - 1] == r;
      RepoAtFinds(rs[1..], r);
    }
  }

  /** Nothing that blocks is ever covered by an unblocked entry: not the copy itself, not one
      nested in it. Only on the removal list do large untracked files not block. */
  lemma UnblockedCoversNoBlocker(s: Scan, e: Entry, x: Repo)
    requires DistinctPaths(s.repos) && Planned(s, e) && !e.why
    requires x in s.repos && Under(x.path, e.path)
    ensures !s.blocked(x, e.keeper.None?) && !s.busy(e.path)
    ensures x.path == e.path ==> !s.submodule(x.path)
  {
    RepoAtFinds(s.repos, x);
    hide Keeper;
    if m :| m in s.repos && IsExtra(s, m) && e == ExtraEntry(s, m) {
      if x.path == e.path { SamePathSameRepo(s.repos, x, m); }
    } else {
      var d :| d in s.doomed && e == DoomedEntry(s, d);
    }
  }
}
