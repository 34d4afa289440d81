/**
  Patching from a pristine baseline (hyphaed/gitops.py, hyphaed/phases/patch.py,
  hyphaed/phases/source.py): a source tree under git whose baseline tag is minted only at
  extraction, and a patch phase that always starts over from it.

  Git itself is the environment: trees are maps from paths to contents, a patch is a
  partial function on trees, and a failed `git am` may leave any mess among files that
  are tracked or not ignored.
*/
module Baseline {
  import opened Prelude

  type Path = string
  type Blob = string
  type Tree = map<Path, Blob>

  /** .gitignore, what each patch file does to a tree, and the version in a tree's Makefile. */
  datatype Env = Env(ignored: Path -> bool, patch: (Tree, string) -> Option<Tree>, version: Tree -> string)

  /** `head` is what the last commit tracks, `work` what is on disk; `am` is the commit an
      interrupted `git am` would go back to. */
  datatype Git = Git(head: Tree, work: Tree, tags: map<string, Tree>, am: Option<Tree>)

  // ----- git's own operations

  /** `git reset --hard`: tracked files become those of `t`, untracked ones stay. */
  function ResetTo(g: Git, t: Tree): Git {
    g.(head := t, work := (g.work - g.head.Keys) + t)
  }

  function Aborted(g: Git): Git {
    if g.am.Some? then ResetTo(g, g.am.value).(am := None) else g
  }

  /** `git clean -fd`: untracked files go, ignored ones excepted. */
  function Cleaned(env: Env, g: Git): Git {
    g.(work := map q | q in g.work && (q in g.head || env.ignored(q)) :: g.work[q])
  }

  /** Every tracked file is on disk as committed. */
  ghost predicate TrackedClean(g: Git) {
    forall q | q in g.head :: q in g.work && g.work[q] == g.head[q]
  }

  /** The commit `git am` makes: the patch applies, and creates no file where an untracked
      one lies. */
  ghost function Next(env: Env, head: Tree, untracked: Tree, p: string): Option<Tree> {
    var t := env.patch(head, p);
    if t.Some? && forall q | q in t.value && q !in head :: q !in untracked then t else None
  }

  ghost function Untracked(g: Git): Tree {
    g.work - g.head.Keys
  }

  /** Two sets of files that differ in no ignored file. */
  ghost predicate SameIgnored(env: Env, a: Tree, b: Tree) {
    forall q | env.ignored(q) :: (q in a <==> q in b) && (q in a ==> a[q] == b[q])
  }

  // ----- the baseline

  /** What `git add -A` puts into the first commit. */
  function Committed(env: Env, t: Tree): Tree {
    map q | q in t && !env.ignored(q) :: t[q]
  }

  /** `base` holds every file of `t` that is not ignored, as it is there, and no other. */
  ghost predicate Unpatched(env: Env, t: Tree, base: Tree) {
    && (forall q :: q in base <==> q in t && !env.ignored(q))
    && (forall q | q in base :: base[q] == t[q])
  }

  /** The ignored files no commit tracks: what a reset has to leave alone. */
  ghost function Kept(env: Env, g: Git): Tree {
    map q | q in g.work && env.ignored(q) && q !in g.head && (g.am.Some? ==> q !in g.am.value) :: g.work[q]
  }

  /** Back at the baseline with nothing left over but the kept files. */
  ghost function AtBaseline(env: Env, g: Git, tag: string): Git
    requires tag in g.tags
  {
    Git(g.tags[tag], g.tags[tag] + Kept(env, g), g.tags, None)
  }

  lemma ResetReachesBaseline(env: Env, g: Git, tag: string)
    requires tag in g.tags && forall q | q in g.tags[tag] :: !env.ignored(q)
    ensures Cleaned(env, ResetTo(Aborted(g), g.tags[tag])) == AtBaseline(env, g, tag)
    ensures SameIgnored(env, AtBaseline(env, g, tag).work, Kept(env, g))
  {
    var a, b := Cleaned(env, ResetTo(Aborted(g), g.tags[tag])), AtBaseline(env, g, tag);
    assert a.work.Keys == b.work.Keys;
  }

  // ----- the series

  /** All of `ps` in turn, or nothing. */
  ghost function ApplyAll(env: Env, t: Tree, kept: Tree, ps: seq<string>): Option<Tree>
    decreases |ps|
  {
    if |ps| == 0 then Some(t)
    else
      var n := Next(env, t, kept, ps[0]);
      if n.None? then None else ApplyAll(env, n.value, kept, ps[1..])
  }

  /** How many patches git am gets through, and the tree it ends with. */
  ghost function Applied(env: Env, t: Tree, kept: Tree, ps: seq<string>): (nat, Tree)
    decreases |ps|
  {
    if |ps| == 0 || Next(env, t, kept, ps[0]).None? then (0, t)
    else
      var r := Applied(env, Next(env, t, kept, ps[0]).value, kept, ps[1..]);
      (r.0 + 1, r.1)
  }

  /** Fail-fast stops after exactly the longest prefix of the series that applies. */
  lemma {:induction false} AppliedIsLongestPrefix(env: Env, t: Tree, kept: Tree, ps: seq<string>)
    ensures var (n, end) := Applied(env, t, kept, ps);
            && n <= |ps| && ApplyAll(env, t, kept, ps[..n]) == Some(end)
            && forall j | 0 <= j <= |ps| :: ApplyAll(env, t, kept, ps[..j]).Some? <==> j <= n
    decreases |ps|
  {
    assert ps[..0] == [];
    if |ps| > 0 {
      var next := Next(env, t, kept, ps[0]);
      if next.Some? { AppliedIsLongestPrefix(env, next.value, kept, ps[1..]); }
      forall j | 1 <= j <= |ps|
        ensures ps[..j][0] == ps[0] && ps[..j][1..] == ps[1..][..j - 1]
      {
      }
    }
  }

  lemma {:induction false} AppliedOneMore(env: Env, t: Tree, kept: Tree, ps: seq<string>, i: nat)
    requires i < |ps| && Applied(env, t, kept, ps[..i]).0 == i
    ensures Applied(env, t, kept, ps[..i + 1]) ==
      var n := Next(env, Applied(env, t, kept, ps[..i]).1, kept, ps[i]);
      if n.Some? then (i + 1, n.value) else (i, Applied(env, t, kept, ps[..i]).1)
    decreases |ps|
  {
    if i == 0 {
      assert ps[..1][1..] == [];
    } else {
      assert ps[..i + 1][1..] == ps[1..][..i] && ps[..i][1..] == ps[1..][..i - 1];
      assert ps[..i + 1][0] == ps[..i][0] == ps[0];
      AppliedOneMore(env, Next(env, t, kept, ps[0]).value, kept, ps[1..], i - 1);
    }
  }

  /** Once a patch failed, the rest of the series changes nothing. */
  lemma {:induction false} AppliedStops(env: Env, t: Tree, kept: Tree, ps: seq<string>, i: nat)
    requires i <= |ps| && Applied(env, t, kept, ps[..i]).0 < i
    ensures Applied(env, t, kept, ps) == Applied(env, t, kept, ps[..i])
    decreases |ps|
  {
    assert ps[..i][0] == ps[0] && ps[..i][1..] == ps[1..][..i - 1];
    if Next(env, t, kept, ps[0]).Some? {
      AppliedStops(env, Next(env, t, kept, ps[0]).value, kept, ps[1..], i - 1);
    }
  }

  /** A series applied by hand: the trees it goes through, none creating a file where one of
      `kept` lies. */
  ghost predicate Chain(env: Env, kept: Tree, ts: seq<Tree>, ps: seq<string>) {
    && |ts| == |ps| + 1
    && forall i | 0 <= i < |ps| ::
      env.patch(ts[i], ps[i]) == Some(ts[i + 1]) && forall q | q in ts[i + 1] && q in kept :: q in ts[i]
  }

  lemma {:induction false} ChainIsApplied(env: Env, kept: Tree, ts: seq<Tree>, ps: seq<string>)
    requires Chain(env, kept, ts, ps)
    ensures ApplyAll(env, ts[0], kept, ps) == Some(ts[|ps|])
    decreases |ps|
  {
    if |ps| > 0 {
      assert env.patch(ts[0], ps[0]) == Some(ts[1]);
      ChainIsApplied(env, kept, ts[1..], ps[1..]);
    }
  }

  lemma {:induction false} AppliedIsChain(env: Env, t: Tree, kept: Tree, ps: seq<string>) returns (ts: seq<Tree>)
    requires ApplyAll(env, t, kept, ps).Some?
    ensures Chain(env, kept, ts, ps) && ts[0] == t && ts[|ps|] == ApplyAll(env, t, kept, ps).value
    decreases |ps|
  {
    if |ps| == 0 {
      ts := [t];
    } else {
      var rest := AppliedIsChain(env, Next(env, t, kept, ps[0]).value, kept, ps[1..]);
      ts := [t] + rest;
      forall i | 1 <= i < |ps| ensures env.patch(ts[i], ps[i]) == Some(ts[i + 1]) && forall q | q in ts[i + 1] && q in kept :: q in ts[i] {
        assert ts[i] == rest[i - 1] && ts[i + 1] == rest[i] && ps[i] == ps[1..][i - 1];
      }
    }
  }

  /** All of a series applies if and only if it goes through in trees one after the other, and
      where it ends is where they end. */
  lemma WholeSeriesIff(env: Env, t: Tree, kept: Tree, ps: seq<string>)
    ensures Applied(env, t, kept, ps).0 == |ps| <==> exists ts :: Chain(env, kept, ts, ps) && ts[0] == t
    ensures forall ts | Chain(env, kept, ts, ps) && ts[0] == t :: Applied(env, t, kept, ps).1 == ts[|ps|]
  {
    AppliedIsLongestPrefix(env, t, kept, ps);
    assert ps[..|ps|] == ps;
    if Applied(env, t, kept, ps).0 == |ps| {
      var ts := AppliedIsChain(env, t, kept, ps);
    }
    forall ts | Chain(env, kept, ts, ps) && ts[0] == t ensures ApplyAll(env, t, kept, ps) == Some(ts[|ps|]) {
      ChainIsApplied(env, kept, ts, ps);
    }
  }

  lemma {:induction false} AppliedSparesKept(env: Env, t: Tree, kept: Tree, ps: seq<string>, q: Path)
    requires q in kept && q !in t
    ensures q !in Applied(env, t, kept, ps).1
    decreases |ps|
  {
    if |ps| > 0 && Next(env, t, kept, ps[0]).Some? {
      AppliedSparesKept(env, Next(env, t, kept, ps[0]).value, kept, ps[1..], q);
    }
  }

  // ----- the patch phase

  /** What a non-empty patch phase leaves: the baseline plus the longest prefix, every
      tracked file as committed, every kept file untouched, and, unless a patch failed,
      nothing else at all. */
  ghost predicate PatchedTo(env: Env, g: Git, tag: string, ps: seq<string>, after: Git)
    requires tag in g.tags
  {
    var kept := Kept(env, g);
    var (n, tree) := Applied(env, g.tags[tag], kept, ps);
    && after.head == tree && after.tags == g.tags && after.am.None?
    && TrackedClean(after)
    && SameIgnored(env, Untracked(after), kept)
    && (n == |ps| ==> after.work == tree + kept)
  }

  /** An ignored file on disk that no commit tracks. */
  ghost predicate IgnoredByAll(env: Env, g: Git, q: Path) {
    env.ignored(q) && q in g.work && q !in g.head && (g.am.Some? ==> q !in g.am.value)
  }

  /** Every ignored untracked file comes through a patch phase as it was, every tracked one is as
      committed, and after a clean run nothing else is on disk. */
  lemma PatchedFileByFile(env: Env, g: Git, tag: string, ps: seq<string>, after: Git, q: Path)
    requires tag in g.tags && PatchedTo(env, g, tag, ps, after) && forall p | p in g.tags[tag] :: !env.ignored(p)
    ensures IgnoredByAll(env, g, q) ==> q !in after.head && q in after.work && after.work[q] == g.work[q]
    ensures q in after.head ==> q in after.work && after.work[q] == after.head[q]
    ensures q in after.work && env.ignored(q) ==> q in after.head || IgnoredByAll(env, g, q)
    ensures Applied(env, g.tags[tag], Kept(env, g), ps).0 == |ps| && q in after.work ==> q in after.head || IgnoredByAll(env, g, q)
  {
    var kept := Kept(env, g);
    assert q in kept <==> IgnoredByAll(env, g, q);
    if q in kept { AppliedSparesKept(env, g.tags[tag], kept, ps, q); }
    assert q in Untracked(after) <==> q in after.work && q !in after.head;
    assert q in Untracked(after) ==> Untracked(after)[q] == after.work[q];
  }

  lemma PatchedKeepsKept(env: Env, g: Git, tag: string, ps: seq<string>, after: Git)
    requires tag in g.tags && PatchedTo(env, g, tag, ps, after)
    ensures Kept(env, after) == Kept(env, g)
  {
    var a, b := Kept(env, after), Kept(env, g);
    forall q
      ensures q in a <==> q in b
      ensures q in a ==> a[q] == b[q]
    {
      assert q in Untracked(after) <==> q in after.work && q !in after.head;
    }
  }

  /** Running the phase again changes nothing: same commit, same verdict, same kept files,
      and after a clean run not one byte on disk. */
  lemma PatchAgain(env: Env, g: Git, tag: string, ps: seq<string>, once: Git, twice: Git)
    requires tag in g.tags && PatchedTo(env, g, tag, ps, once) && PatchedTo(env, once, tag, ps, twice)
    ensures twice.head == once.head && Kept(env, twice) == Kept(env, once)
    ensures Applied(env, once.tags[tag], Kept(env, once), ps) == Applied(env, g.tags[tag], Kept(env, g), ps)
    ensures Applied(env, g.tags[tag], Kept(env, g), ps).0 == |ps| ==> twice == once
  {
    PatchedKeepsKept(env, g, tag, ps, once);
    PatchedKeepsKept(env, once, tag, ps, twice);
  }

  // ----- whole runs

  /** A checkout, the tree it was extracted from, and the tag the run has on record. */
  datatype Checkout = Checkout(git: Git, extracted: Tree, recorded: Option<string>)

  datatype Event = Extract(tree: Tree) | KeepCheckout | PatchPhase(series: seq<string>) | Disturb

  function TagFor(env: Env, t: Tree): string {
    "base-" + env.version(t)
  }

  /** The only tag there may be names exactly what extraction committed. */
  ghost predicate Pristine(env: Env, c: Checkout) {
    forall tag | tag in c.git.tags :: c.git.tags[tag] == Committed(env, c.extracted)
  }

  /** The phases, and anything a user or a build may do to files and commits in between. */
  ghost predicate Happens(env: Env, c: Checkout, e: Event, d: Checkout) {
    match e
    case Extract(tree) =>
      && d.extracted == tree && d.recorded == Some(TagFor(env, tree))
      && (d.git == Seeded(env, tree) || d.git == Seeded(env, tree).(tags := map[]))
    case KeepCheckout =>
      && d.git == c.git && d.extracted == c.extracted
      && (if TagFor(env, c.git.work) in c.git.tags then d.recorded == Some(TagFor(env, c.git.work))
          else d.recorded == c.recorded)
    case PatchPhase(series) =>
      && d.extracted == c.extracted && d.recorded == c.recorded
      && (if series == [] || c.recorded.None? then d.git == c.git
          else if c.recorded.value !in c.git.tags then d.git == Aborted(c.git)
          else PatchedTo(env, c.git, c.recorded.value, series, d.git))
    case Disturb =>
      d.extracted == c.extracted && d.recorded == c.recorded && d.git.tags == c.git.tags
  }

  /** A fresh repository over a fresh extraction. */
  function Seeded(env: Env, tree: Tree): Git {
    var base := Committed(env, tree);
    Git(base, tree, map[TagFor(env, tree) := base], None)
  }

  ghost predicate Trace(env: Env, cs: seq<Checkout>, es: seq<Event>) {
    && |cs| == |es| + 1
    && cs[0].git.tags == map[]
    && forall k | 0 <= k < |es| :: Happens(env, cs[k], es[k], cs[k + 1])
  }

  /** Over every interleaving of extractions, kept checkouts, patch phases that fail or
      succeed, and anything done to the tree in between: the baseline tag names an unpatched
      tree, and every non-empty patch phase that found it leaves that tree with exactly the
      longest applicable prefix of its series, the ignored files as they were and no am open.
      That outcome is the patch event's own, as `GitTree.Repo.PatchPhase` proves it of the
      methods; over the history it is new that the tag it starts from names an unpatched tree. */
  lemma {:induction false} BaselineStaysPristine(env: Env, cs: seq<Checkout>, es: seq<Event>, k: nat)
    requires Trace(env, cs, es) && k < |cs|
    ensures Pristine(env, cs[k])
    ensures forall tag | tag in cs[k].git.tags ::
              Unpatched(env, cs[k].extracted, cs[k].git.tags[tag]) && tag == "base-" + env.version(cs[k].extracted)
    ensures k > 0 && es[k - 1].PatchPhase? && es[k - 1].series != [] && cs[k - 1].recorded.Some?
            && cs[k - 1].recorded.value in cs[k - 1].git.tags ==>
              && Unpatched(env, cs[k].extracted, cs[k - 1].git.tags[cs[k - 1].recorded.value])
              && PatchedTo(env, cs[k - 1].git, cs[k - 1].recorded.value, es[k - 1].series, cs[k].git)
  {
    if k > 0 {
      BaselineStaysPristine(env, cs, es, k - 1);
      assert Happens(env, cs[k - 1], es[k - 1], cs[k]);
    }
  }

  /** Exactly when a patch phase that knows its baseline delivers it patched, commit and files:
      an empty series resets nothing, so then everything has to be at the baseline already. */
  lemma PatchedIffReset(env: Env, c: Checkout, series: seq<string>, d: Checkout)
    requires Pristine(env, c) && c.recorded.Some? && c.recorded.value in c.git.tags
    requires Happens(env, c, PatchPhase(series), d)
    ensures PatchedTo(env, c.git, c.recorded.value, series, d.git)
            <==> series != [] || c.git == AtBaseline(env, c.git, c.recorded.value)
  {
    if series == [] {
      var tag := c.recorded.value;
      assert Applied(env, c.git.tags[tag], Kept(env, c.git), []) == (0, c.git.tags[tag]);
      if c.git == AtBaseline(env, c.git, tag) { assert Untracked(c.git) == Kept(env, c.git); }
    }
  }
}
