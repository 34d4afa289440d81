/**
  The baseline and patch operations as they run: one git command after another on a
  repository updated in place, each proved to do what module Baseline says.
*/
module GitTree {
  import opened Prelude
  import opened Baseline

  class Repo {
    const env: Env
    var head: Tree
    var work: Tree
    var tags: map<string, Tree>
    var am: Option<Tree>

    /** A freshly extracted tree; whatever .git came with it is still to be removed. */
    constructor (env: Env, tree: Tree)
      ensures this.env == env && work == tree
    {
      this.env, work, head, tags, am := env, tree, map[], map[], None;
    }

    ghost function View(): Git
      reads this
    {
      Git(head, work, tags, am)
    }

    // ----- git commands

    method ResetHard(t: Tree)
      modifies this`head, this`work
      ensures View() == ResetTo(old(View()), t)
    {
      work := (work - head.Keys) + t;
      head := t;
    }

    method AmAbort()
      modifies this`head, this`work, this`am
      ensures View() == Aborted(old(View()))
    {
      if am.Some? {
        ResetHard(am.value);
        am := None;
      }
    }

    method Clean()
      modifies this`work
      ensures View() == Cleaned(env, old(View()))
    {
      work := map q | q in work && (q in head || env.ignored(q)) :: work[q];
    }

    /** `git am --3way`: a commit, or a mess that spares the ignored untracked files. */
    method Am(p: string) returns (ok: bool)
      requires TrackedClean(View()) && am.None?
      modifies this`head, this`work, this`am
      ensures ok <==> Next(env, old(head), Untracked(old(View())), p).Some?
      ensures ok ==> View() == ResetTo(old(View()), Next(env, old(head), Untracked(old(View())), p).value)
      ensures !ok ==> head == old(head) && am == Some(old(head))
      ensures !ok ==> SameIgnored(env, Untracked(View()), Untracked(old(View())))
    {
      var t := env.patch(head, p);
      if t.Some? && forall q | q in t.value && q !in head :: q !in work {
        ResetHard(t.value);
        return true;
      }
      am := Some(head);
      var mess: Tree := *;
      work := (map q | q in mess && (q in head || !env.ignored(q)) :: mess[q])
              + (map q | q in work && q !in head && env.ignored(q) :: work[q]);
      return false;
    }

    // ----- hyphaed/gitops.py

    /** Mints the baseline; called only on a freshly extracted tree. That the tag command fails, not
        `tagged`, goes unnoticed. */
    method SeedBaseline(tag: string, tagged: bool)
      modifies this
      ensures work == old(work) && am.None? && head == Committed(env, old(work))
      ensures Unpatched(env, old(work), head)
      ensures tags == if tagged then map[tag := head] else map[]
    {
      tags, am := map[], None;
      head := Committed(env, work);
      if tagged { tags := tags[tag := head]; }
    }

    method BaselineTagPresent(tag: string) returns (present: bool)
      ensures present <==> tag in tags
    {
      present := tag in tags;
    }

    method ResetToBaseline(tag: string) returns (ok: bool)
      requires forall t, q | t in tags && q in tags[t] :: !env.ignored(q)
      modifies this`head, this`work, this`am
      ensures ok <==> tag in tags
      ensures ok ==> View() == AtBaseline(env, old(View()), tag)
      ensures !ok ==> View() == Aborted(old(View()))
    {
      ResetReaches(tag);
      AmAbort();
      ok := BaselineTagPresent(tag);
      if !ok { return; }
      ResetHard(tags[tag]);
      Clean();
    }

    lemma ResetReaches(tag: string)
      requires forall t, q | t in tags && q in tags[t] :: !env.ignored(q)
      ensures tag in tags ==>
        Cleaned(env, ResetTo(Aborted(View()), tags[tag])) == AtBaseline(env, View(), tag)
    {
      if tag in tags { ResetReachesBaseline(env, View(), tag); }
    }

    /** One git am after the other, skipping everything after the first failure. */
    method ApplySeries(patches: seq<string>, ghost kept: Tree) returns (results: seq<(string, bool)>)
      requires am.None? && work == head + kept && head.Keys !! kept.Keys
      requires forall q | q in kept :: env.ignored(q)
      modifies this`head, this`work, this`am
      ensures var (n, tree) := Applied(env, old(head), kept, patches);
              && head == tree && am.None? && TrackedClean(View())
              && SameIgnored(env, Untracked(View()), kept)
              && (n == |patches| ==> work == tree + kept)
              && |results| == |patches|
              && forall k | 0 <= k < |patches| :: results[k] == (patches[k], k < n)
    {
      results := [];
      var halt := false;
      ghost var start, n := head, 0;
      assert patches[..0] == [];
      UntrackedIsKept(View(), kept);
      for i := 0 to |patches|
        invariant Applied(env, start, kept, patches[..i]) == (n, head) && n <= i
        invariant halt <==> n < i
        invariant am.None? && TrackedClean(View()) && SameIgnored(env, Untracked(View()), kept)
        invariant !halt ==> work == head + kept && head.Keys !! kept.Keys
        invariant |results| == i && forall k | 0 <= k < i :: results[k] == (patches[k], k < n)
      {
        if halt {
          assert patches[..i + 1][..i] == patches[..i];
          AppliedStops(env, start, kept, patches[..i + 1], i);
          results := results + [(patches[i], false)];
        } else {
          AppliedOneMore(env, start, kept, patches, i);
          UntrackedIsKept(View(), kept);
          ghost var before := View();
          var ok := Am(patches[i]);
          if ok {
            CommitKeepsKept(env, before, kept, patches[i]);
            UntrackedIsKept(View(), kept);
            n := n + 1;
          } else {
            ghost var mess := View();
            AmAbort();
            AbortedMess(env, before, mess, kept);
            halt := true;
          }
          results := results + [(patches[i], ok)];
        }
      }
      assert patches[..|patches|] == patches;
    }

    /** The patch phase; `recorded` is the tag the source phase left on record. */
    method PatchPhase(patches: seq<string>, recorded: Option<string>) returns (ok: bool)
      requires forall t, q | t in tags && q in tags[t] :: !env.ignored(q)
      modifies this`head, this`work, this`am
      ensures patches == [] || recorded.None? ==> View() == old(View())
      ensures patches != [] && recorded.Some? && recorded.value !in tags ==> !ok && View() == Aborted(old(View()))
      ensures patches != [] && recorded.Some? && recorded.value in tags ==>
                && PatchedTo(env, old(View()), recorded.value, patches, View())
                && (ok <==> exists ts :: Chain(env, Kept(env, old(View())), ts, patches) && ts[0] == tags[recorded.value])
    {
      if patches == [] { return true; }
      if recorded.None? { return false; }
      ghost var before := View();
      ok := ResetToBaseline(recorded.value);
      if !ok { return; }
      ghost var kept := Kept(env, before);
      assert work == head + kept && head.Keys !! kept.Keys;
      var results := ApplySeries(patches, kept);
      AppliedIsLongestPrefix(env, before.tags[recorded.value], kept, patches);
      WholeSeriesIff(env, before.tags[recorded.value], kept, patches);
      ok := forall r | r in results :: r.1;
      ghost var n := Applied(env, before.tags[recorded.value], kept, patches).0;
      if n < |patches| {
        assert results[n] in results;
      }
    }
  }

  /** A checkout directory across phases: hyphaed/phases/source.py and patch.py on one tree. */
  class SourceTree {
    const env: Env
    var repo: Repo
    var recorded: Option<string>
    ghost var extracted: Tree

    ghost function View(): Checkout
      reads this, repo
    {
      Checkout(repo.View(), extracted, recorded)
    }

    ghost predicate Valid()
      reads this, repo
    {
      repo.env == env && Pristine(env, View())
    }

    constructor (env: Env, tree: Tree)
      ensures Valid() && this.env == env && repo.tags == map[] && fresh(repo)
    {
      this.env, recorded, extracted := env, None, tree;
      repo := new Repo(env, tree);
      new;
      repo.tags := map[];
    }

    /** The source phase on an existing directory: keep it, if its tag is there, or remove it
        and extract `tree` afresh. */
    method Fetch(keep: bool, tree: Tree, tagged: bool) returns (ok: bool)
      requires Valid()
      modifies this`repo, this`recorded, this`extracted, repo
      ensures Valid() && (repo == old(repo) || fresh(repo))
      ensures Happens(env, old(View()), if keep then KeepCheckout else Extract(tree), View())
      ensures ok <==> !keep || TagFor(env, old(repo.work)) in old(repo.tags)
      ensures !keep && tagged ==>
                recorded.Some? && recorded.value in repo.tags && Unpatched(env, tree, repo.tags[recorded.value])
    {
      if keep {
        var tag := TagFor(env, repo.work);
        ok := repo.BaselineTagPresent(tag);
        if ok { recorded := Some(tag); }
      } else {
        repo := new Repo(env, tree);
        extracted := tree;
        repo.SeedBaseline(TagFor(env, tree), tagged);
        recorded := Some(TagFor(env, tree));
        ok := true;
      }
    }

    method Patch(series: seq<string>) returns (ok: bool)
      requires Valid()
      modifies repo
      ensures Valid()
      ensures Happens(env, old(View()), Event.PatchPhase(series), View())
    {
      ok := repo.PatchPhase(series, recorded);
    }
  }

  lemma UntrackedIsKept(g: Git, kept: Tree)
    requires g.work == g.head + kept && g.head.Keys !! kept.Keys
    ensures Untracked(g) == kept && TrackedClean(g)
  {
  }

  lemma CommitKeepsKept(env: Env, g: Git, kept: Tree, p: string)
    requires g.work == g.head + kept && g.head.Keys !! kept.Keys && Next(env, g.head, kept, p).Some?
    ensures var t := Next(env, g.head, kept, p).value;
            ResetTo(g, t).work == t + kept && t.Keys !! kept.Keys
  {
    UntrackedIsKept(g, kept);
    var t := Next(env, g.head, kept, p).value;
    assert (g.work - g.head.Keys) + t == t + kept;
  }

  lemma AbortedMess(env: Env, g: Git, mess: Git, kept: Tree)
    requires g.work == g.head + kept && g.head.Keys !! kept.Keys
    requires mess.head == g.head && mess.am == Some(g.head) && SameIgnored(env, Untracked(mess), Untracked(g))
    ensures var a := Aborted(mess);
            a.head == g.head && a.am.None? && TrackedClean(a) && SameIgnored(env, Untracked(a), kept)
  {
    UntrackedIsKept(g, kept);
    assert Untracked(Aborted(mess)) == Untracked(mess);
  }
}
