/**
  The fragment bisection (hyphaed/cli.py:752-793): each invocation reads the saved suspects,
  takes one answer about one half, and saves what is left.
*/
module Bisect {
  import opened Prelude

  type Fragment = string

  datatype Side = Left | Right | Other

  datatype Answer = Answer(side: Side, booted: bool)

  datatype Progress = Progress(suspect: seq<Fragment>, safe: seq<Fragment>)

  function LeftHalf(suspect: seq<Fragment>): seq<Fragment> {
    suspect[..|suspect| / 2]
  }

  function RightHalf(suspect: seq<Fragment>): seq<Fragment> {
    suspect[|suspect| / 2..]
  }

  /** A session over the saved state file; the preset's fragments start it. */
  class Session {
    var saved: Option<Progress>

    constructor ()
      ensures saved == None
    {
      saved := None;
    }

    ghost function Now(fragments: seq<Fragment>): Progress
      reads this
    {
      if saved.Some? then saved.value else Progress(fragments, [])
    }

    /** One `bisect` invocation: the suspect reported once at most one is left, else one round. */
    method Invoke(fragments: seq<Fragment>, answer: Answer) returns (report: Option<seq<Fragment>>)
      modifies this
      ensures Now(fragments) == Round(old(Now(fragments)), answer)
      ensures report == if |old(Now(fragments)).suspect| <= 1 then Some(old(Now(fragments)).suspect) else None
    {
      var suspect, safe := fragments, [];
      if saved.Some? { suspect, safe := saved.value.suspect, saved.value.safe; }
      if |suspect| <= 1 { return Some(suspect); }
      var half := |suspect| / 2;
      var left, right := suspect[..half], suspect[half..];
      match answer.side {
      case Left =>
        if answer.booted {
          suspect := right;
          safe := safe + left;
        } else {
          suspect := left;
        }
      case Right =>
        if answer.booted {
          suspect := left;
          safe := safe + right;
        } else {
          suspect := right;
        }
      case Other =>
      }
      saved := Some(Progress(suspect, safe));
      report := None;
    }
  }

  /** The half that stays under suspicion, and the half known to boot. */
  function Round(p: Progress, a: Answer): Progress {
    if |p.suspect| <= 1 || a.side == Other then p
    else
      var tried := if a.side == Left then LeftHalf(p.suspect) else RightHalf(p.suspect);
      var rest := if a.side == Left then RightHalf(p.suspect) else LeftHalf(p.suspect);
      if a.booted then Progress(rest, p.safe + tried) else Progress(tried, p.safe)
  }

  function After(fragments: seq<Fragment>, answers: seq<Answer>): Progress {
    if |answers| == 0 then Progress(fragments, [])
    else Round(After(fragments, answers[..|answers| - 1]), answers[|answers| - 1])
  }

  /** The boot failed exactly when the half tried has the culprit in it. */
  predicate Truthful(p: Progress, a: Answer, culprit: Fragment) {
    match a.side
    case Left => a.booted <==> culprit !in LeftHalf(p.suspect)
    case Right => a.booted <==> culprit !in RightHalf(p.suspect)
    case Other => true
  }

  predicate AllTruthful(fragments: seq<Fragment>, answers: seq<Answer>, culprit: Fragment) {
    forall i | 0 <= i < |answers| :: Truthful(After(fragments, answers[..i]), answers[i], culprit)
  }

  /** Answers that name a side. */
  function Informative(answers: seq<Answer>): nat {
    if |answers| == 0 then 0
    else Informative(answers[..|answers| - 1]) + if answers[|answers| - 1].side == Other then 0 else 1
  }

  function Pow2(k: nat): (p: nat)
    ensures p > 0
  {
    if k == 0 then 1 else 2 * Pow2(k - 1)
  }

  lemma RoundInventsNothing(p: Progress, a: Answer)
    ensures multiset(Round(p, a).suspect) + multiset(Round(p, a).safe) <= multiset(p.suspect) + multiset(p.safe)
    ensures |p.suspect| > 0 ==> |Round(p, a).suspect| > 0
    ensures a.side != Other ==> 2 * |Round(p, a).suspect| <= |p.suspect| + 1
  {
    assert p.suspect == LeftHalf(p.suspect) + RightHalf(p.suspect);
  }

  /** Whatever is answered, a fragment is never suspected and safe more often than it was given. */
  lemma {:induction false} NothingInvented(fragments: seq<Fragment>, answers: seq<Answer>)
    ensures var p := After(fragments, answers);
      multiset(p.suspect) + multiset(p.safe) <= multiset(fragments) && (|fragments| > 0 ==> |p.suspect| > 0)
    decreases |answers|
  {
    if |answers| > 0 {
      var before := answers[..|answers| - 1];
      NothingInvented(fragments, before);
      RoundInventsNothing(After(fragments, before), answers[|answers| - 1]);
      hide Round;
    }
  }

  /** A half that booted is cleared as a whole, and nothing gets lost; after a failed boot the half
      tried is what is left, and nothing is cleared. */
  lemma RoundAccounts(p: Progress, a: Answer)
    requires |p.suspect| > 1 && a.side != Other
    ensures var tried := if a.side == Left then p.suspect[..|p.suspect| / 2] else p.suspect[|p.suspect| / 2..];
            var q := Round(p, a);
      && (a.booted ==> q.safe == p.safe + tried && multiset(q.suspect) + multiset(tried) == multiset(p.suspect))
      && (!a.booted ==> q.safe == p.safe && q.suspect == tried)
  {
    assert p.suspect == LeftHalf(p.suspect) + RightHalf(p.suspect);
  }

  /** What was cleared once stays cleared. */
  lemma {:induction false} SafeOnlyGrows(fragments: seq<Fragment>, answers: seq<Answer>, i: nat)
    requires i <= |answers|
    ensures After(fragments, answers[..i]).safe <= After(fragments, answers).safe
    decreases |answers|
  {
    if i == |answers| {
      assert answers[..i] == answers;
    } else {
      var before := answers[..|answers| - 1];
      assert before[..i] == answers[..i];
      SafeOnlyGrows(fragments, before, i);
    }
  }

  /** If every answer so far was that the half booted, all fragments are accounted for. */
  lemma {:induction false} AllBootedLosesNone(fragments: seq<Fragment>, answers: seq<Answer>)
    requires forall a | a in answers :: a.booted || a.side == Other
    ensures var p := After(fragments, answers); multiset(p.suspect) + multiset(p.safe) == multiset(fragments)
    decreases |answers|
  {
    if |answers| > 0 {
      var before, a := answers[..|answers| - 1], answers[|answers| - 1];
      AllBootedLosesNone(fragments, before);
      var p := After(fragments, before);
      if |p.suspect| > 1 && a.side != Other { RoundAccounts(p, a); }
    }
  }

  lemma CulpritStays(p: Progress, a: Answer, culprit: Fragment)
    requires culprit in p.suspect && culprit !in p.safe && Truthful(p, a, culprit)
    ensures culprit in Round(p, a).suspect && culprit !in Round(p, a).safe
  {
    assert p.suspect == LeftHalf(p.suspect) + RightHalf(p.suspect);
  }

  /** s <= n / 2^k, rounded up. */
  predicate AtMost(s: nat, n: nat, k: nat) {
    (s - 1) * Pow2(k) < n
  }

  lemma HalvesTheBound(s: nat, t: nat, k: nat, n: nat)
    requires 2 * t <= s + 1 && AtMost(s, n, k)
    ensures AtMost(t, n, k + 1)
  {
    assert (t - 1) * Pow2(k + 1) == (2 * (t - 1)) * Pow2(k);
    assert 2 * (t - 1) <= s - 1;
    MulMonotone(2 * (t - 1), s - 1, Pow2(k));
  }

  lemma MulMonotone(a: int, b: int, c: nat)
    requires a <= b
    ensures a * c <= b * c
  {
  }

  /**
    With one culprit and honest answers: it stays under suspicion and is never called safe,
    k informative answers leave at most n / 2^k suspects rounded up, and so once 2^k reaches
    n the one suspect left is the culprit.
  */
  lemma {:induction false} BisectFindsCulprit(fragments: seq<Fragment>, answers: seq<Answer>, culprit: Fragment)
    requires culprit in fragments && AllTruthful(fragments, answers, culprit)
    ensures var p := After(fragments, answers);
      && culprit in p.suspect && culprit !in p.safe
      && AtMost(|p.suspect|, |fragments|, Informative(answers))
      && (|fragments| <= Pow2(Informative(answers)) ==> p.suspect == [culprit])
    decreases |answers|
  {
    hide AllTruthful, After, Round, Truthful, AtMost, Pow2, Informative;
    var p := After(fragments, answers);
    if |answers| == 0 {
      NoAnswers(fragments);
    } else {
      var before, a := answers[..|answers| - 1], answers[|answers| - 1];
      TruthfulBefore(fragments, answers, culprit);
      BisectFindsCulprit(fragments, before, culprit);
      var q := After(fragments, before);
      OneMoreAnswer(fragments, answers);
      CulpritStays(q, a, culprit);
      RoundInventsNothing(q, a);
      if a.side == Other {
        UnchangedByOther(q, a);
      } else {
        HalvesTheBound(|q.suspect|, |p.suspect|, Informative(before), |fragments|);
      }
    }
    if |fragments| <= Pow2(Informative(answers)) {
      OneLeft(p.suspect, culprit, Informative(answers), |fragments|);
    }
  }

  lemma NoAnswers(fragments: seq<Fragment>)
    ensures After(fragments, []) == Progress(fragments, []) && Informative([]) == 0
    ensures |fragments| > 0 ==> AtMost(|fragments|, |fragments|, 0)
  {
  }

  lemma OneMoreAnswer(fragments: seq<Fragment>, answers: seq<Answer>)
    requires |answers| > 0
    ensures var before, a := answers[..|answers| - 1], answers[|answers| - 1];
            && After(fragments, answers) == Round(After(fragments, before), a)
            && Informative(answers) == Informative(before) + if a.side == Other then 0 else 1
  {
  }

  lemma UnchangedByOther(p: Progress, a: Answer)
    requires a.side == Other
    ensures Round(p, a) == p
  {
  }

  lemma TruthfulBefore(fragments: seq<Fragment>, answers: seq<Answer>, culprit: Fragment)
    requires |answers| > 0 && AllTruthful(fragments, answers, culprit)
    ensures AllTruthful(fragments, answers[..|answers| - 1], culprit)
    ensures Truthful(After(fragments, answers[..|answers| - 1]), answers[|answers| - 1], culprit)
  {
    hide After, Truthful;
    var before := answers[..|answers| - 1];
    assert forall i | 0 <= i < |before| :: before[..i] == answers[..i];
  }

  lemma OneLeft(suspect: seq<Fragment>, culprit: Fragment, k: nat, n: nat)
    requires culprit in suspect && AtMost(|suspect|, n, k) && n <= Pow2(k)
    ensures suspect == [culprit]
  {
    if |suspect| >= 2 { MulMonotone(1, |suspect| - 1, Pow2(k)); }
  }
}
