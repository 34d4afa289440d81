/**
  Where the recorded lines really are: the numbers written down by the touched-line scanner
  (patches/staticcheck.py:98-140) against the patched file, and against the tree that the
  whole series leaves.
*/
module Landing {
  import opened Prelude
  import opened Text
  import opened Decimal
  import opened UnifiedDiff
  import opened DiffLines

  // ----- one file diff

  /** Every added line is seen, and none comes after a bare empty line of its hunk. */
  predicate Steady(edits: seq<Edit>) {
    && (forall e | e in edits :: !PlusPlus(e))
    && (forall i, j | 0 <= i < j < |edits| :: edits[i].Bare? ==> !edits[j].Add?)
  }

  lemma SteadyTail(edits: seq<Edit>)
    requires |edits| > 0 && Steady(edits)
    ensures Steady(edits[1..])
  {
    var rest := edits[1..];
    assert forall e | e in rest :: e in edits;
    assert forall i, j | 0 <= i < j < |rest| :: rest[i] == edits[i + 1] && rest[j] == edits[j + 1];
  }

  lemma SteadyCons(e: Edit, rest: seq<Edit>)
    requires Steady(rest) && !PlusPlus(e) && (e.Bare? ==> forall x | x in rest :: !x.Add?)
    ensures Steady([e] + rest)
  {
    var edits := [e] + rest;
    assert forall i | 0 < i < |edits| :: edits[i] == rest[i - 1];
  }

  lemma {:induction false} NoAddNoNumbers(edits: seq<Edit>, at: nat, n: nat)
    requires forall e | e in edits :: !e.Add?
    ensures Added(NewSide(edits, at), n) == {} == Added(Seen(edits, at), n)
  {
    hide Added, NewOne, SeenOne, OldOne;
    if |edits| == 0 {
      NothingAround();
    } else {
      var e, rest, next := edits[0], edits[1..], at + |OldOne(edits[0])|;
      assert e in edits && forall x | x in rest :: x in edits;
      NoAddNoNumbers(rest, next, n + |NewOne(e, at)|);
      NoAddNoNumbers(rest, next, n + |SeenOne(e, at)|);
      NoAddNoNumber(e, at, n);
      AddedConcat(NewOne(e, at), NewSide(rest, next), n);
      AddedConcat(SeenOne(e, at), Seen(rest, next), n);
    }
  }

  lemma NoAddNoNumber(e: Edit, at: nat, n: nat)
    requires !e.Add?
    ensures Added(NewOne(e, at), n) == {} == Added(SeenOne(e, at), n)
  {
  }

  lemma {:induction false} SteadyIsRecorded(edits: seq<Edit>, at: nat, n: nat)
    requires Steady(edits)
    ensures Added(Seen(edits, at), n) == Added(NewSide(edits, at), n)
  {
    if |edits| > 0 {
      var e, rest, next := edits[0], edits[1..], at + |OldOne(edits[0])|;
      assert edits == [e] + rest;
      AddedConcat(NewOne(e, at), NewSide(rest, next), n);
      AddedConcat(SeenOne(e, at), Seen(rest, next), n);
      assert e in edits;
      if e.Bare? {
        forall x | x in rest ensures !x.Add? {
          var j :| 0 <= j < |rest| && rest[j] == x;
          assert edits[j + 1] == x;
        }
        NoAddNoNumbers(rest, next, n);
        NoAddNoNumbers(rest, next, n + 1);
        NothingAround();
      } else {
        SteadyTail(edits);
        SteadyIsRecorded(rest, next, n + |NewOne(e, at)|);
      }
    }
  }

  lemma {:induction false} SeenIsShorter(edits: seq<Edit>, at: nat)
    ensures |Seen(edits, at)| <= |NewSide(edits, at)|
  {
    if |edits| > 0 { SeenIsShorter(edits[1..], at + |OldOne(edits[0])|); }
  }

  /** A recorded number is never past where some added line lands. */
  lemma {:induction false} SeenIsBelow(edits: seq<Edit>, at: nat, n: nat, x: nat)
    requires x in Added(Seen(edits, at), n)
    ensures exists y | y in Added(NewSide(edits, at), n) :: y >= x
  {
    hide Added, SeenOne, NewOne, OldOne;
    if |edits| == 0 {
      NothingAround();
    } else {
      var e, rest, next := edits[0], edits[1..], at + |OldOne(edits[0])|;
      var seen, all := SeenOne(e, at), NewOne(e, at);
      AddedConcat(all, NewSide(rest, next), n);
      AddedConcat(seen, Seen(rest, next), n);
      SeenOneOrNothing(e, at, n);
      if x !in Added(seen, n) {
        SeenIsBelow(rest, next, n + |seen|, x);
        var y :| y in Added(NewSide(rest, next), n + |seen|) && y >= x;
        Shifted(NewSide(rest, next), n + |seen|, |all| - |seen|, y);
        assert y + (|all| - |seen|) in Added(NewSide(edits, at), n);
      }
    }
  }

  lemma SeenOneOrNothing(e: Edit, at: nat, n: nat)
    ensures |SeenOne(e, at)| <= |NewOne(e, at)| && Added(SeenOne(e, at), n) <= Added(NewOne(e, at), n)
  {
    NothingAround();
  }

  lemma Shifted(tr: seq<Origin>, n: nat, d: nat, y: nat)
    ensures y in Added(tr, n) <==> y + d in Added(tr, n + d)
  {
    if y in Added(tr, n) {
      var i :| 0 <= i < |tr| && tr[i].Fresh? && y == n + i;
      assert y + d == n + d + i;
    }
    if y + d in Added(tr, n + d) {
      var i :| 0 <= i < |tr| && tr[i].Fresh? && y + d == n + d + i;
      assert y == n + i;
    }
  }

  lemma Greatest(s: set<nat>) returns (m: nat)
    requires s != {}
    ensures m in s && forall x | x in s :: x <= m
    decreases |s|
  {
    m :| m in s;
    if s != {m} {
      var n := Greatest(s - {m});
      assert forall x | x in s :: x == m || x in s - {m};
      if m < n { m := n; }
    }
  }

  /** A line passed over, with added lines to follow: their numbers are off. */
  lemma UnseenShifts(edits: seq<Edit>, at: nat, n: nat)
    requires Added(NewSide(edits, at), n + 1) != {}
    ensures Added(Seen(edits, at), n) != Added(NewSide(edits, at), n + 1)
    ensures Added(Seen(edits, at), n) != Added(NewSide(edits, at), n + 1) + {n}
  {
    var m := Greatest(Added(NewSide(edits, at), n + 1));
    assert m >= n + 1;
    if m in Added(Seen(edits, at), n) {
      SeenIsBelow(edits, at, n, m);
      var y :| y in Added(NewSide(edits, at), n) && y >= m;
      Shifted(NewSide(edits, at), n, 1, y);
    }
  }

  lemma {:induction false} AddIsNumbered(edits: seq<Edit>, at: nat, n: nat)
    requires exists e | e in edits :: e.Add?
    ensures Added(NewSide(edits, at), n) != {}
  {
    var e, rest, next := edits[0], edits[1..], at + |OldOne(edits[0])|;
    AddedConcat(NewOne(e, at), NewSide(rest, next), n);
    if e.Add? {
      AddedOne(Fresh(e.text), n);
    } else {
      assert edits == [e] + rest;
      AddIsNumbered(rest, next, n + |NewOne(e, at)|);
    }
  }

  lemma NothingSeenIfNothingNew(edits: seq<Edit>, at: nat, n: nat)
    requires Added(NewSide(edits, at), n) == {}
    ensures Added(Seen(edits, at), n) == {}
  {
    forall x | x in Added(Seen(edits, at), n) ensures false { SeenIsBelow(edits, at, n, x); }
  }

  lemma {:induction false} RecordedIsSteady(edits: seq<Edit>, at: nat, n: nat)
    requires Added(Seen(edits, at), n) == Added(NewSide(edits, at), n)
    ensures Steady(edits)
  {
    if |edits| > 0 {
      var e, rest, next := edits[0], edits[1..], at + |OldOne(edits[0])|;
      assert edits == [e] + rest;
      AddedConcat(NewOne(e, at), NewSide(rest, next), n);
      AddedConcat(SeenOne(e, at), Seen(rest, next), n);
      NothingAround();
      if Unseen(e) {
        AddedOne(NewOne(e, at)[0], n);
        PassedOver(e, rest, next, n);
      } else {
        TailsAgree(SeenOne(e, at), Seen(rest, next), NewSide(rest, next), n);
        RecordedIsSteady(rest, next, n + |NewOne(e, at)|);
      }
      SteadyCons(e, rest);
    }
  }

  lemma TailsAgree(first: seq<Origin>, a: seq<Origin>, b: seq<Origin>, n: nat)
    requires |first| <= 1 && Added(first, n) + Added(a, n + |first|) == Added(first, n) + Added(b, n + |first|)
    ensures Added(a, n + |first|) == Added(b, n + |first|)
  {
    var f, s, t := Added(first, n), Added(a, n + |first|), Added(b, n + |first|);
    NumbersInRange(first, n);
    NumbersInRange(a, n + |first|);
    NumbersInRange(b, n + |first|);
    hide Added;
    forall x ensures x in s <==> x in t { assert x in f + s <==> x in f + t; }
  }

  lemma PassedOver(e: Edit, rest: seq<Edit>, next: nat, n: nat)
    requires Unseen(e)
    requires Added(Seen(rest, next), n) == (if e.Add? then {n} else {}) + Added(NewSide(rest, next), n + 1)
    ensures e.Bare? && Steady(rest) && forall x | x in rest :: !x.Add?
  {
    if Added(NewSide(rest, next), n + 1) != {} {
      UnseenShifts(rest, next, n);
      assert false;
    }
    forall x ensures x !in Added(NewSide(rest, next), n) { Shifted(NewSide(rest, next), n, 1, x); }
    NothingSeenIfNothingNew(rest, next, n);
    if exists x | x in rest :: x.Add? { AddIsNumbered(rest, next, n + 1); }
  }

  predicate AllSteady(hs: seq<Hunk>) {
    forall h | h in hs :: Steady(h.edits)
  }

  predicate Within(s: set<nat>, lo: nat, hi: nat) {
    forall x | x in s :: lo <= x < hi
  }

  lemma NumbersInRange(tr: seq<Origin>, n: nat)
    ensures Within(Added(tr, n), n, n + |tr|)
  {
  }

  lemma {:induction false} RecordedAfter(orig: seq<string>, at: nat, done: nat, hs: seq<Hunk>)
    requires at <= |orig| && Fits(orig, at, done, hs)
    ensures forall x | x in RecordedIn(hs) :: x > done
    decreases |hs|
  {
    if |hs| > 0 {
      var h := hs[0];
      var p, e := Place(h), Place(h) + |OldSide(h.edits)|;
      RecordedAfter(orig, e, done + (p - at) + |NewSide(h.edits, 0)|, hs[1..]);
      SeenIsShorter(h.edits, 0);
      NumbersInRange(Seen(h.edits, 0), h.newStart);
    }
  }

  /** The two halves of a hunk list number apart: what the first hunk and the rest record or
      leave agrees as a whole exactly when it agrees one by one. */
  lemma SplitAt(a: set<nat>, b: set<nat>, c: set<nat>, d: set<nat>, bound: nat)
    requires Within(a, 0, bound + 1) && Within(c, 0, bound + 1)
    requires (forall x | x in b :: x > bound) && (forall x | x in d :: x > bound)
    ensures a + b == c + d <==> a == c && b == d
  {
    if a + b == c + d {
      forall x ensures x in a <==> x in c { assert x in a + b <==> x in c + d; }
      forall x ensures x in b <==> x in d { assert x in a + b <==> x in c + d; }
    }
  }

  /** Exactly when the recorded numbers of a file diff are those of its added lines in the
      patched file: no added line starts with "++", and no bare empty line precedes an added
      line of the same hunk. */
  lemma {:induction false} RecordedIsLandedIff(orig: seq<string>, at: nat, done: nat, hs: seq<Hunk>)
    requires at <= |orig| && Fits(orig, at, done, hs)
    ensures RecordedIn(hs) == Added(Trace(orig, at, done, hs), done + 1) <==> AllSteady(hs)
    decreases |hs|
  {
    hide Added, Steady, AllSteady, Seen, NewSide, OldSide, Place, Trace, RecordedIn;
    if |hs| == 0 {
      NoHunksIff(orig, at, done);
    } else {
      var h := hs[0];
      var p, e := Place(h), Place(h) + |OldSide(h.edits)|;
      RecordedIsLandedIff(orig, e, done + (p - at) + |NewSide(h.edits, 0)|, hs[1..]);
      FirstHunkIff(orig, at, done, hs);
    }
  }

  lemma NoHunksIff(orig: seq<string>, at: nat, done: nat)
    requires at <= |orig|
    ensures Fits(orig, at, done, []) && AllSteady([])
    ensures RecordedIn([]) == Added(Trace(orig, at, done, []), done + 1)
  {
    RunAddsNothing(at, |orig|, done + 1);
  }

  lemma FirstHunkIff(orig: seq<string>, at: nat, done: nat, hs: seq<Hunk>)
    requires |hs| > 0 && at <= |orig| && Fits(orig, at, done, hs)
    ensures var h, rest := hs[0], hs[1..];
            var e, after := Place(h) + |OldSide(h.edits)|, done + (Place(h) - at) + |NewSide(h.edits, 0)|;
            RecordedIn(hs) == Added(Trace(orig, at, done, hs), done + 1) <==>
              Steady(h.edits) && RecordedIn(rest) == Added(Trace(orig, e, after, rest), after + 1)
    ensures AllSteady(hs) <==> Steady(hs[0].edits) && AllSteady(hs[1..])
  {
    hide Added, Steady, AllSteady, Seen, NewSide, OldSide, Place, Trace;
    var h, rest := hs[0], hs[1..];
    var p, e := Place(h), Place(h) + |OldSide(h.edits)|;
    var before, after := done + (p - at), done + (p - at) + |NewSide(h.edits, 0)|;
    AllSteadyCons(hs);
    LandedStep(orig, at, done, hs);
    RecordedAfter(orig, e, after, rest);
    NumbersInRange(Trace(orig, e, after, rest), after + 1);
    OneHunkIff(h, p, before);
    hide Fits;
    SplitAt(Added(Seen(h.edits, 0), h.newStart), RecordedIn(rest),
            Added(NewSide(h.edits, p), before + 1), Added(Trace(orig, e, after, rest), after + 1), after);
  }

  lemma AllSteadyCons(hs: seq<Hunk>)
    requires |hs| > 0
    ensures AllSteady(hs) <==> Steady(hs[0].edits) && AllSteady(hs[1..])
  {
    hide Steady;
    assert hs == [hs[0]] + hs[1..];
  }

  lemma OneHunkIff(h: Hunk, p: nat, before: nat)
    requires h.newStart == before + if |NewSide(h.edits, 0)| == 0 then 0 else 1
    ensures Added(Seen(h.edits, 0), h.newStart) == Added(NewSide(h.edits, p), before + 1) <==> Steady(h.edits)
    ensures Within(Added(Seen(h.edits, 0), h.newStart), 0, before + |NewSide(h.edits, 0)| + 1)
    ensures Within(Added(NewSide(h.edits, p), before + 1), 0, before + |NewSide(h.edits, 0)| + 1)
  {
    NewSideSize(h.edits, p, 0);
    SeenIsShorter(h.edits, 0);
    NumbersInRange(Seen(h.edits, 0), h.newStart);
    NumbersInRange(NewSide(h.edits, p), before + 1);
    assert Added(NewSide(h.edits, p), before + 1) == Added(NewSide(h.edits, 0), before + 1);
    if Steady(h.edits) { SteadyIsRecorded(h.edits, 0, before + 1); }
    if |NewSide(h.edits, 0)| == 0 {
      assert Added(Seen(h.edits, 0), before + 1) == {} == Added(NewSide(h.edits, 0), before + 1);
    }
    if Added(Seen(h.edits, 0), h.newStart) == Added(NewSide(h.edits, p), before + 1) {
      RecordedIsSteady(h.edits, 0, before + 1);
    }
  }

  lemma {:induction false} SeenConcat(a: seq<Edit>, b: seq<Edit>, at: nat)
    ensures Seen(a + b, at) == Seen(a, at) + Seen(b, at + |OldSide(a)|)
    decreases |a|
  {
    hide SeenOne, OldOne;
    if |a| == 0 {
      assert a + b == b;
    } else {
      var e, rest, next := a[0], a[1..], at + |OldOne(a[0])|;
      assert (a + b)[1..] == rest + b;
      SeenConcat(rest, b, next);
      Associate(SeenOne(e, at), Seen(rest, next), Seen(b, next + |OldSide(rest)|));
    }
  }

  lemma {:induction false} NewSideConcat(a: seq<Edit>, b: seq<Edit>, at: nat)
    ensures NewSide(a + b, at) == NewSide(a, at) + NewSide(b, at + |OldSide(a)|)
    decreases |a|
  {
    hide NewOne, OldOne;
    if |a| == 0 {
      assert a + b == b;
    } else {
      var e, rest, next := a[0], a[1..], at + |OldOne(a[0])|;
      assert (a + b)[1..] == rest + b;
      NewSideConcat(rest, b, next);
      Associate(NewOne(e, at), NewSide(rest, next), NewSide(b, next + |OldSide(rest)|));
    }
  }

  lemma Associate(a: seq<Origin>, b: seq<Origin>, c: seq<Origin>)
    ensures a + (b + c) == (a + b) + c
  {
  }

  lemma {:induction false} SeenSize(edits: seq<Edit>, at: nat)
    ensures |Seen(edits, at)| + Lag(edits) == |NewSide(edits, at)|
  {
    if |edits| > 0 { SeenSize(edits[1..], at + |OldOne(edits[0])|); }
  }

  /** A hunk's only added line is recorded too early by the lines passed over before it. */
  lemma OnlyAddIsOffByLag(before: seq<Edit>, text: string, after: seq<Edit>, at: nat, n: nat)
    requires (forall e | e in before :: !e.Add?) && (forall e | e in after :: !e.Add?) && !PlusPlus(Add(text))
    ensures var edits := before + ([Add(text)] + after);
            && Lag(before) <= |NewSide(before, at)|
            && Added(Seen(edits, at), n) == {n + |NewSide(before, at)| - Lag(before)}
            && Added(NewSide(edits, at), n) == {n + |NewSide(before, at)|}
  {
    hide NewSide, Seen, OldSide, Added, Lag;
    var tail, mid := [Add(text)] + after, at + |OldSide(before)|;
    SeenConcat(before, tail, at);
    NewSideConcat(before, tail, at);
    SeenSize(before, at);
    NoAddNoNumbers(before, at, n);
    OneAddFirst(text, after, mid, n + |NewSide(before, at)|);
    OneAddFirst(text, after, mid, n + |Seen(before, at)|);
    AddedConcat(NewSide(before, at), NewSide(tail, mid), n);
    AddedConcat(Seen(before, at), Seen(tail, mid), n);
  }

  lemma OneAddFirst(text: string, after: seq<Edit>, at: nat, n: nat)
    requires (forall e | e in after :: !e.Add?) && !PlusPlus(Add(text))
    ensures var tail := [Add(text)] + after; Added(Seen(tail, at), n) == {n} == Added(NewSide(tail, at), n)
  {
    var tail := [Add(text)] + after;
    assert tail[1..] == after;
    NoAddNoNumbers(after, at, n + 1);
    AddedOne(Fresh(text), n);
    AddedConcat([Fresh(text)], NewSide(after, at), n);
    AddedConcat([Fresh(text)], Seen(after, at), n);
  }

  /** A shipped hunk (patches/0014-tkg-pci-pme-timeout.patch:19-27): its first empty line is
      bare, so the one added line is recorded at 65 and lands at 66. */
  lemma BareLineMisplacesShippedHunk(text: seq<string>, h: Hunk)
    requires |text| == 6 && !PlusPlus(Add(text[3]))
    requires h == Hunk(63, 63, [Keep(text[0]), Keep(text[1]), Bare, Del(text[2])]
                               + ([Add(text[3])] + [Bare, Keep(text[4]), Keep(text[5])]), false, false, " struct pci_pme_device {")
    ensures RecordedIn([h]) == {65} && Added(NewSide(h.edits, 62), h.newStart) == {66}
  {
    var before := [Keep(text[0]), Keep(text[1]), Bare, Del(text[2])];
    OnlyAddIsOffByLag(before, text[3], [Bare, Keep(text[4]), Keep(text[5])], 62, 63);
    OnlyAddIsOffByLag(before, text[3], [Bare, Keep(text[4]), Keep(text[5])], 0, 63);
    PrefixOfShippedHunk(before, 62);
    PrefixOfShippedHunk(before, 0);
    hide Seen, NewSide, Lag;
    assert [h][1..] == [] && RecordedIn([]) == {};
  }

  lemma PrefixOfShippedHunk(before: seq<Edit>, at: nat)
    requires |before| == 4 && before[0].Keep? && before[1].Keep? && before[2].Bare? && before[3].Del?
    ensures Lag(before) == 1 && |NewSide(before, at)| == 3
  {
    assert Lag(before[3..]) == 0 && |NewSide(before[3..], at + 3)| == 0;
    assert Lag(before[2..]) == 1 && |NewSide(before[2..], at + 2)| == 1;
    assert Lag(before[1..]) == 1 && |NewSide(before[1..], at + 1)| == 2;
  }

  // ----- the tree after the whole series

  /** Every line a diff keeps stays on its number, and no number is lost at the end. */
  ghost predicate InPlace(orig: seq<string>, hs: seq<Hunk>)
    requires Fits(orig, 0, 0, hs)
  {
    var tr := Trace(orig, 0, 0, hs);
    |orig| <= |tr| && forall k | 0 <= k < |tr| && tr[k].Old? :: tr[k].line == k
  }

  lemma PatchedMarks(lines: Marked, hs: seq<Hunk>, n: nat)
    requires Fits(Texts(lines), 0, 0, hs)
    ensures var tr := Trace(Texts(lines), 0, 0, hs);
            n in Numbers(Patched(lines, hs)) <==>
              1 <= n <= |tr| && (tr[n - 1].Fresh? || (tr[n - 1] in tr && lines[tr[n - 1].line].1))
  {
    var tr := Trace(Texts(lines), 0, 0, hs);
    if 1 <= n <= |tr| {
      assert tr[n - 1] in tr;
      assert n in Numbers(Patched(lines, hs)) <==> Patched(lines, hs)[n - 1].1;
    }
  }

  lemma LandedMeans(orig: seq<string>, hs: seq<Hunk>, n: nat)
    requires Fits(orig, 0, 0, hs)
    ensures var tr := Trace(orig, 0, 0, hs); n in Landed(orig, hs) <==> 1 <= n <= |tr| && tr[n - 1].Fresh?
  {
  }

  lemma NumbersMean(lines: Marked, n: nat)
    ensures n in Numbers(lines) <==> 1 <= n <= |lines| && lines[n - 1].1
  {
  }

  /** An untouched file's marks after a diff are the diff's added lines. */
  lemma FirstDiffMarks(lines: Marked, hs: seq<Hunk>)
    requires Fits(Texts(lines), 0, 0, hs) && Numbers(lines) == {}
    ensures Numbers(Patched(lines, hs)) == Landed(Texts(lines), hs)
  {
    hide Numbers, Patched, Landed, Trace, Fits;
    forall n: nat ensures n in Numbers(Patched(lines, hs)) <==> n in Landed(Texts(lines), hs) {
      MarksNow(lines, hs, n);
      var tr := Trace(Texts(lines), 0, 0, hs);
      if 1 <= n <= |tr| && tr[n - 1].Old? { NumbersMean(lines, tr[n - 1].line + 1); }
    }
  }

  lemma InPlaceAdds(lines: Marked, hs: seq<Hunk>)
    requires Fits(Texts(lines), 0, 0, hs) && InPlace(Texts(lines), hs)
    ensures Numbers(Patched(lines, hs)) == Numbers(lines) + Landed(Texts(lines), hs)
  {
    forall n: nat ensures n in Numbers(Patched(lines, hs)) <==> n in Numbers(lines) + Landed(Texts(lines), hs) {
      PatchedMarks(lines, hs, n);
      LandedMeans(Texts(lines), hs, n);
      NumbersMean(lines, n);
    }
  }

  /** Exactly when a further diff of a file leaves all numbers written down before it right,
      whatever lines earlier diffs may have added: it keeps every kept line on its number. */
  lemma LaterDiffAddsIff(orig: seq<string>, hs: seq<Hunk>)
    requires Fits(orig, 0, 0, hs)
    ensures (forall lines: Marked | Texts(lines) == orig :: Numbers(Patched(lines, hs)) == Numbers(lines) + Landed(orig, hs))
            <==> InPlace(orig, hs)
  {
    if InPlace(orig, hs) {
      forall lines: Marked | Texts(lines) == orig { InPlaceAdds(lines, hs); }
    } else {
      var tr := Trace(orig, 0, 0, hs);
      if k: nat :| k < |tr| && tr[k].Old? && tr[k].line != k {
        assert tr[k] in tr;
        OneMarkGoesWrong(orig, hs, tr[k].line, k + 1);
      } else {
        OneMarkGoesWrong(orig, hs, |orig| - 1, |orig|);
      }
    }
  }

  /** One marked line, at `m`, and a number its move or its loss leaves wrong. */
  lemma OneMarkGoesWrong(orig: seq<string>, hs: seq<Hunk>, m: nat, n: nat)
    requires Fits(orig, 0, 0, hs) && m < |orig|
    requires var tr := Trace(orig, 0, 0, hs);
             (1 <= n <= |tr| && tr[n - 1] == Old(m) && m != n - 1) || (m == n - 1 && n > |tr|)
    ensures exists lines: Marked | Texts(lines) == orig :: Numbers(Patched(lines, hs)) != Numbers(lines) + Landed(orig, hs)
  {
    var lines := MarkedAt(orig, m);
    assert Texts(lines) == orig;
    PatchedMarks(lines, hs, n);
    LandedMeans(orig, hs, n);
    NumbersMean(lines, n);
    var tr := Trace(orig, 0, 0, hs);
    assert n <= |tr| ==> tr[n - 1] in tr;
  }

  function MarkedAt(orig: seq<string>, m: nat): (lines: Marked)
    ensures |lines| == |orig| && forall i | 0 <= i < |orig| :: lines[i] == (orig[i], i == m)
  {
    seq(|orig|, i requires 0 <= i < |orig| => (orig[i], i == m))
  }

  // ----- over a series, file by file

  ghost predicate Unmarked(t: Tree) {
    forall f | f in t :: Numbers(t[f]) == {}
  }

  /** A line kept from a marked one. */
  predicate KeptMark(read: Marked, o: Origin) {
    o.Old? && o.line < |read| && read[o.line].1
  }

  /** Every marked number of `before` is that of an added line or of a kept marked one, and no
      kept marked line of `read` stands on another number. */
  ghost predicate KeepsMarks(before: Marked, read: Marked, hs: seq<Hunk>)
    requires Fits(Texts(read), 0, 0, hs)
  {
    var tr := Trace(Texts(read), 0, 0, hs);
    && (forall n | n in Numbers(before) :: 1 <= n <= |tr| && (tr[n - 1].Fresh? || KeptMark(read, tr[n - 1])))
    && (forall k | 0 <= k < |tr| && KeptMark(read, tr[k]) :: k + 1 in Numbers(before))
  }

  /** What a diff may do to the marks of `f`: one that leaves `f` keeps them, one that takes `f`
      away finds none, and any other does as it likes. */
  ghost predicate GoodFor(t: Tree, d: FileDiff, f: string)
    requires Applies(t, d)
  {
    if d.name == Some(f) then KeepsMarks(Contents(t, Some(f)), Contents(t, d.source), d.hunks)
    else d.source == Some(f) ==> Numbers(Contents(t, Some(f))) == {}
  }

  ghost predicate AllGoodFor(t: Tree, ds: seq<FileDiff>, f: string)
    requires AllApply(t, ds)
    decreases |ds|
  {
    |ds| == 0 || (GoodFor(t, ds[0], f) && AllGoodFor(After(t, ds[0]), ds[1..], f))
  }

  /** The diffs that leave `f` number its added lines right. */
  ghost predicate SteadyFor(ds: seq<FileDiff>, f: string) {
    forall d | d in ds && d.name == Some(f) :: AllSteady(d.hunks)
  }

  lemma MarksNow(read: Marked, hs: seq<Hunk>, n: nat)
    requires Fits(Texts(read), 0, 0, hs)
    ensures var tr := Trace(Texts(read), 0, 0, hs);
            && (n in Numbers(Patched(read, hs)) <==> 1 <= n <= |tr| && (tr[n - 1].Fresh? || KeptMark(read, tr[n - 1])))
            && (n in Landed(Texts(read), hs) <==> 1 <= n <= |tr| && tr[n - 1].Fresh?)
  {
    hide Numbers, Patched, Landed, Fits;
    var tr := Trace(Texts(read), 0, 0, hs);
    LandedMeans(Texts(read), hs, n);
    PatchedMarks(read, hs, n);
    assert 1 <= n <= |tr| ==> tr[n - 1] in tr;
  }

  lemma KeepsMarksIff(before: Marked, read: Marked, hs: seq<Hunk>)
    requires Fits(Texts(read), 0, 0, hs)
    ensures Numbers(Patched(read, hs)) == Numbers(before) + Landed(Texts(read), hs) <==> KeepsMarks(before, read, hs)
  {
    hide Numbers, Patched, Landed, Trace, Fits, KeptMark;
    var tr := Trace(Texts(read), 0, 0, hs);
    var now, was, landed := Numbers(Patched(read, hs)), Numbers(before), Landed(Texts(read), hs);
    forall n: nat
      ensures n in landed <==> 1 <= n <= |tr| && tr[n - 1].Fresh?
      ensures n in now <==> 1 <= n <= |tr| && (tr[n - 1].Fresh? || KeptMark(read, tr[n - 1])) {
      MarksNow(read, hs, n);
    }
    if now == was + landed {
      forall n | n in was ensures n in now { }
      forall k | 0 <= k < |tr| && KeptMark(read, tr[k]) ensures k + 1 in was {
        var n := k + 1;
        assert n in now && n !in landed by { KeptIsNotFresh(read, tr[k]); }
      }
    }
  }

  lemma KeptIsNotFresh(read: Marked, o: Origin)
    requires KeptMark(read, o)
    ensures !o.Fresh?
  {
  }

  /** One diff: numbers right before it are right after it exactly when it is good for `f`. */
  lemma StaysRightIff(t: Tree, d: FileDiff, f: string)
    requires Applies(t, d) && (d.name == Some(f) ==> AllSteady(d.hunks))
    ensures Numbers(Contents(After(t, d), Some(f))) ==
              Numbers(Contents(t, Some(f))) + (if d.name == Some(f) then RecordedIn(d.hunks) else {})
            <==> GoodFor(t, d, f)
  {
    hide AllSteady, RecordedIn, Fits, Numbers, Trace, KeepsMarks;
    NothingMarked();
    if d.name == Some(f) {
      var read := Contents(t, d.source);
      RecordedIsLandedIff(Texts(read), 0, 0, d.hunks);
      KeepsMarksIff(Contents(t, Some(f)), read, d.hunks);
    }
  }

  lemma NothingMarked()
    ensures Numbers([]) == {}
  {
  }

  function RecordedOne(d: FileDiff, f: string): set<nat> {
    if d.name == Some(f) then RecordedIn(d.hunks) else {}
  }

  lemma {:induction false} PrefixApplies(t: Tree, ds: seq<FileDiff>, k: nat)
    requires k <= |ds| && AllApply(t, ds)
    ensures AllApply(t, ds[..k])
    decreases |ds|
  {
    hide Applies, After;
    if k > 0 {
      PrefixApplies(After(t, ds[0]), ds[1..], k - 1);
      assert ds[..k][0] == ds[0] && ds[..k][1..] == ds[1..][..k - 1];
    }
  }

  /** After the first `k` diffs, the numbers written down for `f`, `recorded` ones to begin
      with, are exactly those of the marked lines of `f`. */
  ghost predicate RightAfter(t: Tree, ds: seq<FileDiff>, recorded: set<nat>, f: string, k: nat)
    requires k <= |ds| && AllApply(t, ds)
  {
    PrefixApplies(t, ds, k);
    recorded + RecordedBy(ds[..k], f) == Numbers(Contents(Final(t, ds[..k]), Some(f)))
  }

  lemma RightLater(t: Tree, ds: seq<FileDiff>, recorded: set<nat>, f: string, k: nat)
    requires 1 <= k <= |ds| && AllApply(t, ds)
    ensures RightAfter(t, ds, recorded, f, k) <==>
              RightAfter(After(t, ds[0]), ds[1..], recorded + RecordedOne(ds[0], f), f, k - 1)
  {
    PrefixApplies(t, ds, k);
    PrefixApplies(After(t, ds[0]), ds[1..], k - 1);
    hide Applies, After, Numbers, Contents, RecordedIn;
    assert ds[..k][0] == ds[0] && ds[..k][1..] == ds[1..][..k - 1];
    assert recorded + RecordedBy(ds[..k], f) == recorded + RecordedOne(ds[0], f) + RecordedBy(ds[1..][..k - 1], f);
  }

  lemma RightNow(t: Tree, ds: seq<FileDiff>, recorded: set<nat>, f: string)
    requires AllApply(t, ds)
    ensures RightAfter(t, ds, recorded, f, 0) <==> recorded == Numbers(Contents(t, Some(f)))
  {
    PrefixApplies(t, ds, 0);
    assert ds[..0] == [] && recorded + {} == recorded;
  }

  lemma {:induction false} RightIff(t: Tree, ds: seq<FileDiff>, recorded: set<nat>, f: string)
    requires AllApply(t, ds) && SteadyFor(ds, f) && recorded == Numbers(Contents(t, Some(f)))
    ensures (forall k | 0 <= k <= |ds| :: RightAfter(t, ds, recorded, f, k)) <==> AllGoodFor(t, ds, f)
    decreases |ds|
  {
    RightNow(t, ds, recorded, f);
    hide RightAfter, AllSteady, RecordedIn, Numbers, Contents, Applies, After, GoodFor;
    if |ds| > 0 {
      var d, rest, more := ds[0], ds[1..], recorded + RecordedOne(ds[0], f);
      assert d in ds && forall x | x in rest :: x in ds;
      forall k | 1 <= k <= |ds|
        ensures RightAfter(t, ds, recorded, f, k) <==> RightAfter(After(t, d), rest, more, f, k - 1) {
        RightLater(t, ds, recorded, f, k);
      }
      StaysRightIff(t, d, f);
      RightNow(After(t, d), rest, more, f);
      if GoodFor(t, d, f) { RightIff(After(t, d), rest, more, f); }
      assert (forall k | 0 <= k <= |ds| :: RightAfter(t, ds, recorded, f, k))
        <==> (forall k | 0 <= k <= |rest| :: RightAfter(After(t, d), rest, more, f, k)) by {
        ShiftAll(t, ds, recorded, more, f);
      }
    }
  }

  lemma ShiftAll(t: Tree, ds: seq<FileDiff>, recorded: set<nat>, more: set<nat>, f: string)
    requires |ds| > 0 && AllApply(t, ds) && RightAfter(t, ds, recorded, f, 0) && more == recorded + RecordedOne(ds[0], f)
    ensures (forall k | 0 <= k <= |ds| :: RightAfter(t, ds, recorded, f, k))
       <==> (forall k | 0 <= k <= |ds[1..]| :: RightAfter(After(t, ds[0]), ds[1..], more, f, k))
  {
    hide RightAfter, Applies, After, RecordedOne;
    forall k | 1 <= k <= |ds|
      ensures RightAfter(t, ds, recorded, f, k) <==> RightAfter(After(t, ds[0]), ds[1..], more, f, k - 1) {
      RightLater(t, ds, recorded, f, k);
    }
    forall k | 0 <= k <= |ds[1..]|
      ensures RightAfter(After(t, ds[0]), ds[1..], more, f, k) <==> RightAfter(t, ds, recorded, f, k + 1) { }
  }

  lemma UnmarkedAt(t: Tree, f: string)
    requires Unmarked(t)
    ensures Numbers(Contents(t, Some(f))) == {}
  {
    NothingMarked();
  }

  /** Exactly when the numbers written down for one file are those of the lines the series
      added to it, after every diff of the series: its own diffs keep its marked numbers
      marked and bring no mark to another number, and nothing takes a marked file away. What
      the series does to other files does not matter. */
  lemma RecordedIsRightIff(t: Tree, ds: seq<FileDiff>, f: string)
    requires Unmarked(t) && AllApply(t, ds) && SteadyFor(ds, f)
    ensures (forall k | 0 <= k <= |ds| :: RightAfter(t, ds, {}, f, k)) <==> AllGoodFor(t, ds, f)
  {
    UnmarkedAt(t, f);
    RightIff(t, ds, {}, f);
  }

  /** And so in the final tree. */
  lemma RecordedIsFinal(t: Tree, ds: seq<FileDiff>, f: string)
    requires Unmarked(t) && AllApply(t, ds) && SteadyFor(ds, f) && AllGoodFor(t, ds, f)
    ensures RecordedBy(ds, f) == Numbers(Contents(Final(t, ds), Some(f)))
  {
    RecordedIsRightIff(t, ds, f);
    assert RightAfter(t, ds, {}, f, |ds|);
    PrefixApplies(t, ds, |ds|);
    assert ds[..|ds|] == ds;
  }

  // ----- series that are good by their names, or by where they change a file

  /** No diff that leaves `f` or takes it away reads what `written` or an earlier diff wrote. */
  ghost predicate WrittenOnce(ds: seq<FileDiff>, written: set<string>, f: string) {
    forall i | 0 <= i < |ds| && ds[i].source.Some? && (ds[i].name == Some(f) || ds[i].source == Some(f)) ::
      ds[i].source.value !in written && forall j | 0 <= j < i :: ds[j].name != ds[i].source
  }

  /** Only files some diff wrote hold a marked line. */
  ghost predicate OnlyWrittenMarked(t: Tree, written: set<string>) {
    forall f | f in t && f !in written :: Numbers(t[f]) == {}
  }

  lemma UnmarkedKeeps(before: Marked, read: Marked, hs: seq<Hunk>)
    requires Fits(Texts(read), 0, 0, hs) && Numbers(before) == {} && Numbers(read) == {}
    ensures KeepsMarks(before, read, hs)
  {
    FirstDiffMarks(read, hs);
    KeepsMarksIff(before, read, hs);
  }

  lemma {:induction false} WrittenOnceIsGood(t: Tree, ds: seq<FileDiff>, written: set<string>, f: string)
    requires AllApply(t, ds) && OnlyWrittenMarked(t, written) && WrittenOnce(ds, written, f)
    ensures AllGoodFor(t, ds, f)
    decreases |ds|
  {
    hide KeepsMarks, Fits, Patched, Numbers;
    if |ds| > 0 {
      var d, rest := ds[0], ds[1..];
      var more := if d.name.Some? then written + {d.name.value} else written;
      NothingMarked();
      if d.name == Some(f) { UnmarkedKeeps(Contents(t, Some(f)), Contents(t, d.source), d.hunks); }
      assert OnlyWrittenMarked(After(t, d), more);
      assert forall i | 0 <= i < |rest| :: rest[i] == ds[i + 1];
      WrittenOnceIsGood(After(t, d), rest, more, f);
    }
  }

  /** A further diff that keeps every line on its number is good. */
  lemma InPlaceIsGood(lines: Marked, hs: seq<Hunk>)
    requires Fits(Texts(lines), 0, 0, hs) && InPlace(Texts(lines), hs)
    ensures KeepsMarks(lines, lines, hs)
  {
    InPlaceAdds(lines, hs);
    KeepsMarksIff(lines, lines, hs);
  }

  /** So is one that starts below every marked line. */
  lemma BelowIsGood(lines: Marked, hs: seq<Hunk>)
    requires Fits(Texts(lines), 0, 0, hs) && |hs| > 0 && forall n | n in Numbers(lines) :: n <= Place(hs[0])
    ensures KeepsMarks(lines, lines, hs)
  {
    var orig := Texts(lines);
    var tr, p := Trace(orig, 0, 0, hs), Place(hs[0]);
    StartsBelow(orig, hs);
    forall n: nat ensures n in Numbers(Patched(lines, hs)) <==> n in Numbers(lines) + Landed(orig, hs) {
      PatchedMarks(lines, hs, n);
      LandedMeans(orig, hs, n);
      NumbersMean(lines, n);
      if 1 <= n <= |tr| && tr[n - 1].Old? { NumbersMean(lines, tr[n - 1].line + 1); }
    }
    KeepsMarksIff(lines, lines, hs);
  }

  lemma StartsBelow(orig: seq<string>, hs: seq<Hunk>)
    requires Fits(orig, 0, 0, hs) && |hs| > 0
    ensures var tr, p := Trace(orig, 0, 0, hs), Place(hs[0]);
            && 0 <= p <= |tr| && (forall k | 0 <= k < p :: tr[k] == Old(k))
            && forall k | p <= k < |tr| && tr[k].Old? :: tr[k].line >= p
  {
    hide NewSide, OldSide, Place, Trace;
    TraceStep(orig, 0, 0, hs);
    var p := Place(hs[0]);
    var mine := NewSide(hs[0].edits, p);
    var rest := Trace(orig, p + |OldSide(hs[0].edits)|, p + |NewSide(hs[0].edits, 0)|, hs[1..]);
    NewSideReads(hs[0].edits, p);
    hide Fits;
    var later: seq<Origin> := mine + rest;
    forall k | 0 <= k < |later| && later[k].Old? ensures later[k].line >= p {
      assert later[k] in mine || later[k] in rest;
    }
  }

  function OnTop(x: string): Hunk {
    Hunk(0, 1, [Add(x)], false, false, "")
  }

  lemma OnTopTraces(orig: seq<string>, x: string)
    ensures Fits(orig, 0, 0, [OnTop(x)]) && Trace(orig, 0, 0, [OnTop(x)]) == [Fresh(x)] + Run(0, |orig|)
  {
    var h := OnTop(x);
    OnTopSides(x);
    hide NewSide, OldSide;
    assert orig[0..0] == [] && [h][1..] == [] && Fits(orig, 0, 1, []);
    assert Fits(orig, 0, 0, [h]);
    TraceStep(orig, 0, 0, [h]);
    assert Run(0, 0) == [] && Trace(orig, 0, 1, []) == Run(0, |orig|);
    hide Trace, Fits, Run;
    assert [] + ([Fresh(x)] + Run(0, |orig|)) == [Fresh(x)] + Run(0, |orig|);
  }

  lemma OnTopSides(x: string)
    ensures var h := OnTop(x); OldSide(h.edits) == [] && NewSide(h.edits, 0) == [Fresh(x)] && Place(h) == 0
  {
    assert OnTop(x).edits[1..] == [];
  }

  lemma OnTopPatches(lines: Marked, x: string)
    ensures Fits(Texts(lines), 0, 0, [OnTop(x)]) && Patched(lines, [OnTop(x)]) == [(x, true)] + lines
  {
    OnTopTraces(Texts(lines), x);
    hide Fits, Trace;
  }

  lemma OnTopIsRecorded(x: string)
    requires !PlusPlus(Add(x))
    ensures AllSteady([OnTop(x)]) && RecordedIn([OnTop(x)]) == {1}
  {
    var h := OnTop(x);
    assert h.edits[1..] == [] && [h][1..] == [];
    assert Seen(h.edits, 0) == [Fresh(x)];
    AddedOne(Fresh(x), 1);
    assert RecordedIn([]) == {};
  }

  function TopDiff(f: string, x: string): FileDiff {
    FileDiff([], Some(f), Some(f), "", [OnTop(x)])
  }

  lemma TopDiffApplies(lines: Marked, f: string, x: string)
    ensures var t: Tree := map[f := lines];
            Applies(t, TopDiff(f, x)) && After(t, TopDiff(f, x)) == map[f := [(x, true)] + lines]
  {
    OnTopPatches(lines, x);
    hide Fits, Patched;
  }

  lemma TwoTopMarks(lines: Marked, x: string, y: string)
    requires Numbers(lines) == {}
    ensures Numbers([(y, true)] + ([(x, true)] + lines)) == {1, 2}
  {
    var twice := [(y, true)] + ([(x, true)] + lines);
    forall n: nat ensures n in Numbers(twice) <==> n in {1, 2} {
      NumbersMean(twice, n);
      if n > 2 { NumbersMean(lines, n - 2); }
    }
  }

  /** Two patches that each put a line on top of one file: the scanner knows line 1 alone, and
      the second line of the final file, added by the series too, is not written down. */
  lemma SecondPatchMovesFirst(lines: Marked, f: string, x: string, y: string)
    requires Numbers(lines) == {} && !PlusPlus(Add(x)) && !PlusPlus(Add(y))
    ensures var t: Tree := map[f := lines];
            var ds := [TopDiff(f, x), TopDiff(f, y)];
            && Unmarked(t) && AllApply(t, ds) && (forall d | d in ds :: AllSteady(d.hunks))
            && RecordedBy(ds, f) == {1} && Numbers(Contents(Final(t, ds), Some(f))) == {1, 2}
            && 5 !in Around(RecordedBy(ds, f)) && 5 in Around(Numbers(Contents(Final(t, ds), Some(f))))
  {
    var t: Tree := map[f := lines];
    var d, e := TopDiff(f, x), TopDiff(f, y);
    var u: Tree := map[f := [(x, true)] + lines];
    var v: Tree := map[f := [(y, true)] + ([(x, true)] + lines)];
    TopDiffApplies(lines, f, x);
    TopDiffApplies([(x, true)] + lines, f, y);
    TwoTopMarks(lines, x, y);
    OnTopIsRecorded(x);
    OnTopIsRecorded(y);
    hide Applies, After, AllSteady, RecordedIn, Numbers, OnTop, Around;
    assert [d, e][1..] == [e] && [e][1..] == [];
    assert AllApply(v, []) && Final(v, []) == v && AllApply(u, [e]) && Final(u, [e]) == v;
    assert AllApply(t, [d, e]) && Final(t, [d, e]) == v;
    assert RecordedBy([], f) == {} && RecordedBy([e], f) == {1};
    AroundMeans({1}, 5);
    AroundMeans({1, 2}, 5);
    var two: nat := 2;
    assert two in {1, 2};
  }
}
