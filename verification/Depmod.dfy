/**
  The depmod override file (hyphaed/phases/nvidia.py:216-222): the target kernel's lines are
  replaced, every other kernel's stay, since a rollback boots with them.
*/
module Depmod {
  import opened Prelude
  import opened Decimal
  import opened Text

  const HEADER_LINE: string := "# hyphaed: optimized NVIDIA " + "modules win over updates/dkms"
  const EXTRA_DIR: string := "extra/nvidia-hyphaed"

  /** str.splitlines(), lines ended by line feeds. */
  function Lines(text: string): seq<string> {
    var parts := Split(text, '\n');
    if Last(parts) == "" then Init(parts) else parts
  }

  /** str.split() */
  function Fields(s: string): seq<string> {
    Words(s, IsSpace)
  }

  /** The kernel an override line is for. */
  function KernelOf(line: string): Option<string> {
    if "override " <= line && |Fields(line)| >= 3 then Some(Fields(line)[2]) else None
  }

  function Underscored(m: string): (r: string)
    ensures |r| == |m| && '-' !in r && forall i | 0 <= i < |m| && m[i] != '-' :: r[i] == m[i]
  {
    seq(|m|, i requires 0 <= i < |m| => if m[i] == '-' then '_' else m[i])
  }

  function Override(m: string, kver: string): string {
    Join(["override", Underscored(m), kver, EXTRA_DIR], ' ')
  }

  function Overrides(modules: seq<string>, kver: string): seq<string> {
    if |modules| == 0 then [] else Overrides(modules[..|modules| - 1], kver) + [Override(modules[|modules| - 1], kver)]
  }

  datatype Which = Except(kvers: set<string>) | Only(kver: string)

  predicate Accepts(w: Which, k: Option<string>) {
    k.Some? && if w.Except? then k.value !in w.kvers else k.value == w.kver
  }

  /** The override lines whose kernel is wanted, in order; every other line is dropped. */
  function Kept(lines: seq<string>, w: Which): seq<string> {
    if |lines| == 0 then []
    else
      Kept(lines[..|lines| - 1], w)
      + if Accepts(w, KernelOf(lines[|lines| - 1])) then [lines[|lines| - 1]] else []
  }

  function JoinLines(lines: seq<string>): string {
    if |lines| == 0 then "" else Join(lines, '\n')
  }

  function NewLines(existing: string, kver: string, modules: seq<string>): seq<string> {
    Kept(Lines(existing), Except({kver})) + Overrides(modules, kver)
  }

  function Merge(existing: string, kver: string, modules: seq<string>): string {
    HEADER_LINE + "\n" + JoinLines(NewLines(existing, kver, modules)) + "\n"
  }

  // ----- reading a merged file back

  predicate Word(s: string) {
    s != "" && forall i | 0 <= i < |s| :: !IsSpace(s[i])
  }

  predicate Names(modules: seq<string>) {
    forall i | 0 <= i < |modules| :: Word(modules[i])
  }

  lemma {:induction false} JoinHasNoBreak(words: seq<string>)
    requires |words| > 0 && Names(words)
    ensures '\n' !in Join(words, ' ')
  {
    assert Word(words[0]);
    if |words| > 1 { JoinHasNoBreak(words[1..]); }
  }

  lemma OverrideIsFor(m: string, kver: string)
    requires Word(m) && Word(kver)
    ensures Fields(Override(m, kver)) == ["override", Underscored(m), kver, EXTRA_DIR]
    ensures KernelOf(Override(m, kver)) == Some(kver) && '\n' !in Override(m, kver)
  {
    var words := ["override", Underscored(m), kver, EXTRA_DIR];
    WordsOfJoin(words, IsSpace);
    JoinHasNoBreak(words);
    hide Words;
    var s := Override(m, kver);
    assert s == "override" + ([' '] + Join(words[1..], ' '));
    assert s[..9] == "override ";
  }

  /** A line is for the kernel that is its third word, if it starts with `override` and a blank. */
  lemma KernelIff(line: string, rest: string, k: string)
    requires line == "override" + ([' '] + rest)
    ensures KernelOf(line) == Some(k) <==> |Fields(rest)| >= 2 && Fields(rest)[1] == k
  {
    FieldsAfterOverride(rest);
    assert line[..9] == "override ";
    hide Fields;
  }

  lemma FieldsAfterOverride(rest: string)
    ensures Fields("override" + ([' '] + rest)) == ["override"] + Fields(rest)
  {
    WordsConcat("override", ' ', rest, IsSpace);
    OneWord("override", IsSpace);
    hide Words;
  }

  lemma NoOverrideNoKernel(line: string)
    requires |line| < 9 || line[..9] != "override "
    ensures KernelOf(line).None?
  {
    hide Fields;
  }

  lemma {:induction false} OneLineEach(modules: seq<string>, kver: string, i: nat)
    requires i < |modules|
    ensures |Overrides(modules, kver)| == |modules| && Overrides(modules, kver)[i] == Override(modules[i], kver)
  {
    hide Override;
    var n := |modules| - 1;
    if i < n {
      OneLineEach(modules[..n], kver, i);
    } else if n > 0 {
      OneLineEach(modules[..n], kver, 0);
    }
  }

  lemma HeaderIsForNone()
    ensures KernelOf(HEADER_LINE) == None && '\n' !in HEADER_LINE && HEADER_LINE != ""
    ensures KernelOf("") == None
  {
    assert HEADER_LINE[0] == '#';
  }

  predicate NoBreaks(lines: seq<string>) {
    forall i | 0 <= i < |lines| :: '\n' !in lines[i]
  }

  lemma {:induction false} KeptHasNoBreaks(lines: seq<string>, w: Which)
    requires NoBreaks(lines)
    ensures NoBreaks(Kept(lines, w))
  {
    if |lines| > 0 { KeptHasNoBreaks(lines[..|lines| - 1], w); }
  }

  lemma {:induction false} OverridesAreFor(modules: seq<string>, kver: string, w: Which)
    requires Word(kver) && Names(modules)
    ensures NoBreaks(Overrides(modules, kver))
    ensures Kept(Overrides(modules, kver), w) == if Accepts(w, Some(kver)) then Overrides(modules, kver) else []
  {
    if |modules| > 0 {
      OverridesAreFor(modules[..|modules| - 1], kver, w);
      OverrideIsFor(modules[|modules| - 1], kver);
      var all := Overrides(modules, kver);
      assert all[..|all| - 1] == Overrides(modules[..|modules| - 1], kver);
      hide Override;
    }
  }

  lemma {:induction false} JoinTwo(lines: seq<string>)
    requires |lines| > 0
    ensures Join(lines + [""], '\n') == Join(lines, '\n') + "\n"
  {
    if |lines| == 1 {
    } else {
      assert (lines + [""])[1..] == lines[1..] + [""];
      JoinTwo(lines[1..]);
    }
  }

  /** The text written reads back as the header and the lines, plus a blank line when there are none. */
  lemma LinesOfWritten(lines: seq<string>)
    requires NoBreaks(lines)
    ensures Lines(HEADER_LINE + "\n" + JoinLines(lines) + "\n") == [HEADER_LINE] + if |lines| == 0 then [""] else lines
  {
    var shown := if |lines| == 0 then [""] else lines;
    HeaderIsForNone();
    JoinTwo(shown);
    var all := [HEADER_LINE] + (shown + [""]);
    assert all[1..] == shown + [""];
    assert Join(all, '\n') == HEADER_LINE + "\n" + JoinLines(lines) + "\n";
    assert forall p | p in all :: '\n' !in p;
    SplitOfJoin(all, '\n');
    hide Split;
    assert Init(all) == [HEADER_LINE] + shown;
  }

  /** The lines of a text are its lines whether or not the last one is ended. */
  lemma LinesOfText(lines: seq<string>)
    requires |lines| > 0 && NoBreaks(lines)
    ensures Lines(Join(lines + [""], '\n')) == lines
    ensures Last(lines) != "" ==> Lines(Join(lines, '\n')) == lines
  {
    SplitOfJoin(lines, '\n');
    forall p | p in lines + [""] ensures '\n' !in p { }
    SplitOfJoin(lines + [""], '\n');
    hide Split, Join;
    assert Last(lines + [""]) == "" && Init(lines + [""]) == lines;
  }

  lemma {:induction false} KeptAppends(a: seq<string>, b: seq<string>, w: Which)
    ensures Kept(a + b, w) == Kept(a, w) + Kept(b, w)
  {
    hide KernelOf;
    if |b| == 0 {
      assert a + b == a;
    } else {
      assert (a + b)[..|a + b| - 1] == a + b[..|b| - 1];
      KeptAppends(a, b[..|b| - 1], w);
    }
  }

  lemma KeptOneMore(lines: seq<string>, last: string, w: Which)
    ensures Kept(lines + [last], w) == Kept(lines, w) + if Accepts(w, KernelOf(last)) then [last] else []
  {
    hide KernelOf;
    assert (lines + [last])[..|lines|] == lines;
  }

  /** Two selections in a row are one. */
  lemma {:induction false} KeptTwice(lines: seq<string>, first: Which, second: Which, both: Which)
    requires forall k :: Accepts(both, k) <==> Accepts(first, k) && Accepts(second, k)
    ensures Kept(Kept(lines, first), second) == Kept(lines, both)
  {
    hide KernelOf, Accepts;
    if |lines| > 0 {
      var last := lines[|lines| - 1];
      KeptTwice(lines[..|lines| - 1], first, second, both);
      var rest := Kept(lines[..|lines| - 1], first);
      KeptOneMore(rest, last, second);
      assert rest + [] == rest;
    }
  }

  /** What a merged file says, to any later selection. */
  lemma MergedReads(existing: string, kver: string, modules: seq<string>, w: Which)
    requires Word(kver) && Names(modules)
    ensures Kept(Lines(Merge(existing, kver, modules)), w)
         == Kept(Kept(Lines(existing), Except({kver})), w)
            + if Accepts(w, Some(kver)) then Overrides(modules, kver) else []
  {
    var before := Kept(Lines(existing), Except({kver}));
    var after := NewLines(existing, kver, modules);
    MergedLines(existing, kver, modules);
    OverridesAreFor(modules, kver, w);
    HeaderIsForNone();
    KeptAppends(before, Overrides(modules, kver), w);
    KeptAppends([HEADER_LINE], if |after| == 0 then [""] else after, w);
    hide Merge, Overrides, Lines, KernelOf;
    assert [HEADER_LINE][..0] == [] && [""][..0] == [];
    assert Kept([HEADER_LINE], w) == [] && Kept([""], w) == [];
  }

  lemma MergedLines(existing: string, kver: string, modules: seq<string>)
    requires Word(kver) && Names(modules)
    ensures var after := NewLines(existing, kver, modules);
      Lines(Merge(existing, kver, modules)) == [HEADER_LINE] + if |after| == 0 then [""] else after
  {
    SplitParts(existing, '\n');
    hide Split;
    var lines := Lines(existing);
    assert forall i | 0 <= i < |lines| :: lines[i] in Split(existing, '\n');
    KeptHasNoBreaks(lines, Except({kver}));
    OverridesAreFor(modules, kver, Only(kver));
    LinesOfWritten(NewLines(existing, kver, modules));
  }

  /** The target's lines are the new ones alone, and every other kernel's survive in order. */
  lemma OnlyTargetChanges(existing: string, kver: string, modules: seq<string>, other: string)
    requires Word(kver) && Names(modules)
    ensures Kept(Lines(Merge(existing, kver, modules)), Only(kver)) == Overrides(modules, kver)
    ensures other != kver ==>
      Kept(Lines(Merge(existing, kver, modules)), Only(other)) == Kept(Lines(existing), Only(other))
    ensures Kept(Lines(Merge(existing, kver, modules)), Except({kver})) == Kept(Lines(existing), Except({kver}))
  {
    hide Merge, Overrides, Lines, Kept, Word, Names;
    MergedReads(existing, kver, modules, Only(kver));
    MergedReads(existing, kver, modules, Only(other));
    MergedReads(existing, kver, modules, Except({kver}));
    KeptTwice(Lines(existing), Except({kver}), Except({kver}), Except({kver}));
    if other != kver { KeptTwice(Lines(existing), Except({kver}), Only(other), Only(other)); }
    NothingKept(Lines(existing), kver);
  }

  /** After a merge the target has one line for each module, in their order, each naming the module
      without dashes, the kernel and the directory. */
  lemma EachModuleHasItsLine(existing: string, kver: string, modules: seq<string>, i: nat)
    requires Word(kver) && Names(modules) && i < |modules|
    ensures var mine := Kept(Lines(Merge(existing, kver, modules)), Only(kver));
      |mine| == |modules| && Fields(mine[i]) == ["override", Underscored(modules[i]), kver, EXTRA_DIR]
  {
    OnlyTargetChanges(existing, kver, modules, kver);
    OneLineEach(modules, kver, i);
    OverrideIsFor(modules[i], kver);
    hide Merge, Overrides, Lines, Kept, Override, Fields;
  }

  lemma {:induction false} NothingKept(lines: seq<string>, kver: string)
    ensures Kept(Kept(lines, Except({kver})), Only(kver)) == []
  {
    hide KernelOf;
    if |lines| > 0 {
      var last := lines[|lines| - 1];
      NothingKept(lines[..|lines| - 1], kver);
      var rest := Kept(lines[..|lines| - 1], Except({kver}));
      KeptOneMore(rest, last, Only(kver));
      assert rest + [] == rest;
    }
  }

  /** Merging again for the same kernel is the last merge alone, byte for byte. */
  lemma MergeTwiceIsLast(existing: string, kver: string, first: seq<string>, second: seq<string>)
    requires Word(kver) && Names(first) && Names(second)
    ensures Merge(Merge(existing, kver, first), kver, second) == Merge(existing, kver, second)
  {
    OnlyTargetChanges(existing, kver, first, kver);
    var once := Merge(existing, kver, first);
    assert NewLines(once, kver, second) == NewLines(existing, kver, second) by { hide Merge, Lines, Kept, Overrides; }
    hide NewLines, JoinLines;
  }

  /** Merges for two kernels commute, up to the order of lines. */
  lemma MergesCommute(existing: string, k1: string, m1: seq<string>, k2: string, m2: seq<string>)
    requires Word(k1) && Word(k2) && k1 != k2 && Names(m1) && Names(m2)
    ensures multiset(Lines(Merge(Merge(existing, k1, m1), k2, m2))) == multiset(Lines(Merge(Merge(existing, k2, m2), k1, m1)))
  {
    hide Merge, Overrides, Lines, Kept, Word, Names;
    TwoMerges(existing, k1, m1, k2, m2);
    TwoMerges(existing, k2, m2, k1, m1);
    assert {k1, k2} == {k2, k1};
    SwapLast(Kept(Lines(existing), Except({k1, k2})), Overrides(m1, k1), Overrides(m2, k2));
  }

  lemma SwapLast(a: seq<string>, b: seq<string>, c: seq<string>)
    ensures var r, s := a + b + c, a + c + b;
            multiset([HEADER_LINE] + if |r| == 0 then [""] else r) == multiset([HEADER_LINE] + if |s| == 0 then [""] else s)
  {
  }

  lemma TwoMerges(existing: string, k1: string, m1: seq<string>, k2: string, m2: seq<string>)
    requires Word(k1) && Word(k2) && k1 != k2 && Names(m1) && Names(m2)
    ensures var rest := Kept(Lines(existing), Except({k1, k2})) + Overrides(m1, k1) + Overrides(m2, k2);
      Lines(Merge(Merge(existing, k1, m1), k2, m2)) == [HEADER_LINE] + if |rest| == 0 then [""] else rest
  {
    MergedLines(Merge(existing, k1, m1), k2, m2);
    MergedReads(existing, k1, m1, Except({k2}));
    hide Merge, Overrides, Lines, Kept;
    KeptTwice(Lines(existing), Except({k1}), Except({k2}), Except({k1, k2}));
  }

  // ----- whole histories

  datatype Install = Install(kver: string, modules: seq<string>)

  function After(existing: string, installs: seq<Install>): string {
    if |installs| == 0 then existing
    else Merge(After(existing, installs[..|installs| - 1]), installs[|installs| - 1].kver, installs[|installs| - 1].modules)
  }

  function LastFor(installs: seq<Install>, kver: string): Option<seq<string>> {
    if |installs| == 0 then None
    else if installs[|installs| - 1].kver == kver then Some(installs[|installs| - 1].modules)
    else LastFor(installs[..|installs| - 1], kver)
  }

  /** After any installs, each kernel's override lines are those of its last install, or the ones it had. */
  lemma {:induction false} EachKernelHasItsLast(existing: string, installs: seq<Install>, kver: string)
    requires forall i | 0 <= i < |installs| :: Word(installs[i].kver) && Names(installs[i].modules)
    ensures Kept(Lines(After(existing, installs)), Only(kver)) ==
      match LastFor(installs, kver)
      case None => Kept(Lines(existing), Only(kver))
      case Some(modules) => Overrides(modules, kver)
    decreases |installs|
  {
    hide Merge, Overrides, Lines, Kept;
    if |installs| > 0 {
      var before, last := After(existing, installs[..|installs| - 1]), installs[|installs| - 1];
      EachKernelHasItsLast(existing, installs[..|installs| - 1], kver);
      OnlyTargetChanges(before, last.kver, last.modules, kver);
    }
  }
}
