/**
  Unified diffs (POSIX.1-2017, XCU diff, "Diff -u or -U Output Format") as git writes and
  reads them: their text, when they fit a file, and where every line of the result is from.
*/
module UnifiedDiff {
  import opened Prelude
  import opened Decimal

  /** `Bare` is an unaffected empty line written without its leading space. */
  datatype Edit = Keep(text: string) | Bare | Add(text: string) | Del(text: string) | NoNewline

  /** `shortOld` and `shortNew` leave out a length of one; `heading` is what follows the
      second @@. */
  datatype Hunk = Hunk(oldStart: nat, newStart: nat, edits: seq<Edit>, shortOld: bool, shortNew: bool, heading: string)

  /** The change of one file: `source` is what it reads and `name` what it leaves, None standing
      for /dev/null; `blanks` may follow the new name. */
  datatype FileDiff = FileDiff(preamble: seq<string>, source: Option<string>, name: Option<string>, blanks: string, hunks: seq<Hunk>)

  // ----- text

  function Line(e: Edit): string {
    match e
    case Keep(t) => " " + t
    case Bare => ""
    case Add(t) => "+" + t
    case Del(t) => "-" + t
    case NoNewline => "\\ No newline at end of file"
  }

  function Lines(edits: seq<Edit>): (ls: seq<string>)
    ensures |ls| == |edits|
  {
    seq(|edits|, i requires 0 <= i < |edits| => Line(edits[i]))
  }

  function Range(start: nat, len: nat, short: bool): string {
    Show(start) + if short then "" else "," + Show(len)
  }

  function Header(h: Hunk): string {
    "@@ -" + (Range(h.oldStart, |OldSide(h.edits)|, h.shortOld)
    + (" +" + (Range(h.newStart, |NewSide(h.edits, 0)|, h.shortNew) + (" @@" + h.heading))))
  }

  function HunkText(h: Hunk): seq<string> {
    [Header(h)] + Lines(h.edits)
  }

  function HunksText(hs: seq<Hunk>): seq<string> {
    if |hs| == 0 then [] else HunkText(hs[0]) + HunksText(hs[1..])
  }

  function OldNameLine(f: FileDiff): string {
    if f.source.Some? then "--- a/" + f.source.value else "--- /dev/null"
  }

  function NameLine(f: FileDiff): string {
    if f.name.Some? then "+++ b/" + (f.name.value + f.blanks) else "+++ /dev/null"
  }

  /** A change without hunks, a rename say, names its files in the preamble alone. */
  function FileText(f: FileDiff): seq<string> {
    f.preamble + if |f.hunks| == 0 then [] else [OldNameLine(f)] + ([NameLine(f)] + HunksText(f.hunks))
  }

  function PatchText(fs: seq<FileDiff>): seq<string> {
    if |fs| == 0 then [] else FileText(fs[0]) + PatchText(fs[1..])
  }

  // ----- one hunk

  function OldOne(e: Edit): (r: seq<string>)
    ensures |r| <= 1
  {
    if e.Keep? || e.Del? then [e.text] else if e.Bare? then [""] else []
  }

  /** The lines a hunk expects to find. */
  function OldSide(edits: seq<Edit>): seq<string> {
    if |edits| == 0 then [] else OldOne(edits[0]) + OldSide(edits[1..])
  }

  /** Where a line of the new file is from: position `line` of the old one, or the diff. */
  datatype Origin = Old(line: nat) | Fresh(text: string)

  function NewOne(e: Edit, at: nat): (r: seq<Origin>)
    ensures |r| <= 1
  {
    if e.Keep? || e.Bare? then [Old(at)] else if e.Add? then [Fresh(e.text)] else []
  }

  /** The lines a hunk leaves when it starts at position `at`. */
  function NewSide(edits: seq<Edit>, at: nat): seq<Origin> {
    if |edits| == 0 then [] else NewOne(edits[0], at) + NewSide(edits[1..], at + |OldOne(edits[0])|)
  }

  lemma {:induction false} NewSideSize(edits: seq<Edit>, at: nat, at': nat)
    ensures |NewSide(edits, at)| == |NewSide(edits, at')|
    ensures forall k | 0 <= k < |NewSide(edits, at)| :: NewSide(edits, at)[k].Fresh? <==> NewSide(edits, at')[k].Fresh?
  {
    if |edits| > 0 {
      NewSideSize(edits[1..], at + |OldOne(edits[0])|, at' + |OldOne(edits[0])|);
    }
  }

  lemma {:induction false} NewSideReads(edits: seq<Edit>, at: nat)
    ensures forall o | o in NewSide(edits, at) && o.Old? :: at <= o.line < at + |OldSide(edits)|
  {
    if |edits| > 0 { NewSideReads(edits[1..], at + |OldOne(edits[0])|); }
  }

  // ----- a file

  /** The position a hunk starts at in the old file; a hunk that expects nothing names the
      line before. */
  function Place(h: Hunk): int {
    if |OldSide(h.edits)| == 0 then h.oldStart else h.oldStart - 1
  }

  /** `hs` fits `orig` from position `at` on, `done` lines of the new file being written:
      in order, the expected lines present, and the new start where the lines really land. */
  predicate Fits(orig: seq<string>, at: nat, done: nat, hs: seq<Hunk>)
    requires at <= |orig|
    decreases |hs|
  {
    |hs| == 0 ||
    (var h := hs[0];
     var p, e := Place(h), Place(h) + |OldSide(h.edits)|;
     && at <= p && e <= |orig| && orig[p..e] == OldSide(h.edits)
     && h.newStart == done + (p - at) + (if |NewSide(h.edits, 0)| == 0 then 0 else 1)
     && Fits(orig, e, done + (p - at) + |NewSide(h.edits, 0)|, hs[1..]))
  }

  /** Positions `at` up to `end` as they are. */
  function Run(at: nat, end: nat): (r: seq<Origin>)
    requires at <= end
  {
    seq(end - at, i requires 0 <= i < end - at => Old(at + i))
  }

  /** The rest of the new file, from position `at` of the original. */
  function Trace(orig: seq<string>, at: nat, done: nat, hs: seq<Hunk>): (tr: seq<Origin>)
    requires at <= |orig| && Fits(orig, at, done, hs)
    ensures forall o | o in tr && o.Old? :: at <= o.line < |orig|
    decreases |hs|
  {
    if |hs| == 0 then Run(at, |orig|)
    else
      var p, e := Place(hs[0]), Place(hs[0]) + |OldSide(hs[0].edits)|;
      NewSideReads(hs[0].edits, p);
      NewSideSize(hs[0].edits, p, 0);
      Run(at, p) + (NewSide(hs[0].edits, p) + Trace(orig, e, done + (p - at) + |NewSide(hs[0].edits, 0)|, hs[1..]))
  }

  /** The numbers of the lines that are from the diff, the first of `tr` being number `first`. */
  function Added(tr: seq<Origin>, first: nat): set<nat> {
    set i | 0 <= i < |tr| && tr[i].Fresh? :: first + i
  }

  lemma AddedConcat(a: seq<Origin>, b: seq<Origin>, first: nat)
    ensures Added(a + b, first) == Added(a, first) + Added(b, first + |a|)
  {
    forall n | n in Added(a, first) + Added(b, first + |a|)
      ensures n in Added(a + b, first)
    {
      if n in Added(a, first) {
        var i :| 0 <= i < |a| && a[i].Fresh? && n == first + i;
        assert (a + b)[i] == a[i];
      } else {
        var i :| 0 <= i < |b| && b[i].Fresh? && n == first + |a| + i;
        assert (a + b)[|a| + i] == b[i];
      }
    }
    forall n | n in Added(a + b, first)
      ensures n in Added(a, first) + Added(b, first + |a|)
    {
      var i :| 0 <= i < |a + b| && (a + b)[i].Fresh? && n == first + i;
      if i >= |a| { assert n == first + |a| + (i - |a|); }
    }
  }

  lemma AddedOne(o: Origin, first: nat)
    ensures Added([o], first) == if o.Fresh? then {first} else {}
  {
    assert [o][0] == o;
    assert o.Fresh? ==> first + 0 in Added([o], first);
  }

  lemma RunAddsNothing(at: nat, end: nat, first: nat)
    requires at <= end
    ensures Added(Run(at, end), first) == {}
  {
  }

  /** Where the added lines of a file diff land in the patched file. */
  function Landed(orig: seq<string>, hs: seq<Hunk>): set<nat>
    requires Fits(orig, 0, 0, hs)
  {
    Added(Trace(orig, 0, 0, hs), 1)
  }

  lemma TraceStep(orig: seq<string>, at: nat, done: nat, hs: seq<Hunk>)
    requires |hs| > 0 && at <= |orig| && Fits(orig, at, done, hs)
    ensures var h := hs[0];
            var p, e, after := Place(h), Place(h) + |OldSide(h.edits)|, done + (Place(h) - at) + |NewSide(h.edits, 0)|;
            Trace(orig, at, done, hs) == Run(at, p) + (NewSide(h.edits, p) + Trace(orig, e, after, hs[1..]))
  {
    hide NewSide, OldSide, Run, Place;
  }

  lemma LandedStep(orig: seq<string>, at: nat, done: nat, hs: seq<Hunk>)
    requires |hs| > 0 && at <= |orig| && Fits(orig, at, done, hs)
    ensures var h := hs[0];
            var p, e := Place(h), Place(h) + |OldSide(h.edits)|;
            var before, after := done + (p - at), done + (p - at) + |NewSide(h.edits, 0)|;
            Added(Trace(orig, at, done, hs), done + 1) ==
              Added(NewSide(h.edits, p), before + 1) + Added(Trace(orig, e, after, hs[1..]), after + 1)
  {
    hide Added, Trace, NewSide, OldSide, Place;
    var h := hs[0];
    var p := Place(h);
    TraceStep(orig, at, done, hs);
    NewSideSize(h.edits, p, 0);
    RunAddsNothing(at, p, done + 1);
    var rest := Trace(orig, p + |OldSide(h.edits)|, done + (p - at) + |NewSide(h.edits, 0)|, hs[1..]);
    hide Fits;
    AddedOfThree(Run(at, p), NewSide(h.edits, p), rest, done + 1);
  }

  lemma AddedOfThree(gap: seq<Origin>, mine: seq<Origin>, rest: seq<Origin>, first: nat)
    requires Added(gap, first) == {}
    ensures Added(gap + (mine + rest), first) == Added(mine, first + |gap|) + Added(rest, first + |gap| + |mine|)
  {
    AddedConcat(gap, mine + rest, first);
    AddedConcat(mine, rest, first + |gap|);
  }

  // ----- applied backwards

  function TextOf(orig: seq<string>, o: Origin): string
    requires o.Old? ==> o.line < |orig|
  {
    if o.Old? then orig[o.line] else o.text
  }

  ghost predicate Within(orig: seq<string>, tr: seq<Origin>) {
    forall o | o in tr && o.Old? :: o.line < |orig|
  }

  /** The lines of the new file. */
  function TextsOf(orig: seq<string>, tr: seq<Origin>): (r: seq<string>)
    requires Within(orig, tr)
    ensures |r| == |tr|
  {
    if |tr| == 0 then [] else [TextOf(orig, tr[0])] + TextsOf(orig, tr[1..])
  }

  lemma {:induction false} TextsConcat(orig: seq<string>, a: seq<Origin>, b: seq<Origin>)
    requires Within(orig, a) && Within(orig, b)
    ensures Within(orig, a + b) && TextsOf(orig, a + b) == TextsOf(orig, a) + TextsOf(orig, b)
  {
    if |a| == 0 {
      assert a + b == b;
    } else {
      assert (a + b)[1..] == a[1..] + b;
      TextsConcat(orig, a[1..], b);
    }
  }

  lemma {:induction false} TextsOfRun(orig: seq<string>, at: nat, end: nat)
    requires at <= end <= |orig|
    ensures Within(orig, Run(at, end)) && TextsOf(orig, Run(at, end)) == orig[at..end]
    decreases end - at
  {
    if at < end {
      assert Run(at, end) == [Old(at)] + Run(at + 1, end);
      TextsOfRun(orig, at + 1, end);
      assert orig[at..end] == [orig[at]] + orig[at + 1..end];
    }
  }

  function Flip(e: Edit): Edit {
    match e
    case Add(t) => Del(t)
    case Del(t) => Add(t)
    case _ => e
  }

  function Flipped(edits: seq<Edit>): (r: seq<Edit>)
    ensures |r| == |edits|
  {
    seq(|edits|, i requires 0 <= i < |edits| => Flip(edits[i]))
  }

  /** The hunk that takes the change back. */
  function FlipHunk(h: Hunk): Hunk {
    Hunk(h.newStart, h.oldStart, Flipped(h.edits), h.shortNew, h.shortOld, h.heading)
  }

  function FlipAll(hs: seq<Hunk>): (r: seq<Hunk>)
    ensures |r| == |hs|
  {
    seq(|hs|, i requires 0 <= i < |hs| => FlipHunk(hs[i]))
  }

  lemma {:induction false} FlippedSizes(edits: seq<Edit>)
    ensures |NewSide(edits, 0)| == |OldSide(Flipped(edits))| && |NewSide(Flipped(edits), 0)| == |OldSide(edits)|
  {
    if |edits| > 0 {
      var e, rest := edits[0], edits[1..];
      assert Flipped(edits)[1..] == Flipped(rest) && Flipped(edits)[0] == Flip(e);
      FlippedSizes(rest);
      NewSideSize(rest, 0, |OldOne(e)|);
      NewSideSize(Flipped(rest), 0, |OldOne(Flip(e))|);
    }
  }

  /** What a hunk leaves is what the flipped hunk expects. */
  lemma {:induction false} FlippedExpects(orig: seq<string>, edits: seq<Edit>, at: nat)
    requires at + |OldSide(edits)| <= |orig| && orig[at..at + |OldSide(edits)|] == OldSide(edits)
    ensures Within(orig, NewSide(edits, at)) && TextsOf(orig, NewSide(edits, at)) == OldSide(Flipped(edits))
  {
    hide OldOne, NewOne, Flip, TextsOf;
    if |edits| == 0 {
      NothingLeft(orig, edits, at);
    } else {
      var e, rest := edits[0], edits[1..];
      var mid := at + |OldOne(e)|;
      assert Flipped(edits)[1..] == Flipped(rest) && Flipped(edits)[0] == Flip(e);
      HeadAndTail(orig, at, OldOne(e), OldSide(rest));
      FlippedExpects(orig, rest, mid);
      OneFlipped(orig, e, at);
      TextsConcat(orig, NewOne(e, at), NewSide(rest, mid));
    }
  }

  lemma NothingLeft(orig: seq<string>, edits: seq<Edit>, at: nat)
    requires |edits| == 0
    ensures NewSide(edits, at) == [] && OldSide(Flipped(edits)) == [] && TextsOf(orig, []) == []
  {
  }

  lemma OneFlipped(orig: seq<string>, e: Edit, at: nat)
    requires at + |OldOne(e)| <= |orig| && orig[at..at + |OldOne(e)|] == OldOne(e)
    ensures Within(orig, NewOne(e, at)) && TextsOf(orig, NewOne(e, at)) == OldOne(Flip(e))
  {
    if e.Keep? || e.Bare? {
      assert orig[at..at + 1][0] == orig[at];
      assert TextsOf(orig, [Old(at)]) == [orig[at]];
    } else if e.Add? {
      assert TextsOf(orig, [Fresh(e.text)]) == [e.text];
    }
  }

  lemma HeadAndTail(s: seq<string>, at: nat, a: seq<string>, b: seq<string>)
    requires at + |a + b| <= |s| && s[at..at + |a + b|] == a + b
    ensures s[at..at + |a|] == a && s[at + |a|..at + |a| + |b|] == b
  {
    var t := s[at..at + |a + b|];
    assert t[..|a|] == a && t[|a|..] == b;
  }

  lemma FlippedTwice(edits: seq<Edit>)
    ensures Flipped(Flipped(edits)) == edits
  {
  }

  /** A hunk with its position in both files: `was` at `from` becomes `made` at `to`. */
  datatype Piece = Piece(from: int, to: int, was: seq<string>, made: seq<string>)

  function PieceOf(h: Hunk): Piece {
    Piece(Place(h), Place(FlipHunk(h)), OldSide(h.edits), OldSide(Flipped(h.edits)))
  }

  function Swap(p: Piece): Piece {
    Piece(p.to, p.from, p.made, p.was)
  }

  lemma PieceOfFlipped(h: Hunk)
    ensures PieceOf(FlipHunk(h)) == Swap(PieceOf(h)) && FlipHunk(FlipHunk(h)) == h
  {
    FlippedTwice(h.edits);
    hide Place, OldSide, Flipped;
  }

  function Pieces(hs: seq<Hunk>): seq<Piece> {
    if |hs| == 0 then [] else [PieceOf(hs[0])] + Pieces(hs[1..])
  }

  function SwapAll(ps: seq<Piece>): seq<Piece> {
    if |ps| == 0 then [] else [Swap(ps[0])] + SwapAll(ps[1..])
  }

  lemma {:induction false} PiecesOfFlipped(hs: seq<Hunk>)
    ensures Pieces(FlipAll(hs)) == SwapAll(Pieces(hs))
  {
    hide PieceOf, Swap, FlipHunk;
    if |hs| > 0 {
      PieceOfFlipped(hs[0]);
      assert FlipAll(hs)[1..] == FlipAll(hs[1..]);
      PiecesOfFlipped(hs[1..]);
      assert Pieces(hs)[1..] == Pieces(hs[1..]);
    }
  }

  ghost predicate Goes(orig: seq<string>, at: nat, done: nat, ps: seq<Piece>)
    decreases |ps|
  {
    |ps| == 0 ||
    (var p := ps[0];
     && at <= p.from && p.from + |p.was| <= |orig| && orig[p.from..p.from + |p.was|] == p.was
     && p.to == done + (p.from - at)
     && Goes(orig, p.from + |p.was|, p.to + |p.made|, ps[1..]))
  }

  /** The rest of `orig` with each piece replaced. */
  ghost function Spliced(orig: seq<string>, at: nat, done: nat, ps: seq<Piece>): seq<string>
    requires at <= |orig| && Goes(orig, at, done, ps)
    decreases |ps|
  {
    if |ps| == 0 then orig[at..]
    else
      var p := ps[0];
      orig[at..p.from] + (p.made + Spliced(orig, p.from + |p.was|, p.to + |p.made|, ps[1..]))
  }

  lemma ThreeParts(s: seq<string>, done: nat, a: seq<string>, b: seq<string>, c: seq<string>)
    requires done <= |s| && s[done..] == a + (b + c)
    ensures var q := done + |a|;
      q + |b| <= |s| && s[done..q] == a && s[q..q + |b|] == b && s[q + |b|..] == c
  {
    var t := s[done..];
    assert |t| == |a| + |b| + |c|;
    assert t[..|a|] == a && t[|a|..|a| + |b|] == b && t[|a| + |b|..] == c;
  }

  lemma SplicedStep(orig: seq<string>, at: nat, done: nat, ps: seq<Piece>)
    requires |ps| > 0 && at <= |orig|
    ensures var p := ps[0];
      && (Goes(orig, at, done, ps) <==>
            (at <= p.from && p.from + |p.was| <= |orig| && orig[p.from..p.from + |p.was|] == p.was
             && p.to == done + (p.from - at) && Goes(orig, p.from + |p.was|, p.to + |p.made|, ps[1..])))
      && (Goes(orig, at, done, ps) ==>
            Spliced(orig, at, done, ps) ==
              orig[at..p.from] + (p.made + Spliced(orig, p.from + |p.was|, p.to + |p.made|, ps[1..])))
  {
  }

  lemma SwapAllStep(ps: seq<Piece>)
    requires |ps| > 0
    ensures |SwapAll(ps)| > 0 && SwapAll(ps)[0] == Swap(ps[0]) && SwapAll(ps)[1..] == SwapAll(ps[1..])
  {
  }

  lemma NoPieces(orig: seq<string>, at: nat, done: nat)
    requires at <= |orig|
    ensures Goes(orig, at, done, []) && Spliced(orig, at, done, []) == orig[at..] && SwapAll([]) == []
  {
  }

  lemma ThreeSlices(s: seq<string>, a: nat, b: nat, c: nat)
    requires a <= b <= c <= |s|
    ensures s[a..] == s[a..b] + (s[b..c] + s[c..])
  {
  }

  lemma {:induction false} SwappedRestores(orig: seq<string>, at: nat, done: nat, ps: seq<Piece>, made: seq<string>)
    requires at <= |orig| && done <= |made| && Goes(orig, at, done, ps) && made[done..] == Spliced(orig, at, done, ps)
    ensures Goes(made, done, at, SwapAll(ps)) && Spliced(made, done, at, SwapAll(ps)) == orig[at..]
    decreases |ps|
  {
    hide Goes, Spliced, SwapAll;
    if |ps| == 0 {
      NoPieces(orig, at, done);
      NoPieces(made, done, at);
      assert ps == [];
    } else {
      var p, rest := ps[0], ps[1..];
      SplicedStep(orig, at, done, ps);
      ThreeParts(made, done, orig[at..p.from], p.made, Spliced(orig, p.from + |p.was|, p.to + |p.made|, rest));
      SwappedRestores(orig, p.from + |p.was|, p.to + |p.made|, rest, made);
      SwapAllStep(ps);
      SplicedStep(made, done, at, SwapAll(ps));
      ThreeSlices(orig, at, p.from, p.from + |p.was|);
    }
  }

  lemma FitsStep(orig: seq<string>, at: nat, done: nat, hs: seq<Hunk>)
    requires |hs| > 0 && at <= |orig|
    ensures var p := PieceOf(hs[0]);
      Fits(orig, at, done, hs) <==>
        (at <= p.from && p.from + |p.was| <= |orig| && orig[p.from..p.from + |p.was|] == p.was
         && p.to == done + (p.from - at) && Fits(orig, p.from + |p.was|, p.to + |p.made|, hs[1..]))
  {
    FlippedSizes(hs[0].edits);
    hide OldSide, NewSide, Flipped;
  }

  lemma {:induction false} FitsIsGoes(orig: seq<string>, at: nat, done: nat, hs: seq<Hunk>)
    requires at <= |orig|
    ensures Fits(orig, at, done, hs) <==> Goes(orig, at, done, Pieces(hs))
    decreases |hs|
  {
    if |hs| > 0 {
      FitsStep(orig, at, done, hs);
      var p := PieceOf(hs[0]);
      assert Pieces(hs)[0] == p && Pieces(hs)[1..] == Pieces(hs[1..]);
      hide Fits, PieceOf, Pieces;
      if at <= p.from && p.from + |p.was| <= |orig| && p.to == done + (p.from - at) {
        FitsIsGoes(orig, p.from + |p.was|, p.to + |p.made|, hs[1..]);
      }
    }
  }

  /** The text of the patched rest. */
  ghost function Result(orig: seq<string>, at: nat, done: nat, hs: seq<Hunk>): seq<string>
    requires at <= |orig| && Fits(orig, at, done, hs)
  {
    TextsOf(orig, Trace(orig, at, done, hs))
  }

  lemma ResultStep(orig: seq<string>, at: nat, done: nat, hs: seq<Hunk>)
    requires |hs| > 0 && at <= |orig| && Fits(orig, at, done, hs)
    ensures var p := PieceOf(hs[0]);
      && at <= p.from && p.from + |p.was| <= |orig| && p.to == done + (p.from - at)
      && Fits(orig, p.from + |p.was|, p.to + |p.made|, hs[1..])
      && Result(orig, at, done, hs) ==
           orig[at..p.from] + (p.made + Result(orig, p.from + |p.was|, p.to + |p.made|, hs[1..]))
  {
    hide Trace, Fits, NewSide, OldSide, Run, Place, Flipped, TextsOf;
    var h := hs[0];
    var p := PieceOf(h);
    FitsStep(orig, at, done, hs);
    FlippedSizes(h.edits);
    TraceStep(orig, at, done, hs);
    FlippedExpects(orig, h.edits, p.from);
    TextsOfRun(orig, at, p.from);
    var rest := Trace(orig, p.from + |p.was|, p.to + |p.made|, hs[1..]);
    TextsConcat(orig, NewSide(h.edits, p.from), rest);
    TextsConcat(orig, Run(at, p.from), NewSide(h.edits, p.from) + rest);
  }

  /** Applying hunks is replacing each one's old lines by its new ones. */
  lemma {:induction false} ResultIsSpliced(orig: seq<string>, at: nat, done: nat, hs: seq<Hunk>)
    requires at <= |orig| && Fits(orig, at, done, hs)
    ensures Goes(orig, at, done, Pieces(hs)) && Result(orig, at, done, hs) == Spliced(orig, at, done, Pieces(hs))
    decreases |hs|
  {
    hide Fits, Goes, PieceOf, Pieces, Result, Spliced;
    FitsIsGoes(orig, at, done, hs);
    PiecesStep(hs);
    if |hs| == 0 {
      NothingApplied(orig, at, done, hs);
    } else {
      var p := PieceOf(hs[0]);
      ResultStep(orig, at, done, hs);
      ResultIsSpliced(orig, p.from + |p.was|, p.to + |p.made|, hs[1..]);
      SplicedStep(orig, at, done, Pieces(hs));
    }
  }

  lemma PiecesStep(hs: seq<Hunk>)
    ensures |Pieces(hs)| == 0 <==> |hs| == 0
    ensures |hs| > 0 ==> Pieces(hs)[0] == PieceOf(hs[0]) && Pieces(hs)[1..] == Pieces(hs[1..])
  {
  }

  lemma NothingApplied(orig: seq<string>, at: nat, done: nat, hs: seq<Hunk>)
    requires |hs| == 0 && at <= |orig|
    ensures Goes(orig, at, done, Pieces(hs)) && Result(orig, at, done, hs) == Spliced(orig, at, done, Pieces(hs))
  {
    TextsOfRun(orig, at, |orig|);
  }

  /** Applying a diff and then the same diff with its sides swapped gives the old file back. */
  lemma PatchAndBack(orig: seq<string>, hs: seq<Hunk>)
    requires Fits(orig, 0, 0, hs)
    ensures var made := Result(orig, 0, 0, hs);
      Fits(made, 0, 0, FlipAll(hs)) && Result(made, 0, 0, FlipAll(hs)) == orig
  {
    var made := Result(orig, 0, 0, hs);
    assert made[0..] == made && orig[0..] == orig;
    hide Result, Fits, Goes, Spliced, Pieces, FlipAll, SwapAll;
    ResultIsSpliced(orig, 0, 0, hs);
    SwappedRestores(orig, 0, 0, Pieces(hs), made);
    PiecesOfFlipped(hs);
    FitsIsGoes(made, 0, 0, FlipAll(hs));
    ResultIsSpliced(made, 0, 0, FlipAll(hs));
  }

  // ----- a tree, each line marked once a diff has added it

  type Marked = seq<(string, bool)>
  type Tree = map<string, Marked>

  function Texts(lines: Marked): (r: seq<string>)
    ensures |r| == |lines| && forall i | 0 <= i < |lines| :: r[i] == lines[i].0
  {
    seq(|lines|, i requires 0 <= i < |lines| => lines[i].0)
  }

  function Patched(lines: Marked, hs: seq<Hunk>): (r: Marked)
    requires Fits(Texts(lines), 0, 0, hs)
    ensures |r| == |Trace(Texts(lines), 0, 0, hs)|
  {
    var tr := Trace(Texts(lines), 0, 0, hs);
    seq(|tr|, i requires 0 <= i < |tr| =>
      if tr[i].Old? then assert tr[i] in tr; lines[tr[i].line] else (tr[i].text, true))
  }

  /** The numbers, from one, of the marked lines. */
  function Numbers(lines: Marked): set<nat> {
    set i | 0 <= i < |lines| && lines[i].1 :: i + 1
  }

  function Contents(t: Tree, f: Option<string>): Marked {
    if f.Some? && f.value in t then t[f.value] else []
  }

  /** `d` can be applied to `t`: what it reads is there, what it creates is not, its hunks fit,
      and a deletion leaves nothing. */
  ghost predicate Applies(t: Tree, d: FileDiff) {
    && (d.source.Some? ==> d.source.value in t)
    && (d.name.Some? && d.name != d.source ==> d.name.value !in t)
    && Fits(Texts(Contents(t, d.source)), 0, 0, d.hunks)
    && (d.name.None? ==> Patched(Contents(t, d.source), d.hunks) == [])
  }

  ghost function After(t: Tree, d: FileDiff): Tree
    requires Applies(t, d)
  {
    var rest := if d.source.Some? then t - {d.source.value} else t;
    if d.name.Some? then rest[d.name.value := Patched(Contents(t, d.source), d.hunks)] else rest
  }

  /** Every diff applies to what the ones before it left. */
  ghost predicate AllApply(t: Tree, ds: seq<FileDiff>)
    decreases |ds|
  {
    |ds| == 0 || (Applies(t, ds[0]) && AllApply(After(t, ds[0]), ds[1..]))
  }

  ghost function Final(t: Tree, ds: seq<FileDiff>): Tree
    requires AllApply(t, ds)
    decreases |ds|
  {
    if |ds| == 0 then t else Final(After(t, ds[0]), ds[1..])
  }
}
