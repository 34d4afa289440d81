/**
  The one-pass scanner that tells which lines of which files a patch series touches
  (patches/staticcheck.py:98-140), and exactly which lines it records.
*/
module DiffLines {
  import opened Prelude
  import opened Text
  import opened Decimal
  import opened UnifiedDiff

  // ----- the two patterns

  function EatNumber(s: string): Option<(nat, string)> {
    var n := DigitRun(s);
    if n == 0 then None else Some((Value(s[..n]), s[n..]))
  }

  /** (?:,\d+)? */
  function EatLength(s: string): string {
    if |s| > 0 && s[0] == ',' && DigitRun(s[1..]) > 0 then s[1..][DigitRun(s[1..])..] else s
  }

  /** ^@@ -\d+(?:,\d+)? \+(\d+)(?:,(\d+))? @@ and the number it captures. */
  function HunkStart(l: string): Option<nat> {
    var a := DropPrefix(l, "@@ -");
    if a.None? then None else
    var b := EatNumber(a.value);
    if b.None? then None else
    var c := DropPrefix(EatLength(b.value.1), " +");
    if c.None? then None else
    var d := EatNumber(c.value);
    if d.None? || DropPrefix(EatLength(d.value.1), " @@").None? then None else Some(d.value.0)
  }

  /** ^\+\+\+ b/(.+)$ and the name it captures, stripped. */
  function FileName(l: string): Option<string> {
    var a := DropPrefix(l, "+++ b/");
    if a.None? || a.value == "" then None else Some(Strip(a.value))
  }

  // ----- the scanner

  type Touched = map<string, set<nat>>

  datatype Scan = Scan(cur: Option<string>, newLn: nat, out: Touched)

  /** range(max(1, n - 3), n + 4) */
  function Near(n: nat): set<nat> {
    set k: nat | k < n + 4 && CloseTo(n, k)
  }

  predicate CloseTo(n: nat, k: nat) {
    1 <= k && n - 3 <= k <= n + 3
  }

  function Touch(out: Touched, f: string, lines: set<nat>): Touched {
    out[f := (if f in out then out[f] else {}) + lines]
  }

  function ScanLine(st: Scan, l: string): Scan {
    if FileName(l).Some? then st.(cur := FileName(l))
    else if HunkStart(l).Some? then st.(newLn := HunkStart(l).value)
    else if st.cur.None? || l == "" then st
    else if l[0] == '+' && DropPrefix(l, "+++").None? then
      st.(out := Touch(st.out, st.cur.value, Near(st.newLn)), newLn := st.newLn + 1)
    else if l[0] == ' ' then st.(newLn := st.newLn + 1)
    else st
  }

  function ScanAll(st: Scan, ls: seq<string>): Scan
    decreases |ls|
  {
    if |ls| == 0 then st else ScanAll(ScanLine(st, ls[0]), ls[1..])
  }

  lemma {:induction false} ScanConcat(st: Scan, a: seq<string>, b: seq<string>)
    ensures ScanAll(st, a + b) == ScanAll(ScanAll(st, a), b)
    decreases |a|
  {
    if |a| == 0 {
      assert a + b == b;
    } else {
      assert (a + b)[1..] == a[1..] + b;
      ScanConcat(ScanLine(st, a[0]), a[1..], b);
    }
  }

  /** The series file's entries: blank lines, comments and missing patches are passed over. */
  function Entry(raw: string): Option<string> {
    var line := Strip(raw);
    if line == "" || line[0] == '#' then None else Some(line)
  }

  /** The line names the patch `name`: that is all it has but blanks, and it is no comment. */
  predicate NamesPatch(raw: string, name: string) {
    Strip(raw) == name && name != "" && name[0] != '#'
  }

  lemma EntryIff(raw: string, name: string)
    ensures Entry(raw) == Some(name) <==> NamesPatch(raw, name)
  {
  }

  function ScanPatch(out: Touched, ls: seq<string>): Touched {
    ScanAll(Scan(None, 0, out), ls).out
  }

  function ScanSeries(series: seq<string>, patches: map<string, seq<string>>): Touched {
    if |series| == 0 then map[]
    else
      var out := ScanSeries(series[..|series| - 1], patches);
      var e := Entry(series[|series| - 1]);
      if e.Some? && e.value in patches then ScanPatch(out, patches[e.value]) else out
  }

  /** lines_touched: one pass over every patch, updating `cur`, `newLn` and the sets. */
  method LinesTouched(series: seq<string>, patches: map<string, seq<string>>) returns (out: Touched)
    ensures out == ScanSeries(series, patches)
  {
    out := map[];
    for i := 0 to |series|
      invariant out == ScanSeries(series[..i], patches)
    {
      assert series[..i + 1][..i] == series[..i];
      var line := Strip(series[i]);
      if line != "" && line[0] != '#' && line in patches {
        out := PatchLines(patches[line], out);
      }
    }
    assert series[..|series|] == series;
  }

  method PatchLines(ls: seq<string>, before: Touched) returns (out: Touched)
    ensures out == ScanPatch(before, ls)
  {
    var cur: Option<string>, newLn := None, 0;
    out := before;
    for i := 0 to |ls|
      invariant ScanAll(Scan(cur, newLn, out), ls[i..]) == ScanAll(Scan(None, 0, before), ls)
    {
      assert ls[i..][0] == ls[i] && ls[i..][1..] == ls[i + 1..];
      var l := ls[i];
      var m := FileName(l);
      if m.Some? { cur := m; continue; }
      var h := HunkStart(l);
      if h.Some? { newLn := h.value; continue; }
      if cur.None? || l == "" { continue; }
      if l[0] == '+' && DropPrefix(l, "+++").None? {
        out := Touch(out, cur.value, Near(newLn));
        newLn := newLn + 1;
      } else if l[0] == ' ' {
        newLn := newLn + 1;
      }
    }
  }

  // ----- what the scanner makes of each kind of line

  /** An added line the scanner takes for a file header. */
  predicate PlusPlus(e: Edit) {
    e.Add? && |e.text| >= 2 && e.text[0] == '+' && e.text[1] == '+'
  }

  /** One that even names a file. */
  predicate HeaderLike(e: Edit) {
    e.Add? && FileName(Line(e)).Some?
  }

  /** A line of the new file the counter passes over. */
  predicate Unseen(e: Edit) {
    e.Bare? || PlusPlus(e)
  }

  function SeenOne(e: Edit, at: nat): seq<Origin> {
    if Unseen(e) then [] else NewOne(e, at)
  }

  /** The lines a hunk leaves, as far as the counter notices them. */
  function Seen(edits: seq<Edit>, at: nat): seq<Origin> {
    if |edits| == 0 then [] else SeenOne(edits[0], at) + Seen(edits[1..], at + |OldOne(edits[0])|)
  }

  /** The line numbers written down for a file: those of the added lines that are seen. */
  function RecordedIn(hs: seq<Hunk>): set<nat> {
    if |hs| == 0 then {} else Added(Seen(hs[0].edits, 0), hs[0].newStart) + RecordedIn(hs[1..])
  }

  function RecordedBy(ds: seq<FileDiff>, f: string): set<nat> {
    if |ds| == 0 then {}
    else (if ds[0].name == Some(f) then RecordedIn(ds[0].hunks) else {}) + RecordedBy(ds[1..], f)
  }

  lemma {:induction false} RecordedByConcat(a: seq<FileDiff>, b: seq<FileDiff>, f: string)
    ensures RecordedBy(a + b, f) == RecordedBy(a, f) + RecordedBy(b, f)
  {
    hide RecordedIn;
    if |a| == 0 {
      assert a + b == b;
    } else {
      assert (a + b)[1..] == a[1..] + b;
      RecordedByConcat(a[1..], b, f);
    }
  }

  // ----- well-formed input

  /** A line that starts no file and records nothing. */
  predicate Inert(l: string) {
    FileName(l).None? && (l != "" && l[0] == '+' ==> DropPrefix(l, "+++").Some?)
  }

  ghost predicate HunkOk(h: Hunk, deletion: bool) {
    && (h.shortOld ==> |OldSide(h.edits)| == 1) && (h.shortNew ==> |NewSide(h.edits, 0)| == 1)
    && (forall e | e in h.edits :: !HeaderLike(e) && (deletion ==> e.Del? || e.NoNewline?))
  }

  /** Between two files only inert lines; before the first, anything but a file header. */
  ghost predicate FileOk(d: FileDiff, first: bool) {
    && (forall l | l in d.preamble :: if first then FileName(l).None? else Inert(l))
    && (forall h | h in d.hunks :: HunkOk(h, d.name.None?))
    && (d.name.Some? ==> d.name.value != "" && Trimmed(d.name.value) && AllSpace(d.blanks))
  }

  ghost predicate DiffsOk(ds: seq<FileDiff>, first: bool)
    decreases |ds|
  {
    |ds| == 0 || (FileOk(ds[0], first) && DiffsOk(ds[1..], first && ds[0].hunks == []))
  }

  /** A patch file: its diffs, and what follows the last of them. */
  datatype Patch = Patch(diffs: seq<FileDiff>, trailer: seq<string>)

  ghost predicate PatchOk(p: Patch) {
    DiffsOk(p.diffs, true) && forall l | l in p.trailer :: Inert(l)
  }

  // ----- which lines are touched

  /** Everything within three lines of `lines`, floored at line one. */
  function Around(lines: set<nat>): set<nat> {
    set n, k | n in lines && k in Near(n) :: k
  }

  lemma AroundUnion(a: set<nat>, b: set<nat>)
    ensures Around(a + b) == Around(a) + Around(b)
  {
  }

  lemma AroundOne(n: nat)
    ensures Around({n}) == Near(n)
  {
  }

  ghost predicate Close(line: nat, numbers: set<nat>) {
    line >= 1 && exists n :: n in numbers && n - 3 <= line <= n + 3
  }

  /** Touched are the lines within three of a recorded one, line numbers starting at one. */
  lemma AroundMeans(numbers: set<nat>, line: nat)
    ensures line in Around(numbers) <==> Close(line, numbers)
  {
    if n: nat :| n in numbers && n - 3 <= line <= n + 3 && line >= 1 { assert line in Near(n); }
  }

  function TouchedIn(out: Touched, f: string): set<nat> {
    if f in out then out[f] else {}
  }

  /** `out'` has `lines` more for `f`, and nothing more for any other file. */
  ghost predicate Grew(out: Touched, out': Touched, f: string, lines: set<nat>) {
    forall g :: TouchedIn(out', g) == TouchedIn(out, g) + if g == f then lines else {}
  }

  ghost predicate SameTouched(out: Touched, out': Touched) {
    forall g :: TouchedIn(out', g) == TouchedIn(out, g)
  }

  lemma GrewTwice(out: Touched, out': Touched, out'': Touched, f: string, a: set<nat>, b: set<nat>)
    requires Grew(out, out', f, a) && Grew(out', out'', f, b)
    ensures Grew(out, out'', f, a + b)
  {
  }

  // ----- the patterns read what git writes

  lemma HeaderIsRead(h: Hunk)
    ensures HunkStart(Header(h)) == Some(h.newStart) && FileName(Header(h)).None?
  {
    hide OldSide, NewSide, HunkStart, Show, Length, Digits;
    var m := RangeIs(h.oldStart, |OldSide(h.edits)|, h.shortOld);
    var n := RangeIs(h.newStart, |NewSide(h.edits, 0)|, h.shortNew);
    hide Range;
    var a, b := Show(h.oldStart), Show(h.newStart);
    Associate(b, n, " @@" + h.heading);
    Associate(a, m, " +" + (b + (n + (" @@" + h.heading))));
    assert HunkShape(Header(h), a, m, b, n, h.heading);
    ShapeIsRead(Header(h), a, m, b, n, h.heading);
    ValueOfShow(h.newStart);
    PrefixFails(Header(h), "+++ b/", 0);
  }

  lemma RangeIs(start: nat, len: nat, short: bool) returns (m: string)
    ensures Digits(Show(start)) && Length(m) && Range(start, len, short) == Show(start) + m
  {
    m := if short then "" else "," + Show(len);
    if !short { assert m[1..] == Show(len); }
  }

  lemma Associate(a: string, b: string, c: string)
    ensures (a + b) + c == a + (b + c)
  {
  }

  predicate Digits(d: string) {
    d != "" && AllDigits(d)
  }

  /** Nothing, or a comma and digits. */
  predicate Length(s: string) {
    s == "" || (s[0] == ',' && Digits(s[1..]))
  }

  predicate HunkShape(l: string, a: string, m: string, b: string, n: string, rest: string) {
    && Digits(a) && Length(m) && Digits(b) && Length(n)
    && l == "@@ -" + (a + (m + (" +" + (b + (n + (" @@" + rest))))))
  }

  /** Exactly which lines are hunk headers, and which number is taken from one. */
  lemma HunkStartIff(l: string, start: nat)
    ensures HunkStart(l) == Some(start) <==>
      exists a, m, b, n, rest :: HunkShape(l, a, m, b, n, rest) && Value(b) == start
  {
    if HunkStart(l) == Some(start) { HeaderTaken(l, start); }
    if a, m, b, n, rest :| HunkShape(l, a, m, b, n, rest) && Value(b) == start { ShapeIsRead(l, a, m, b, n, rest); }
  }

  lemma EatShape(a: string, m: string, rest: string)
    requires Digits(a) && Length(m) && rest != "" && rest[0] == ' '
    ensures EatNumber(a + (m + rest)) == Some((Value(a), m + rest)) && EatLength(m + rest) == rest
  {
    DigitRunIs(a, m + rest);
    if m == "" {
      assert m + rest == rest;
    } else {
      assert (m + rest)[1..] == m[1..] + rest;
      DigitRunIs(m[1..], rest);
    }
  }

  lemma ShapeIsRead(l: string, a: string, m: string, b: string, n: string, rest: string)
    requires HunkShape(l, a, m, b, n, rest)
    ensures HunkStart(l) == Some(Value(b))
  {
    hide EatNumber, EatLength, DropPrefix, Digits, Length;
    var end := " @@" + rest;
    var mid := " +" + (b + (n + end));
    PrefixDrops("@@ -", a + (m + mid));
    EatShape(a, m, mid);
    PrefixDrops(" +", b + (n + end));
    EatShape(b, n, end);
    PrefixDrops(" @@", rest);
  }

  lemma NumberTaken(s: string) returns (a: string)
    ensures EatNumber(s).Some? ==> Digits(a) && EatNumber(s).value.0 == Value(a) && s == a + EatNumber(s).value.1
  {
    a := s[..DigitRun(s)];
  }

  lemma LengthTaken(s: string) returns (m: string)
    ensures Length(m) && s == m + EatLength(s)
  {
    m := "";
    if |s| > 0 && s[0] == ',' && DigitRun(s[1..]) > 0 {
      var run := DigitRun(s[1..]);
      m := s[..run + 1];
      assert m[1..] == s[1..][..run] && s[run + 1..] == s[1..][run..];
    }
  }

  lemma PrefixTaken(s: string, word: string)
    ensures DropPrefix(s, word).Some? ==> s == word + DropPrefix(s, word).value
  {
  }

  lemma HeaderTaken(l: string, start: nat)
    requires HunkStart(l) == Some(start)
    ensures exists a, m, b, n, rest :: HunkShape(l, a, m, b, n, rest) && Value(b) == start
  {
    hide EatNumber, EatLength, DropPrefix, Digits, Length, Value;
    PrefixTaken(l, "@@ -");
    var s1 := DropPrefix(l, "@@ -").value;
    var a := NumberTaken(s1);
    var s2 := EatNumber(s1).value.1;
    var m := LengthTaken(s2);
    PrefixTaken(EatLength(s2), " +");
    var s3 := DropPrefix(EatLength(s2), " +").value;
    var b := NumberTaken(s3);
    var s4 := EatNumber(s3).value.1;
    var n := LengthTaken(s4);
    PrefixTaken(EatLength(s4), " @@");
    var rest := DropPrefix(EatLength(s4), " @@").value;
    assert HunkShape(l, a, m, b, n, rest);
  }

  /** Exactly which lines name a file, and which. */
  lemma FileNameIff(l: string, f: string)
    ensures FileName(l) == Some(f) <==> exists name | name != "" && l == "+++ b/" + name :: f == Strip(name)
  {
    hide Strip;
    PrefixTaken(l, "+++ b/");
    if name :| name != "" && l == "+++ b/" + name && f == Strip(name) { PrefixDrops("+++ b/", name); }
    hide DropPrefix;
  }

  lemma NameIsRead(d: FileDiff)
    requires d.name.Some? ==> d.name.value != "" && Trimmed(d.name.value) && AllSpace(d.blanks)
    ensures d.name.Some? ==> FileName(NameLine(d)) == d.name
    ensures d.name.None? ==> Inert(NameLine(d)) && HunkStart(NameLine(d)).None?
  {
    if d.name.Some? {
      PrefixDrops("+++ b/", d.name.value + d.blanks);
      StripTrailing(d.name.value, d.blanks);
    } else {
      PrefixFails(NameLine(d), "+++ b/", 4);
      PrefixFails(NameLine(d), "@@ -", 0);
      assert NameLine(d)[0] == NameLine(d)[1] == NameLine(d)[2] == '+';
      assert NameLine(d)[..3] == "+++";
    }
  }

  lemma EditLineIsPlain(e: Edit)
    requires !HeaderLike(e)
    ensures FileName(Line(e)).None? && HunkStart(Line(e)).None?
    ensures e.Add? ==> (DropPrefix(Line(e), "+++").Some? <==> PlusPlus(e))
  {
    hide DropPrefix;
    var l := Line(e);
    PrefixFails(l, "@@ -", 0);
    if !e.Add? {
      PrefixFails(l, "+++ b/", 0);
    } else if PlusPlus(e) {
      assert l == "+++" + e.text[2..];
      PrefixDrops("+++", e.text[2..]);
    } else {
      PrefixFails(l, "+++", if |l| > 1 && l[1] != '+' then 1 else 2);
    }
  }

  // ----- the counter

  lemma LinesCons(edits: seq<Edit>)
    requires |edits| > 0
    ensures Lines(edits)[0] == Line(edits[0]) && Lines(edits)[1..] == Lines(edits[1..])
  {
  }

  lemma ScanEdit(st: Scan, e: Edit, at: nat)
    requires !HeaderLike(e)
    ensures var t := ScanLine(st, Line(e));
            && (st.cur.None? ==> t == st)
            && (st.cur.Some? ==> t.cur == st.cur && t.newLn == st.newLn + |SeenOne(e, at)|
                                 && Grew(st.out, t.out, st.cur.value, Around(Added(SeenOne(e, at), st.newLn))))
  {
    EditLineIsPlain(e);
    hide Around, Added, FileName, HunkStart, DropPrefix, Near, PlusPlus;
    NothingAround();
    if !Unseen(e) && (e.Keep? || e.Add?) {
      AddedOne(NewOne(e, at)[0], st.newLn);
      AroundOne(st.newLn);
    }
  }

  lemma NothingAround()
    ensures Around({}) == {} && forall n :: Added([], n) == {}
  {
    assert forall n :: Added([], n) == {};
  }

  /** Over a hunk's lines the scanner records exactly the added lines it sees, numbered as if
      the ones it does not see were not there. */
  lemma {:induction false} ScanEdits(st: Scan, edits: seq<Edit>, at: nat)
    requires forall e | e in edits :: !HeaderLike(e)
    ensures var t := ScanAll(st, Lines(edits));
            && (st.cur.None? ==> t == st)
            && (st.cur.Some? ==> t.cur == st.cur && t.newLn == st.newLn + |Seen(edits, at)|
                                 && Grew(st.out, t.out, st.cur.value, Around(Added(Seen(edits, at), st.newLn))))
    decreases |edits|
  {
    hide HeaderLike, Grew, Around, Added, ScanLine, SeenOne, Line, Lines, OldOne;
    if |edits| == 0 {
      NothingScanned(st);
    } else {
      var e, rest := edits[0], edits[1..];
      var next := at + |OldOne(e)|;
      assert e in edits;
      LinesCons(edits);
      ScanEdit(st, e, at);
      var t := ScanLine(st, Line(e));
      ScanEdits(t, rest, next);
      assert ScanAll(st, Lines(edits)) == ScanAll(t, Lines(rest));
      if st.cur.Some? {
        AddedConcat(SeenOne(e, at), Seen(rest, next), st.newLn);
        AroundUnion(Added(SeenOne(e, at), st.newLn), Added(Seen(rest, next), t.newLn));
        GrewTwice(st.out, t.out, ScanAll(t, Lines(rest)).out, st.cur.value, Around(Added(SeenOne(e, at), st.newLn)),
                  Around(Added(Seen(rest, next), t.newLn)));
      }
    }
  }

  lemma NothingScanned(st: Scan)
    ensures ScanAll(st, Lines([])) == st
    ensures forall f, n :: Grew(st.out, st.out, f, Around(Added([], n)))
  {
    NothingAround();
  }

  lemma {:induction false} ScanHunks(st: Scan, hs: seq<Hunk>)
    requires forall h, e | h in hs && e in h.edits :: !HeaderLike(e)
    ensures var t := ScanAll(st, HunksText(hs));
            && t.cur == st.cur
            && (st.cur.None? ==> t.out == st.out)
            && (st.cur.Some? ==> Grew(st.out, t.out, st.cur.value, Around(RecordedIn(hs))))
    decreases |hs|
  {
    hide Grew, Around, Added, ScanLine, Seen, HeaderLike, HunkText, HunksText, Header;
    if |hs| == 0 {
      NoHunks(st);
    } else {
      var h := hs[0];
      var started := ScanLine(st, Header(h));
      HeaderScans(st, h);
      assert h in hs;
      ScanEdits(started, h.edits, 0);
      var t := ScanAll(started, Lines(h.edits));
      ScanHunks(t, hs[1..]);
      HunksTextCons(st, hs);
      if st.cur.Some? {
        AroundUnion(Added(Seen(h.edits, 0), h.newStart), RecordedIn(hs[1..]));
        GrewTwice(st.out, t.out, ScanAll(t, HunksText(hs[1..])).out, st.cur.value,
                  Around(Added(Seen(h.edits, 0), h.newStart)), Around(RecordedIn(hs[1..])));
      }
    }
  }

  lemma NoHunks(st: Scan)
    ensures ScanAll(st, HunksText([])) == st
    ensures st.cur.Some? ==> Grew(st.out, st.out, st.cur.value, Around(RecordedIn([])))
  {
    NothingAround();
  }

  lemma HeaderScans(st: Scan, h: Hunk)
    ensures ScanLine(st, Header(h)) == st.(newLn := h.newStart)
  {
    HeaderIsRead(h);
  }

  lemma HunksTextCons(st: Scan, hs: seq<Hunk>)
    requires |hs| > 0
    ensures ScanAll(st, HunksText(hs)) ==
      ScanAll(ScanAll(ScanLine(st, Header(hs[0])), Lines(hs[0].edits)), HunksText(hs[1..]))
  {
    ScanConcat(st, HunkText(hs[0]), HunksText(hs[1..]));
    assert HunkText(hs[0])[1..] == Lines(hs[0].edits);
  }

  // ----- files, patches, series

  lemma {:induction false} ScanInert(st: Scan, ls: seq<string>)
    requires (forall l | l in ls :: Inert(l)) || (st.cur.None? && forall l | l in ls :: FileName(l).None?)
    ensures var t := ScanAll(st, ls); t.cur == st.cur && t.out == st.out
    decreases |ls|
  {
    hide FileName, HunkStart;
    if |ls| > 0 {
      assert ls[0] in ls;
      ScanInert(ScanLine(st, ls[0]), ls[1..]);
    }
  }

  lemma {:induction false} DeletionRecordsNothing(edits: seq<Edit>, at: nat)
    requires forall e | e in edits :: e.Del? || e.NoNewline?
    ensures Seen(edits, at) == []
  {
    if |edits| > 0 {
      assert edits[0] in edits;
      DeletionRecordsNothing(edits[1..], at + |OldOne(edits[0])|);
    }
  }

  lemma {:induction false} DeletionsRecordNothing(hs: seq<Hunk>)
    requires forall h | h in hs :: HunkOk(h, true)
    ensures RecordedIn(hs) == {}
  {
    if |hs| > 0 {
      assert hs[0] in hs;
      DeletionRecordsNothing(hs[0].edits, 0);
      NothingAround();
      DeletionsRecordNothing(hs[1..]);
    }
  }

  lemma ScanNames(st: Scan, d: FileDiff)
    requires d.name.Some? ==> d.name.value != "" && Trimmed(d.name.value) && AllSpace(d.blanks)
    ensures var t := ScanLine(ScanLine(st, OldNameLine(d)), NameLine(d));
            t.out == st.out && t.cur == if d.name.Some? then d.name else st.cur
  {
    PrefixFails(OldNameLine(d), "+++ b/", 0);
    PrefixFails(OldNameLine(d), "@@ -", 0);
    NameIsRead(d);
    hide FileName, HunkStart, DropPrefix;
  }

  lemma ScanFile(st: Scan, d: FileDiff, first: bool)
    requires FileOk(d, first) && (first ==> st.cur.None?)
    ensures var t := ScanAll(st, FileText(d));
            && (first && d.hunks == [] ==> t.cur.None?)
            && if d.name.Some? then Grew(st.out, t.out, d.name.value, Around(RecordedIn(d.hunks))) else SameTouched(st.out, t.out)
  {
    hide FileName, ScanLine, RecordedIn, HunksText, OldNameLine, NameLine;
    var t := ScanAll(st, d.preamble);
    ScanInert(st, d.preamble);
    if |d.hunks| == 0 {
      assert FileText(d) == d.preamble + [] == d.preamble;
      NoHunks(st.(cur := Some("")));
      NothingRecorded(st.out);
    } else {
      var hunks := HunksText(d.hunks);
      ScanConcat(st, d.preamble, [OldNameLine(d)] + ([NameLine(d)] + hunks));
      ScanTwo(t, OldNameLine(d), NameLine(d), hunks);
      ScanNames(t, d);
      var u := ScanLine(ScanLine(t, OldNameLine(d)), NameLine(d));
      ScanHunks(u, d.hunks);
      if d.name.None? {
        DeletionsRecordNothing(d.hunks);
        NothingAround();
      }
    }
  }

  lemma NothingRecorded(out: Touched)
    ensures forall f :: Grew(out, out, f, Around(RecordedIn([])))
  {
    NothingAround();
  }

  lemma ScanTwo(st: Scan, a: string, b: string, rest: seq<string>)
    ensures ScanAll(st, [a] + ([b] + rest)) == ScanAll(ScanLine(ScanLine(st, a), b), rest)
  {
    hide ScanLine;
    assert ([a] + ([b] + rest))[1..] == [b] + rest && ([b] + rest)[1..] == rest;
  }

  lemma {:induction false} ScanDiffs(st: Scan, ds: seq<FileDiff>, first: bool, f: string)
    requires DiffsOk(ds, first) && (first ==> st.cur.None?)
    ensures var t := ScanAll(st, PatchText(ds));
            TouchedIn(t.out, f) == TouchedIn(st.out, f) + Around(RecordedBy(ds, f))
    decreases |ds|
  {
    hide FileOk, FileText, RecordedIn, Around;
    if |ds| == 0 {
      NothingAround();
    } else {
      var d := ds[0];
      ScanConcat(st, FileText(d), PatchText(ds[1..]));
      ScanFile(st, d, first);
      ScanDiffs(ScanAll(st, FileText(d)), ds[1..], first && d.hunks == [], f);
      NothingAround();
      AroundUnion(if d.name == Some(f) then RecordedIn(d.hunks) else {}, RecordedBy(ds[1..], f));
    }
  }

  /** Every patch on disk is a well-formed one. */
  ghost predicate AllOk(patches: map<string, Patch>) {
    forall name | name in patches :: PatchOk(patches[name])
  }

  function Written(patches: map<string, Patch>): map<string, seq<string>> {
    map name | name in patches :: PatchText(patches[name].diffs) + patches[name].trailer
  }

  /** All the changes of a series, in order. */
  function Changes(series: seq<string>, patches: map<string, Patch>): seq<FileDiff> {
    if |series| == 0 then []
    else
      var e := Entry(series[|series| - 1]);
      Changes(series[..|series| - 1], patches)
      + if e.Some? && e.value in patches then patches[e.value].diffs else []
  }

  /** For every series the touched lines of a file are exactly those within three of a
      recorded one, over any number of hunks, files and patches. */
  lemma {:induction false} TouchedIsAroundRecorded(series: seq<string>, patches: map<string, Patch>, f: string)
    requires AllOk(patches)
    ensures TouchedIn(ScanSeries(series, Written(patches)), f) == Around(RecordedBy(Changes(series, patches), f))
    decreases |series|
  {
    hide Around, PatchOk, RecordedBy, Entry, ScanPatch;
    if |series| == 0 {
      NothingRecordedBy(f);
    } else {
      var init := series[..|series| - 1];
      TouchedIsAroundRecorded(init, patches, f);
      var e := Entry(series[|series| - 1]);
      if e.Some? && e.value in patches {
        var p := patches[e.value];
        ScanOnePatch(ScanSeries(init, Written(patches)), p, f);
        RecordedByConcat(Changes(init, patches), p.diffs, f);
        AroundUnion(RecordedBy(Changes(init, patches), f), RecordedBy(p.diffs, f));
      } else {
        assert Changes(series, patches) == Changes(init, patches) + [] == Changes(init, patches);
      }
    }
  }

  /** Some line of the series file names a patch there that adds a line of `f` within three of it. */
  ghost predicate Named(series: seq<string>, patches: map<string, Patch>, f: string, line: nat) {
    exists i, name | 0 <= i < |series| && NamesPatch(series[i], name) && name in patches ::
      Close(line, RecordedBy(patches[name].diffs, f))
  }

  lemma NamedStep(init: seq<string>, raw: string, patches: map<string, Patch>, f: string, line: nat)
    ensures Named(init + [raw], patches, f, line) <==>
      Named(init, patches, f, line)
      || (Entry(raw).Some? && Entry(raw).value in patches && Close(line, RecordedBy(patches[Entry(raw).value].diffs, f)))
  {
    var series := init + [raw];
    assert series[|init|] == raw && forall i | 0 <= i < |init| :: series[i] == init[i];
    forall name ensures Entry(raw) == Some(name) <==> NamesPatch(raw, name) { EntryIff(raw, name); }
    hide Entry, NamesPatch, Close, RecordedBy;
    if Entry(raw).Some? { assert NamesPatch(series[|init|], Entry(raw).value); }
    if i, name :| 0 <= i < |init| && NamesPatch(init[i], name) && name in patches && Close(line, RecordedBy(patches[name].diffs, f)) {
      assert NamesPatch(series[i], name);
    }
  }

  /** Patch by patch: a line of `f` is touched if and only if the series names such a patch. */
  lemma {:induction false} TouchedIffNamed(series: seq<string>, patches: map<string, Patch>, f: string, line: nat)
    requires AllOk(patches)
    ensures line in TouchedIn(ScanSeries(series, Written(patches)), f) <==> Named(series, patches, f, line)
    decreases |series|
  {
    hide Around, PatchOk, RecordedBy, Entry, ScanPatch, NamesPatch, Close, Named;
    if |series| == 0 {
      NothingNamed(patches, f, line);
    } else {
      var init, raw := series[..|series| - 1], series[|series| - 1];
      assert series == init + [raw];
      TouchedIffNamed(init, patches, f, line);
      NamedStep(init, raw, patches, f, line);
      if Entry(raw).Some? && Entry(raw).value in patches {
        var p := patches[Entry(raw).value];
        ScanOnePatch(ScanSeries(init, Written(patches)), p, f);
        AroundMeans(RecordedBy(p.diffs, f), line);
      }
    }
  }

  lemma NothingNamed(patches: map<string, Patch>, f: string, line: nat)
    ensures !Named([], patches, f, line)
  {
  }

  lemma NothingRecordedBy(f: string)
    ensures Around(RecordedBy([], f)) == {}
  {
    NothingAround();
  }

  lemma ScanOnePatch(out: Touched, p: Patch, f: string)
    requires PatchOk(p)
    ensures TouchedIn(ScanPatch(out, PatchText(p.diffs) + p.trailer), f) == TouchedIn(out, f) + Around(RecordedBy(p.diffs, f))
  {
    hide DiffsOk, Around, RecordedBy, Inert;
    var st := Scan(None, 0, out);
    ScanConcat(st, PatchText(p.diffs), p.trailer);
    ScanDiffs(st, p.diffs, true, f);
    ScanInert(ScanAll(st, PatchText(p.diffs)), p.trailer);
  }

  // ----- the limit of the scanner

  function Lag(edits: seq<Edit>): nat {
    if |edits| == 0 then 0 else (if Unseen(edits[0]) then 1 else 0) + Lag(edits[1..])
  }

  /** The counter falls behind the patched file by one for every added line that starts with
      "++" and every unaffected empty line written without its space; it keeps up exactly
      when there is neither. */
  lemma CounterKeepsUpIff(st: Scan, edits: seq<Edit>, at: nat)
    requires st.cur.Some?
    ensures var t := ScanAll(st, Lines(edits));
            && t.cur.Some? && t.newLn + Lag(edits) == st.newLn + |NewSide(edits, at)|
            && (t.newLn == st.newLn + |NewSide(edits, at)| <==> forall e | e in edits :: !Unseen(e))
  {
    hide ScanAll, Unseen, Lag;
    CounterLags(st, edits, at);
    NoLagIff(edits);
  }

  lemma {:induction false} NoLagIff(edits: seq<Edit>)
    ensures Lag(edits) == 0 <==> forall e | e in edits :: !Unseen(e)
  {
    hide Unseen;
    if |edits| > 0 {
      NoLagIff(edits[1..]);
      assert edits == [edits[0]] + edits[1..];
    }
  }

  lemma {:induction false} CounterLags(st: Scan, edits: seq<Edit>, at: nat)
    requires st.cur.Some?
    ensures var t := ScanAll(st, Lines(edits)); t.cur.Some? && t.newLn + Lag(edits) == st.newLn + |NewSide(edits, at)|
    decreases |edits|
  {
    hide ScanLine, Line, NewOne, OldOne, Lines;
    if |edits| == 0 {
      NothingScanned(st);
    } else {
      var e, rest := edits[0], edits[1..];
      LinesCons(edits);
      OneIsCounted(st, e, at);
      CounterLags(ScanLine(st, Line(e)), rest, at + |OldOne(e)|);
    }
  }

  lemma OneIsCounted(st: Scan, e: Edit, at: nat)
    requires st.cur.Some?
    ensures var t := ScanLine(st, Line(e));
            t.cur.Some? && t.newLn + (if Unseen(e) then 1 else 0) == st.newLn + |NewOne(e, at)|
  {
    if PlusPlus(e) { PlusPlusIsSkipped(st, e); } else { PlainIsCounted(st, e, at); }
  }

  lemma PlainIsCounted(st: Scan, e: Edit, at: nat)
    requires st.cur.Some? && !PlusPlus(e)
    ensures var t := ScanLine(st, Line(e));
            t.cur == st.cur && t.newLn == st.newLn + |NewOne(e, at)| - if Unseen(e) then 1 else 0
  {
    if e.Add? {
      PrefixFails(Line(e), "+++ b/", if |Line(e)| > 1 && Line(e)[1] != '+' then 1 else 2);
    }
    ScanEdit(st, e, at);
  }

  /** A "++" line is never recorded, wherever it lands. */
  lemma PlusPlusIsSkipped(st: Scan, e: Edit)
    requires st.cur.Some? && PlusPlus(e)
    ensures var t := ScanLine(st, Line(e)); t.out == st.out && t.newLn == st.newLn && t.cur.Some?
  {
    var l := Line(e);
    assert l == "+++" + e.text[2..];
    PrefixDrops("+++", e.text[2..]);
    PrefixFails(l, "@@ -", 0);
  }

  /** One that reads as a file header even moves the rest of its hunk to another file. */
  lemma HeaderLikeMovesOn(st: Scan, e: Edit)
    requires HeaderLike(e)
    ensures ScanLine(st, Line(e)) == st.(cur := FileName(Line(e))) && PlusPlus(e)
  {
    assert Line(e)[..6] == "+++ b/";
    assert e.text[0] == Line(e)[..6][1] && e.text[1] == Line(e)[..6][2];
  }
}
