/**
  CPU lists (hyphaed/topology.py, hyphaed/grub.py): the printer of range lists like
  "0-3,8,10-11", the two parsers that read them back, and why they fit together.
*/
module CpuMask {
  import opened Prelude
  import opened Decimal
  import opened Text

  // ----- sorted(set(xs))

  ghost predicate Ascending(xs: seq<int>) {
    forall i, j | 0 <= i < j < |xs| :: xs[i] < xs[j]
  }

  function Insert(x: int, xs: seq<int>): (r: seq<int>)
    ensures forall y :: y in r <==> y == x || y in xs
  {
    if |xs| == 0 || x < xs[0] then [x] + xs
    else if x == xs[0] then xs
    else [xs[0]] + Insert(x, xs[1..])
  }

  function Sorted(xs: seq<int>): (r: seq<int>)
    ensures forall y :: y in r <==> y in xs
  {
    if |xs| == 0 then [] else Insert(xs[|xs| - 1], Sorted(xs[..|xs| - 1]))
  }

  lemma {:induction false} InsertAscending(x: int, xs: seq<int>)
    requires Ascending(xs)
    ensures Ascending(Insert(x, xs))
  {
    if |xs| > 0 && x > xs[0] {
      InsertAscending(x, xs[1..]);
      var r := Insert(x, xs[1..]);
      forall i | 0 <= i < |r|
        ensures xs[0] < r[i]
      {
        assert r[i] in r;
      }
    }
  }

  lemma {:induction false} SortedAscending(xs: seq<int>)
    ensures Ascending(Sorted(xs))
  {
    if |xs| > 0 {
      SortedAscending(xs[..|xs| - 1]);
      InsertAscending(xs[|xs| - 1], Sorted(xs[..|xs| - 1]));
    }
  }

  /** An ascending list is fixed by its elements. */
  lemma {:induction false} AscendingUnique(a: seq<int>, b: seq<int>)
    requires Ascending(a) && Ascending(b) && forall x :: x in a <==> x in b
    ensures a == b
    decreases |a|
  {
    SameEmptiness(a, b);
    if |a| > 0 {
      assert a[0] in b && b[0] in a;
      TailOf(a);
      TailOf(b);
      AscendingUnique(a[1..], b[1..]);
    }
  }

  lemma SameEmptiness(a: seq<int>, b: seq<int>)
    requires forall x :: x in a <==> x in b
    ensures |a| > 0 <==> |b| > 0
  {
    if |a| > 0 {
      var x := a[0];
      assert x in a && x in b;
    }
    if |b| > 0 {
      var x := b[0];
      assert x in b && x in a;
    }
  }

  lemma TailOf(a: seq<int>)
    requires Ascending(a) && |a| > 0
    ensures forall x :: x in a[1..] <==> x in a && x != a[0]
  {
  }

  // ----- ranges

  function Span(lo: int, hi: int): seq<int> {
    seq(if lo <= hi then hi - lo + 1 else 0, i => lo + i)
  }

  /** One more number: it lengthens the last run or opens a new one. */
  function Extend(rs: seq<(int, int)>, x: int): (r: seq<(int, int)>)
    ensures |r| > 0 && r[|r| - 1].1 == x
  {
    if |rs| > 0 && rs[|rs| - 1].1 + 1 == x then rs[..|rs| - 1] + [(rs[|rs| - 1].0, x)] else rs + [(x, x)]
  }

  /** The runs of consecutive numbers in an ascending list. */
  function Runs(xs: seq<int>): (rs: seq<(int, int)>)
    ensures |xs| > 0 <==> |rs| > 0
    ensures |xs| > 0 ==> rs[|rs| - 1].1 == xs[|xs| - 1]
  {
    if |xs| == 0 then [] else Extend(Runs(xs[..|xs| - 1]), xs[|xs| - 1])
  }

  function Flat(rs: seq<(int, int)>): seq<int> {
    if |rs| == 0 then [] else Flat(rs[..|rs| - 1]) + Span(rs[|rs| - 1].0, rs[|rs| - 1].1)
  }

  lemma FlatGrows(rs: seq<(int, int)>, lo: int, hi: int)
    requires lo <= hi
    ensures Flat(rs + [(lo, hi + 1)]) == Flat(rs + [(lo, hi)]) + [hi + 1]
  {
    assert (rs + [(lo, hi + 1)])[..|rs|] == rs == (rs + [(lo, hi)])[..|rs|];
    assert Span(lo, hi + 1) == Span(lo, hi) + [hi + 1];
  }

  lemma SpanOfOne(x: int)
    ensures Span(x, x) == [x]
  {
  }

  lemma FlatLast(rs: seq<(int, int)>, r: (int, int))
    ensures Flat(rs + [r]) == Flat(rs) + Span(r.0, r.1)
  {
    assert (rs + [r])[..|rs|] == rs;
  }

  /** Runs are in order and a gap of at least one number apart. */
  ghost predicate Apart(rs: seq<(int, int)>) {
    && (forall i | 0 <= i < |rs| :: rs[i].0 <= rs[i].1)
    && (forall i, j | 0 <= i < j < |rs| :: rs[i].1 + 1 < rs[j].0)
  }

  lemma ExtendCovers(rs: seq<(int, int)>, x: int)
    requires Apart(rs)
    ensures Flat(Extend(rs, x)) == Flat(rs) + [x]
  {
    hide Span, Flat;
    if |rs| > 0 && rs[|rs| - 1].1 + 1 == x {
      var init, last := rs[..|rs| - 1], rs[|rs| - 1];
      FlatGrows(init, last.0, last.1);
      assert rs == init + [(last.0, last.1)];
    } else {
      FlatLast(rs, (x, x));
      SpanOfOne(x);
    }
  }

  lemma ExtendApart(rs: seq<(int, int)>, x: int)
    requires Apart(rs) && (|rs| > 0 ==> rs[|rs| - 1].1 < x)
    ensures Apart(Extend(rs, x))
  {
  }

  lemma {:induction false} RunsApart(xs: seq<int>)
    requires Ascending(xs)
    ensures Apart(Runs(xs))
  {
    hide Extend, Apart;
    if |xs| == 0 {
      NothingApart();
    } else {
      RunsApart(xs[..|xs| - 1]);
      ExtendApart(Runs(xs[..|xs| - 1]), xs[|xs| - 1]);
    }
  }

  lemma {:induction false} RunsCover(xs: seq<int>)
    requires Ascending(xs)
    ensures Flat(Runs(xs)) == xs
  {
    hide Extend, Apart, Flat;
    if |xs| == 0 {
      NothingApart();
    } else {
      var init, x := xs[..|xs| - 1], xs[|xs| - 1];
      RunsCover(init);
      RunsApart(init);
      ExtendCovers(Runs(init), x);
      assert xs == init + [x];
    }
  }

  lemma NothingApart()
    ensures Apart([]) && Flat([]) == []
  {
  }

  // ----- the fewest ranges

  /** The numbers a list of ranges stands for. */
  ghost predicate Stands(rs: seq<(int, int)>, x: int) {
    exists i :: 0 <= i < |rs| && rs[i].0 <= x <= rs[i].1
  }

  lemma StandsMore(init: seq<(int, int)>, last: (int, int), x: int)
    ensures Stands(init + [last], x) <==> Stands(init, x) || last.0 <= x <= last.1
  {
    var rs := init + [last];
    assert rs[|init|] == last;
    if Stands(init, x) {
      var i :| 0 <= i < |init| && init[i].0 <= x <= init[i].1;
      assert rs[i] == init[i];
    }
  }

  lemma {:induction false} FlatStands(rs: seq<(int, int)>, x: int)
    ensures x in Flat(rs) <==> Stands(rs, x)
  {
    if |rs| > 0 {
      var init, last := rs[..|rs| - 1], rs[|rs| - 1];
      FlatStands(init, x);
      StandsMore(init, last, x);
      assert rs == init + [last];
      var s := Span(last.0, last.1);
      assert last.0 <= x <= last.1 ==> s[x - last.0] == x;
    }
  }

  function Lows(rs: seq<(int, int)>): set<int> {
    set i | 0 <= i < |rs| :: rs[i].0
  }

  lemma {:induction false} LowsSize(rs: seq<(int, int)>)
    ensures |Lows(rs)| <= |rs|
    ensures (forall i, j | 0 <= i < j < |rs| :: rs[i].0 < rs[j].0) ==> |Lows(rs)| == |rs|
  {
    if |rs| > 0 {
      var init, last := rs[..|rs| - 1], rs[|rs| - 1];
      LowsSize(init);
      assert Lows(rs) == Lows(init) + {last.0} by {
        assert rs == init + [last];
        forall x | x in Lows(init)
          ensures x in Lows(rs)
        {
          var i :| 0 <= i < |init| && init[i].0 == x;
          assert rs[i].0 == x;
        }
        assert rs[|rs| - 1].0 in Lows(rs);
      }
    }
  }

  /** No list of ranges for the same numbers is shorter than the printed one: each of its
      runs starts after a gap, and only a range's own start can do that. */
  lemma RunsAreFewest(xs: seq<int>, other: seq<(int, int)>)
    requires Ascending(xs) && forall x :: Stands(other, x) <==> x in xs
    ensures |Runs(xs)| <= |other|
  {
    hide Ascending, Runs, Stands, Apart;
    var rs := Runs(xs);
    RunsApart(xs);
    forall x | x in Lows(rs)
      ensures x in Lows(other)
    {
      var i :| 0 <= i < |rs| && rs[i].0 == x;
      StartsAfterGap(xs, i);
      StartIsALow(other, x);
    }
    RunsAscend(rs);
    LowsSize(rs);
    LowsSize(other);
    SubsetSize(Lows(rs), Lows(other));
  }

  lemma RunsAscend(rs: seq<(int, int)>)
    requires Apart(rs)
    ensures forall i, j | 0 <= i < j < |rs| :: rs[i].0 < rs[j].0
  {
  }

  lemma StartIsALow(rs: seq<(int, int)>, x: int)
    requires Stands(rs, x) && !Stands(rs, x - 1)
    ensures x in Lows(rs)
  {
    var k :| 0 <= k < |rs| && rs[k].0 <= x <= rs[k].1;
    assert rs[k].0 in Lows(rs);
  }

  lemma StartsAfterGap(xs: seq<int>, i: nat)
    requires Ascending(xs) && i < |Runs(xs)|
    ensures Runs(xs)[i].0 in xs && Runs(xs)[i].0 - 1 !in xs
  {
    hide Runs, Ascending, Flat, Stands, Apart;
    var rs := Runs(xs);
    RunsCover(xs);
    RunsApart(xs);
    FlatStands(rs, rs[i].0);
    FlatStands(rs, rs[i].0 - 1);
    GapBefore(rs, i);
  }

  lemma GapBefore(rs: seq<(int, int)>, i: nat)
    requires i < |rs| && Apart(rs)
    ensures Stands(rs, rs[i].0) && !Stands(rs, rs[i].0 - 1)
  {
  }

  lemma {:induction false} SubsetSize<T>(a: set<T>, b: set<T>)
    requires a <= b
    ensures |a| <= |b|
  {
    if a != {} {
      var x :| x in a;
      SubsetSize(a - {x}, b - {x});
    }
  }

  // ----- printing

  function ShowRun(r: (int, int)): string
    requires 0 <= r.0 <= r.1
  {
    if r.0 != r.1 then Show(r.0) + ("-" + Show(r.1)) else Show(r.0)
  }

  ghost predicate Natural(xs: seq<int>) {
    forall x | x in xs :: 0 <= x
  }

  function ShowRuns(rs: seq<(int, int)>): (parts: seq<string>)
    requires forall r | r in rs :: 0 <= r.0 <= r.1
    ensures |parts| == |rs|
  {
    seq(|rs|, i requires 0 <= i < |rs| => assert rs[i] in rs; ShowRun(rs[i]))
  }

  lemma RunsNatural(xs: seq<int>)
    requires Natural(xs)
    ensures forall r | r in Runs(Sorted(xs)) :: 0 <= r.0 <= r.1
  {
    hide Runs, Sorted, Flat;
    var ys := Sorted(xs);
    SortedAscending(xs);
    RunsCover(ys);
    RunsApart(ys);
    forall r | r in Runs(ys)
      ensures 0 <= r.0 <= r.1
    {
      var i :| 0 <= i < |Runs(ys)| && Runs(ys)[i] == r;
      FlatStands(Runs(ys), r.0);
      assert Stands(Runs(ys), r.0);
    }
  }

  /** The range list of a set of CPUs. */
  function Mask(xs: seq<int>): string
    requires Natural(xs)
  {
    RunsNatural(xs);
    if |xs| == 0 then "" else Join(ShowRuns(Runs(Sorted(xs))), ',')
  }

  /** _mask: one walk over the sorted distinct numbers. */
  method PrintMask(threads: seq<int>) returns (s: string)
    requires Natural(threads)
    ensures s == Mask(threads)
  {
    if threads == [] { return ""; }
    var ys := Sorted(threads);
    assert threads[0] in ys;
    var ranges: seq<(int, int)> := [];
    var start, prev := ys[0], ys[0];
    assert ys[..1] == [ys[0]] && ys[..1][..0] == [];
    for i := 1 to |ys|
      invariant ranges + [(start, prev)] == Runs(ys[..i])
    {
      assert ys[..i + 1][..i] == ys[..i];
      var t := ys[i];
      if t == prev + 1 {
        prev := t;
        continue;
      }
      ranges := ranges + [(start, prev)];
      start, prev := t, t;
    }
    assert ys[..|ys|] == ys;
    RunsNatural(threads);
    s := Join(ShowRuns(ranges + [(start, prev)]), ',');
  }

  // ----- parsing

  /** One comma-separated token; None is a ValueError. */
  function Token(raw: string): Option<seq<int>> {
    var t := Strip(raw);
    if t == "" then Some([])
    else if '-' in t then
      var i := IndexOf(t, '-');
      var lo, hi := Int(t[..i]), Int(t[i + 1..]);
      if lo.None? || hi.None? then None else Some(Span(lo.value, hi.value))
    else
      var n := Int(t);
      if n.None? then None else Some([n.value])
  }

  function Tokens(parts: seq<string>): Option<seq<int>> {
    if |parts| == 0 then Some([])
    else
      var before := Tokens(parts[..|parts| - 1]);
      var last := Token(parts[|parts| - 1]);
      if before.None? || last.None? then None else Some(before.value + last.value)
  }

  /** What both parsers read. */
  function Parsed(s: string): Option<seq<int>> {
    Tokens(Split(s, ','))
  }

  lemma {:induction false} TokensFail(parts: seq<string>, n: nat)
    requires n <= |parts| && Tokens(parts[..n]).None?
    ensures Tokens(parts).None?
    decreases |parts|
  {
    if n < |parts| {
      assert parts[..|parts| - 1][..n] == parts[..n];
      TokensFail(parts[..|parts| - 1], n);
    } else {
      assert parts[..n] == parts;
    }
  }

  /** _parse_cpu_list */
  method ParseCpuList(s: string) returns (out: Option<seq<int>>)
    ensures out == Parsed(s)
  {
    var parts, acc := Split(s, ','), [];
    for i := 0 to |parts|
      invariant Tokens(parts[..i]) == Some(acc)
    {
      assert parts[..i + 1][..i] == parts[..i];
      var t := Token(parts[i]);
      if t.None? {
        TokensFail(parts, i + 1);
        return None;
      }
      acc := acc + t.value;
    }
    assert parts[..|parts|] == parts;
    return Some(acc);
  }

  function Elements(xs: seq<int>): set<int> {
    set x | x in xs
  }

  /** _parse_cpu_range agrees with the list parser as a set, errors included. */
  method ParseCpuRange(spec: string) returns (cpus: Option<set<int>>)
    ensures cpus == if Parsed(spec).None? then None else Some(Elements(Parsed(spec).value))
  {
    var parts, acc: set<int> := Split(spec, ','), {};
    for i := 0 to |parts|
      invariant Tokens(parts[..i]).Some? && acc == Elements(Tokens(parts[..i]).value)
    {
      assert parts[..i + 1][..i] == parts[..i];
      var t := Token(parts[i]);
      if t.None? {
        TokensFail(parts, i + 1);
        return None;
      }
      acc := acc + Elements(t.value);
    }
    assert parts[..|parts|] == parts;
    return Some(acc);
  }

  /** A range: `a` up to the first dash, `b` after it, both numbers. */
  predicate Bounds(t: string, a: string, b: string) {
    '-' !in a && t == a + (['-'] + b) && Int(a).Some? && Int(b).Some?
  }

  /** The token is blank, a number, or a range. */
  ghost predicate Readable(t: string) {
    t == "" || ('-' !in t && Int(t).Some?) || exists a, b :: Bounds(t, a, b)
  }

  /** The token is `x`, or a range `x` lies in. */
  ghost predicate Covers(t: string, x: int) {
    ('-' !in t && Int(t) == Some(x)) || exists a, b | Bounds(t, a, b) :: Int(a).value <= x <= Int(b).value
  }

  lemma SpanIff(lo: int, hi: int, x: int)
    ensures x in Span(lo, hi) <==> lo <= x <= hi
  {
    if lo <= x <= hi { assert Span(lo, hi)[x - lo] == x; }
  }

  lemma TokenIff(raw: string, x: int)
    ensures Token(raw).Some? <==> Readable(Strip(raw))
    ensures Token(raw).Some? ==> (x in Token(raw).value <==> Covers(Strip(raw), x))
  {
    var t := Strip(raw);
    NoNumber();
    hide Strip, Span, Int, IndexOf;
    if '-' in t {
      var i := IndexOf(t, '-');
      var a, b := t[..i], t[i + 1..];
      OnlyBounds(t, i);
      if Token(raw).Some? { SpanIff(Int(a).value, Int(b).value, x); }
    } else {
      forall a, b ensures !Bounds(t, a, b) { assert (a + (['-'] + b))[|a|] == '-'; }
    }
  }

  lemma NoNumber()
    ensures Int("").None?
  {
  }

  lemma OnlyBounds(t: string, i: nat)
    requires '-' in t && i == IndexOf(t, '-') && i < |t|
    ensures Int(t[..i]).Some? && Int(t[i + 1..]).Some? <==> Bounds(t, t[..i], t[i + 1..])
    ensures forall a, b | Bounds(t, a, b) :: a == t[..i] && b == t[i + 1..]
  {
    hide Int;
    assert t == t[..i] + (['-'] + t[i + 1..]);
    forall a, b | Bounds(t, a, b) ensures a == t[..i] && b == t[i + 1..] { IndexOfIs(a, '-', b); }
  }

  /** What a text stands for, token by token: it is readable exactly when every token is, and then
      the numbers read are those the tokens cover. */
  lemma {:induction false} TokensIff(parts: seq<string>, x: int)
    ensures Tokens(parts).Some? <==> forall p | p in parts :: Readable(Strip(p))
    ensures Tokens(parts).Some? ==> (x in Tokens(parts).value <==> exists p | p in parts :: Covers(Strip(p), x))
  {
    hide Token, Readable, Covers, Strip;
    if |parts| > 0 {
      var init, last := parts[..|parts| - 1], parts[|parts| - 1];
      assert parts == init + [last];
      TokensIff(init, x);
      TokenIff(last, x);
    }
  }

  lemma ParsedIff(s: string, x: int)
    ensures Parsed(s).Some? <==> forall p | p in Split(s, ',') :: Readable(Strip(p))
    ensures Parsed(s).Some? ==> (x in Parsed(s).value <==> exists p | p in Split(s, ',') :: Covers(Strip(p), x))
  {
    TokensIff(Split(s, ','), x);
    hide Split, Readable, Covers, Strip, Tokens;
  }

  // ----- round trip

  lemma ShowHasNo(n: nat, c: char)
    requires !IsDigit(c)
    ensures c !in Show(n)
  {
  }

  lemma TokenOfRun(r: (int, int))
    requires 0 <= r.0 <= r.1
    ensures Token(ShowRun(r)) == Some(Span(r.0, r.1)) && ',' !in ShowRun(r)
  {
    hide Show, Int, Strip;
    var a, b, t := Show(r.0), Show(r.1), ShowRun(r);
    ShowHasNo(r.0, ',');
    ShowHasNo(r.1, ',');
    ShowHasNo(r.0, '-');
    IntOfShow(r.0);
    IntOfShow(r.1);
    assert IsDigit(a[0]) && IsDigit(b[|b| - 1]) && IsDigit(a[|a| - 1]);
    assert t[0] == a[0];
    StripTrimmed(t);
    if r.0 != r.1 {
      assert t[|a|] == '-';
      assert t == a + (['-'] + b);
      IndexOfIs(a, '-', b);
    } else {
      assert Span(r.0, r.1) == [r.0];
    }
  }

  lemma {:induction false} TokensOfRuns(rs: seq<(int, int)>)
    requires forall r | r in rs :: 0 <= r.0 <= r.1
    ensures Tokens(ShowRuns(rs)) == Some(Flat(rs))
    ensures forall p | p in ShowRuns(rs) :: ',' !in p
  {
    hide Token, Show, Span, ShowRun;
    if |rs| > 0 {
      var init, last := rs[..|rs| - 1], rs[|rs| - 1];
      assert forall r | r in init :: r in rs;
      TokensOfRuns(init);
      assert last in rs;
      TokenOfRun(last);
      var parts := ShowRuns(rs);
      assert parts == ShowRuns(init) + [ShowRun(last)];
      assert parts[..|rs| - 1] == ShowRuns(init) && parts[|rs| - 1] == ShowRun(last);
    }
  }

  /** Parsing a printed list gives back the sorted distinct numbers, digit by digit. */
  lemma ParseOfMask(xs: seq<int>)
    requires Natural(xs)
    ensures Parsed(Mask(xs)) == Some(Sorted(xs))
  {
    hide Runs, ShowRuns, Sorted;
    RunsNatural(xs);
    if |xs| == 0 {
      SplitNone<char>("", ',');
      TokensOfNothing();
      NothingSorted();
    } else {
      var ys := Sorted(xs);
      assert xs[0] in ys;
      TokensOfRuns(Runs(ys));
      SplitOfJoin(ShowRuns(Runs(ys)), ',');
      SortedAscending(xs);
      RunsCover(ys);
    }
  }

  lemma TokensOfNothing()
    ensures Tokens([""]) == Some([])
  {
    assert [""][..0] == [];
    assert Token("") == Some([]) && Tokens([]) == Some([]);
    var none: seq<int> := [];
    assert none + none == none;
  }

  lemma NothingSorted()
    ensures Sorted([]) == []
  {
  }

  /** Whatever spelling of a set is parsed, printing it again is canonical: two lists print
      alike exactly when they have the same numbers. */
  lemma MaskIsCanonical(xs: seq<int>, ys: seq<int>)
    requires Natural(xs) && Natural(ys)
    ensures Mask(xs) == Mask(ys) <==> forall x :: x in xs <==> x in ys
  {
    hide Mask, Sorted, Parsed;
    ParseOfMask(xs);
    ParseOfMask(ys);
    SortedAscending(xs);
    SortedAscending(ys);
    if forall x :: x in xs <==> x in ys {
      forall x
        ensures x in Sorted(xs) <==> x in Sorted(ys)
      {
      }
      AscendingUnique(Sorted(xs), Sorted(ys));
      MaskOfSorted(xs, ys);
    }
  }

  lemma MaskOfSorted(xs: seq<int>, ys: seq<int>)
    requires Natural(xs) && Natural(ys) && Sorted(xs) == Sorted(ys)
    ensures Mask(xs) == Mask(ys)
  {
    assert |xs| > 0 ==> xs[0] in Sorted(ys);
    assert |ys| > 0 ==> ys[0] in Sorted(xs);
  }
}
