/**
  str.split and str.join with a one-character separator, on sequences of anything; prefixes
  and blank-separated words of strings.
*/
module Text {
  import opened Prelude

  function IndexOf<T(==)>(s: seq<T>, c: T): (i: nat)
    ensures i <= |s| && c !in s[..i] && (i < |s| ==> s[i] == c)
  {
    if |s| == 0 || s[0] == c then 0
    else
      var i := IndexOf(s[1..], c);
      assert s[..i + 1] == [s[0]] + s[1..][..i];
      i + 1
  }

  function Split<T(==)>(s: seq<T>, c: T): (parts: seq<seq<T>>)
    ensures |parts| > 0
    decreases |s|
  {
    var i := IndexOf(s, c);
    if i == |s| then [s] else [s[..i]] + Split(s[i + 1..], c)
  }

  function Join<T>(parts: seq<seq<T>>, c: T): seq<T>
    requires |parts| > 0
  {
    if |parts| == 1 then parts[0] else parts[0] + ([c] + Join(parts[1..], c))
  }

  function Last<T>(s: seq<T>): T
    requires |s| > 0
  {
    s[|s| - 1]
  }

  function Init<T>(s: seq<T>): seq<T>
    requires |s| > 0
  {
    s[..|s| - 1]
  }

  lemma IndexOfIs<T>(a: seq<T>, c: T, b: seq<T>)
    requires c !in a
    ensures IndexOf(a + ([c] + b), c) == |a|
    ensures (a + ([c] + b))[..|a|] == a && (a + ([c] + b))[|a| + 1..] == b
  {
    var s := a + ([c] + b);
    var i := IndexOf(s, c);
    assert s[|a|] == c;
    assert forall j | 0 <= j < |a| :: s[j] == a[j] && a[j] in a;
    assert forall j | 0 <= j < i :: s[j] == s[..i][j];
  }

  lemma SplitNone<T>(a: seq<T>, c: T)
    requires c !in a
    ensures Split(a, c) == [a]
  {
    assert forall j | 0 <= j < |a| :: a[j] in a;
  }

  lemma SplitFirst<T>(a: seq<T>, c: T, b: seq<T>)
    requires c !in a
    ensures Split(a + ([c] + b), c) == [a] + Split(b, c)
  {
    IndexOfIs(a, c, b);
  }

  /** Either there is no separator, or a first one. */
  lemma FirstSeparator<T>(s: seq<T>, c: T) returns (a: seq<T>, b: seq<T>)
    ensures c in s ==> c !in a && s == a + ([c] + b)
  {
    var i := IndexOf(s, c);
    if i < |s| {
      a, b := s[..i], s[i + 1..];
      assert s == a + ([c] + b);
    } else {
      assert s[..i] == s;
      a, b := [], [];
    }
  }

  lemma {:induction false} SplitOfJoin<T>(parts: seq<seq<T>>, c: T)
    requires |parts| > 0 && forall p | p in parts :: c !in p
    ensures Split(Join(parts, c), c) == parts
  {
    hide Split;
    assert parts[0] in parts;
    if |parts| == 1 {
      SplitNone(parts[0], c);
    } else {
      SplitFirst(parts[0], c, Join(parts[1..], c));
      SplitOfJoin(parts[1..], c);
    }
  }

  lemma {:induction false} SplitParts<T>(s: seq<T>, c: T)
    ensures forall p | p in Split(s, c) :: c !in p
    ensures Join(Split(s, c), c) == s
    decreases |s|
  {
    hide Split;
    if c in s {
      var a, b := FirstSeparator(s, c);
      SplitFirst(a, c, b);
      SplitParts(b, c);
      assert Split(s, c)[1..] == Split(b, c);
    } else {
      SplitNone(s, c);
    }
  }

  /** Splitting more text only goes on splitting the last part. */
  lemma {:induction false} SplitMore<T>(s: seq<T>, more: seq<T>, c: T)
    ensures Split(s + more, c) == Init(Split(s, c)) + Split(Last(Split(s, c)) + more, c)
    decreases |s|
  {
    hide Split;
    if c in s {
      var a, b := FirstSeparator(s, c);
      assert s + more == a + ([c] + (b + more));
      SplitFirst(a, c, b);
      SplitFirst(a, c, b + more);
      SplitMore(b, more, c);
      assert Init(Split(s, c)) == [a] + Init(Split(b, c));
    } else {
      SplitNone(s, c);
      assert Init([s]) == [];
    }
  }

  // ----- prefixes

  /** What follows `word` at the front of `s`. */
  function DropPrefix(s: string, word: string): Option<string> {
    if |word| <= |s| && s[..|word|] == word then Some(s[|word|..]) else None
  }

  lemma PrefixDrops(word: string, rest: string)
    ensures DropPrefix(word + rest, word) == Some(rest)
  {
    assert (word + rest)[..|word|] == word && (word + rest)[|word|..] == rest;
  }

  lemma PrefixFails(s: string, word: string, i: nat)
    requires i < |word| && (i < |s| ==> s[i] != word[i])
    ensures DropPrefix(s, word).None?
  {
    if |word| <= |s| { assert s[..|word|][i] == s[i]; }
  }

  // ----- words

  function WordEnd(s: string, blank: char -> bool): (n: nat)
    ensures n <= |s| && (forall i | 0 <= i < n :: !blank(s[i])) && (n < |s| ==> blank(s[n]))
  {
    if |s| == 0 || blank(s[0]) then 0 else 1 + WordEnd(s[1..], blank)
  }

  /** The maximal runs without blanks. */
  function Words(s: string, blank: char -> bool): seq<string>
    decreases |s|
  {
    if |s| == 0 then []
    else if blank(s[0]) then Words(s[1..], blank)
    else [s[..WordEnd(s, blank)]] + Words(s[WordEnd(s, blank)..], blank)
  }

  lemma WordEndBefore(a: string, b: string, blank: char -> bool)
    requires WordEnd(a, blank) < |a| || b == "" || blank(b[0])
    ensures WordEnd(a + b, blank) == WordEnd(a, blank)
  {
    var n, m := WordEnd(a, blank), WordEnd(a + b, blank);
    assert forall i | 0 <= i < |a| :: (a + b)[i] == a[i];
    assert |b| > 0 ==> (a + b)[|a|] == b[0];
  }

  lemma {:induction false} WordsConcat(a: string, c: char, b: string, blank: char -> bool)
    requires blank(c)
    ensures Words(a + ([c] + b), blank) == Words(a, blank) + Words(b, blank)
    decreases |a|
  {
    var tail := [c] + b;
    var s := a + tail;
    if |a| == 0 {
      assert s == tail && tail[1..] == b;
    } else if blank(a[0]) {
      assert s[1..] == a[1..] + tail;
      WordsConcat(a[1..], c, b, blank);
    } else {
      var n := WordEnd(a, blank);
      WordEndBefore(a, tail, blank);
      assert s[..n] == a[..n] && s[n..] == a[n..] + tail;
      WordsConcat(a[n..], c, b, blank);
    }
  }

  lemma OneWord(t: string, blank: char -> bool)
    requires t != "" && forall i | 0 <= i < |t| :: !blank(t[i])
    ensures Words(t, blank) == [t]
  {
    var n := WordEnd(t, blank);
    assert t[..n] == t && t[n..] == "";
  }

  lemma {:induction false} WordsOfJoin(words: seq<string>, blank: char -> bool)
    requires |words| > 0 && blank(' ')
    requires forall k, i | 0 <= k < |words| && 0 <= i < |words[k]| :: !blank(words[k][i])
    requires forall k | 0 <= k < |words| :: words[k] != ""
    ensures Words(Join(words, ' '), blank) == words
  {
    OneWord(words[0], blank);
    if |words| > 1 {
      WordsOfJoin(words[1..], blank);
      WordsConcat(words[0], ' ', Join(words[1..], ' '), blank);
    }
  }
}
