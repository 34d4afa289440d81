/** Decimal numerals at character level, and the int() of the program's parsers. */
module Decimal {
  import opened Prelude

  predicate IsDigit(c: char) {
    '0' <= c <= '9'
  }

  predicate AllDigits(s: string) {
    forall i | 0 <= i < |s| :: IsDigit(s[i])
  }

  function DigitChar(d: nat): (c: char)
    requires d < 10
    ensures IsDigit(c) && (c as int - '0' as int) == d
  {
    ('0' as int + d) as char
  }

  function Show(n: nat): (s: string)
    ensures |s| > 0 && AllDigits(s)
  {
    if n < 10 then [DigitChar(n)] else Show(n / 10) + [DigitChar(n % 10)]
  }

  function Value(s: string): nat
    requires AllDigits(s)
  {
    if |s| == 0 then 0 else 10 * Value(s[..|s| - 1]) + (s[|s| - 1] as int - '0' as int)
  }

  lemma {:induction false} ValueOfShow(n: nat)
    ensures Value(Show(n)) == n
  {
    if n >= 10 {
      ValueOfShow(n / 10);
      assert Show(n)[..|Show(n)| - 1] == Show(n / 10);
    }
  }

  /** The digits a greedy \d+ takes off the front. */
  function DigitRun(s: string): (n: nat)
    ensures n <= |s| && AllDigits(s[..n]) && (n < |s| ==> !IsDigit(s[n]))
  {
    if |s| == 0 || !IsDigit(s[0]) then 0
    else
      var n := DigitRun(s[1..]);
      assert forall i | 1 <= i < n + 1 :: s[i] == s[1..][..n][i - 1];
      n + 1
  }

  lemma DigitRunIs(d: string, rest: string)
    requires AllDigits(d) && (rest == "" || !IsDigit(rest[0]))
    ensures DigitRun(d + rest) == |d| && (d + rest)[..|d|] == d && (d + rest)[|d|..] == rest
  {
    var s, n := d + rest, DigitRun(d + rest);
    assert s[..|d|] == d && s[|d|..] == rest;
    assert forall i | 0 <= i < |d| :: s[i] == d[i];
    forall i | 0 <= i < n
      ensures IsDigit(s[i])
    {
      assert s[..n][i] == s[i];
    }
    assert |rest| > 0 ==> s[|d|] == rest[0];
  }

  predicate IsSpace(c: char) {
    c == ' ' || '\t' <= c <= '\r'
  }

  predicate AllSpace(s: string) {
    forall i | 0 <= i < |s| :: IsSpace(s[i])
  }

  function StripLeft(s: string): string {
    if |s| > 0 && IsSpace(s[0]) then StripLeft(s[1..]) else s
  }

  function StripRight(s: string): string {
    if |s| > 0 && IsSpace(s[|s| - 1]) then StripRight(s[..|s| - 1]) else s
  }

  /** str.strip() */
  function Strip(s: string): string {
    StripRight(StripLeft(s))
  }

  /** Nothing for strip() to take. */
  predicate Trimmed(s: string) {
    |s| > 0 ==> !IsSpace(s[0]) && !IsSpace(s[|s| - 1])
  }

  lemma {:induction false} StripTrailing(s: string, blanks: string)
    requires Trimmed(s) && |s| > 0 && AllSpace(blanks)
    ensures Strip(s + blanks) == s
    decreases |blanks|
  {
    var t := s + blanks;
    assert t[0] == s[0];
    if |blanks| == 0 {
      assert t == s;
    } else {
      assert t[|t| - 1] == blanks[|blanks| - 1];
      assert t[..|t| - 1] == s + blanks[..|blanks| - 1];
      StripTrailing(s, blanks[..|blanks| - 1]);
      assert StripLeft(s + blanks[..|blanks| - 1]) == s + blanks[..|blanks| - 1];
    }
  }

  lemma StripTrimmed(s: string)
    requires Trimmed(s)
    ensures Strip(s) == s
  {
  }

  /** What strip() takes are blanks at both ends, all there are. */
  lemma StripIs(s: string) returns (before: string, after: string)
    ensures s == before + Strip(s) + after && AllSpace(before) && AllSpace(after) && Trimmed(Strip(s))
  {
    before := StripLeftIs(s);
    after := StripRightIs(StripLeft(s));
    var t, u := StripLeft(s), Strip(s);
    if |u| > 0 { assert u[0] == t[0]; }
  }

  lemma {:induction false} StripLeftIs(s: string) returns (before: string)
    ensures s == before + StripLeft(s) && AllSpace(before) && (StripLeft(s) == "" || !IsSpace(StripLeft(s)[0]))
  {
    before := "";
    if |s| > 0 && IsSpace(s[0]) {
      var rest := StripLeftIs(s[1..]);
      before := [s[0]] + rest;
    }
  }

  lemma {:induction false} StripRightIs(s: string) returns (after: string)
    ensures s == StripRight(s) + after && AllSpace(after)
    ensures StripRight(s) == "" || !IsSpace(StripRight(s)[|StripRight(s)| - 1])
  {
    after := "";
    if |s| > 0 && IsSpace(s[|s| - 1]) {
      var rest := StripRightIs(s[..|s| - 1]);
      after := rest + [s[|s| - 1]];
    }
  }

  /** int(): blanks around, an optional sign, digits; anything else raises ValueError. */
  function Int(s: string): Option<int> {
    var t := Strip(s);
    var signed := |t| > 0 && (t[0] == '-' || t[0] == '+');
    var digits := if signed then t[1..] else t;
    if digits == "" || !AllDigits(digits) then None
    else if signed && t[0] == '-' then Some(-(Value(digits) as int))
    else Some(Value(digits) as int)
  }

  /** `t` is the digits `d`, with a sign or without, and stands for `x`. */
  predicate Signed(t: string, d: string, x: int) {
    && d != "" && AllDigits(d)
    && ((t == d && x == Value(d)) || (t == "+" + d && x == Value(d)) || (t == "-" + d && x == -(Value(d) as int)))
  }

  /** Which texts int() takes, and for what: digits, with a sign or without, blanks around. */
  lemma IntIff(s: string, x: int)
    ensures Int(s) == Some(x) <==> exists d :: Signed(Strip(s), d, x)
  {
    var t := Strip(s);
    hide Strip, Value;
    if Int(s) == Some(x) {
      var signed := t[0] == '-' || t[0] == '+';
      var d := if signed then t[1..] else t;
      assert signed ==> t == [t[0]] + d;
      assert Signed(t, d, x);
    }
    if d :| Signed(t, d, x) {
      assert IsDigit(d[0]);
      if t != d { assert t[1..] == d; }
    }
  }

  lemma IntOfShow(n: nat)
    ensures Int(Show(n)) == Some(n)
  {
    var s := Show(n);
    assert IsDigit(s[0]) && IsDigit(s[|s| - 1]);
    StripTrimmed(s);
    ValueOfShow(n);
  }
}
