/**
  The GRUB drop-in (hyphaed/grub.py): the line render_dropin writes, and what the layered
  reader makes of it on top of any earlier value.
*/
module GrubDropin {
  import opened Prelude
  import opened Text
  import opened Decimal
  import opened Cmdline

  const NAME := "GRUB_CMDLINE_LINUX_DEFAULT"
  const BRACED := "${GRUB_CMDLINE_LINUX_DEFAULT}"
  const BARE := "$GRUB_CMDLINE_LINUX_DEFAULT"
  const NOTE1 := "# Auto-generated by hyphaed " + "kernel wizard. Do not edit by hand."
  const NOTE2 := "# Appended to " + "GRUB_CMDLINE_LINUX_DEFAULT by /etc/grub.d/00_header."

  // ----- writing

  function Extra(parts: seq<string>): string {
    if |parts| == 0 then "" else Join(parts, ' ')
  }

  function Assignment(parts: seq<string>): string {
    NAME + ("=" + ("\"" + (BRACED + " " + Extra(parts) + "\"")))
  }

  /** render_dropin, line by line. */
  function RenderDropin(parts: seq<string>): seq<string> {
    [NOTE1, NOTE2, Assignment(parts)]
  }

  // ----- reading

  /** The greedy (.*)" : everything up to the last quote. */
  function UpToLastQuote(s: string): Option<string> {
    if |s| == 0 then None
    else if Last(s) == '"' then Some(Init(s))
    else UpToLastQuote(Init(s))
  }

  /** ^\s*GRUB_CMDLINE_LINUX_DEFAULT\s*=\s*"(.*)" on one line. */
  function Assigned(line: string): Option<string> {
    var a := DropPrefix(StripLeft(line), NAME);
    if a.None? then None else
    var b := DropPrefix(StripLeft(a.value), "=");
    if b.None? then None else
    var c := DropPrefix(StripLeft(b.value), "\"");
    if c.None? then None else UpToLastQuote(c.value)
  }

  /** The first line that assigns the variable. */
  function Search(lines: seq<string>): Option<string> {
    if |lines| == 0 then None
    else if Assigned(lines[0]).Some? then Assigned(lines[0])
    else Search(lines[1..])
  }

  /** Every reference to the variable replaced by its earlier value. */
  function Expand(s: string, raw: string): string
    decreases |s|
  {
    if |s| == 0 then ""
    else if DropPrefix(s, BRACED).Some? then raw + Expand(s[|BRACED|..], raw)
    else if DropPrefix(s, BARE).Some? then raw + Expand(s[|BARE|..], raw)
    else [s[0]] + Expand(s[1..], raw)
  }

  /** One more file on top of the value so far. */
  function Layer(raw: string, lines: seq<string>): string {
    var m := Search(lines);
    if m.None? then raw else Expand(m.value, raw)
  }

  predicate IsBlank(c: char) {
    c == ' ' || c == '\t' || c == '\r' || c == '\n'
  }

  /** shlex.split of a text without quotes and backslashes. */
  function ShellWords(s: string): seq<string> {
    Words(s, IsBlank)
  }

  /** read_current_cmdline_config over the main file's value and the files after it, in
      order; the tokens keep each key's last position. */
  method ReadConfig(main: seq<string>, dropins: seq<seq<string>>) returns (tokens: seq<string>)
    ensures tokens == LastWins(ShellWords(Layers(Main(main), dropins)))
  {
    var raw := Main(main);
    assert dropins[..0] == [];
    for i := 0 to |dropins|
      invariant raw == Layers(Main(main), dropins[..i])
    {
      assert dropins[..i + 1][..i] == dropins[..i];
      var m := Search(dropins[i]);
      if m.Some? { raw := Expand(m.value, raw); }
    }
    assert dropins[..|dropins|] == dropins;
    tokens := KeepLast(ShellWords(raw));
  }

  function Main(lines: seq<string>): string {
    if Search(lines).Some? then Search(lines).value else ""
  }

  function Layers(raw: string, files: seq<seq<string>>): string {
    if |files| == 0 then raw else Layer(Layers(raw, files[..|files| - 1]), files[|files| - 1])
  }

  // ----- what is written is read back

  /** A token without blanks, quotes, backslashes and dollar signs. */
  predicate Plain(t: string) {
    |t| > 0 && forall c | c in t :: !IsBlank(c) && c != '"' && c != '\'' && c != '\\' && c != '$'
  }

  lemma {:induction false} ExtraChars(parts: seq<string>, c: char)
    requires c != ' ' && forall p | p in parts :: c !in p
    ensures c !in Extra(parts)
  {
    if |parts| > 1 {
      ExtraChars(parts[1..], c);
      assert Join(parts, ' ') == parts[0] + ([' '] + Join(parts[1..], ' '));
      assert parts[0] in parts;
    } else if |parts| == 1 {
      assert parts[0] in parts;
    }
  }

  /** Without a dollar sign there is nothing to expand. */
  lemma {:induction false} ExpandPlain(s: string, raw: string)
    requires '$' !in s
    ensures Expand(s, raw) == s
  {
    if |s| > 0 {
      assert s[0] in s;
      PrefixFails(s, BRACED, 0);
      PrefixFails(s, BARE, 0);
      ExpandPlain(s[1..], raw);
    }
  }

  lemma AssignmentIsRead(parts: seq<string>)
    requires forall p | p in parts :: Plain(p)
    ensures Search(RenderDropin(parts)) == Some(BRACED + " " + Extra(parts))
  {
    var line := Assignment(parts);
    AssignedLine(line, BRACED + " " + Extra(parts));
    hide Assigned;
    assert NOTE1[0] == '#' && NOTE2[0] == '#';
    CommentAssignsNothing(NOTE1);
    CommentAssignsNothing(NOTE2);
    FirstAssignmentCounts([NOTE1, NOTE2], line, []);
    assert RenderDropin(parts) == [NOTE1, NOTE2] + ([line] + []);
  }

  lemma CommentAssignsNothing(l: string)
    requires |l| > 0 && l[0] == '#'
    ensures Assigned(l).None?
  {
    assert StripLeft(l) == l;
    assert NAME[0] == 'G';
    PrefixFails(l, NAME, 0);
  }

  lemma AssignedLine(line: string, value: string)
    requires line == NAME + ("=" + ("\"" + (value + "\"")))
    ensures Assigned(line) == Some(value)
  {
    assert value + "\"" == value + (['"'] + "");
    AssignedIs("", "", "", value, "");
    assert line == "" + (NAME + ("" + ("=" + ("" + ("\"" + (value + (['"'] + "")))))));
  }

  /** Blanks may stand before the name and around the equals sign, and anything but a quote after
      the value. */
  lemma AssignedIs(a: string, b: string, c: string, value: string, rest: string)
    requires AllSpace(a) && AllSpace(b) && AllSpace(c) && '"' !in rest
    ensures Assigned(a + (NAME + (b + ("=" + (c + ("\"" + (value + (['"'] + rest)))))))) == Some(value)
  {
    hide UpToLastQuote, DropPrefix;
    var quoted := "\"" + (value + (['"'] + rest));
    var equals := "=" + (c + quoted);
    LastQuote(value, rest);
    PrefixDrops("\"", value + (['"'] + rest));
    BlanksSkipped(c, quoted);
    PrefixDrops("=", c + quoted);
    BlanksSkipped(b, equals);
    PrefixDrops(NAME, b + equals);
    BlanksSkipped(a, NAME + (b + equals));
  }

  lemma {:induction false} BlanksSkipped(blanks: string, s: string)
    requires AllSpace(blanks) && s != "" && !IsSpace(s[0])
    ensures StripLeft(blanks + s) == s
  {
    if |blanks| == 0 {
      assert blanks + s == s;
    } else {
      assert (blanks + s)[1..] == blanks[1..] + s;
      BlanksSkipped(blanks[1..], s);
    }
  }

  /** The first line that assigns the variable decides. */
  lemma {:induction false} FirstAssignmentCounts(before: seq<string>, line: string, after: seq<string>)
    requires Assigned(line).Some? && forall l | l in before :: Assigned(l).None?
    ensures Search(before + ([line] + after)) == Assigned(line)
  {
    hide Assigned;
    var lines := before + ([line] + after);
    if |before| == 0 {
      assert lines[0] == line;
    } else {
      assert lines[0] == before[0] && before[0] in before;
      assert lines[1..] == before[1..] + ([line] + after);
      FirstAssignmentCounts(before[1..], line, after);
    }
  }

  lemma ExpandLine(extra: string, raw: string)
    requires '$' !in extra
    ensures Expand(BRACED + " " + extra, raw) == raw + ([' '] + extra)
  {
    var rest := " " + extra;
    var s := BRACED + rest;
    assert s == BRACED + " " + extra;
    PrefixDrops(BRACED, rest);
    assert s[|BRACED|..] == rest;
    ExpandPlain(rest, raw);
  }

  /** The value goes up to the last quote of the line, whatever follows it. */
  lemma {:induction false} LastQuote(value: string, rest: string)
    requires '"' !in rest
    ensures UpToLastQuote(value + (['"'] + rest)) == Some(value)
    decreases |rest|
  {
    var s := value + (['"'] + rest);
    if |rest| == 0 {
      assert Last(s) == '"' && Init(s) == value;
    } else {
      assert Last(s) == Last(rest) && Last(rest) in rest;
      assert Init(s) == value + (['"'] + Init(rest));
      assert forall c | c in Init(rest) :: c in rest;
      LastQuote(value, Init(rest));
    }
  }

  lemma {:induction false} NoQuoteNoValue(s: string)
    requires '"' !in s
    ensures UpToLastQuote(s).None?
  {
    if |s| > 0 {
      assert Last(s) in s && forall c | c in Init(s) :: c in s;
      NoQuoteNoValue(Init(s));
    }
  }

  /** The unbraced form of the reference is replaced, too. */
  lemma ExpandBare(extra: string, raw: string)
    requires '$' !in extra
    ensures Expand(BARE + extra, raw) == raw + extra
  {
    var s := BARE + extra;
    PrefixDrops(BARE, extra);
    PrefixFails(s, BRACED, 1);
    assert s[1] == BARE[1] && BARE[1] == 'G' && BRACED[1] == '{';
    assert s[|BARE|..] == extra;
    ExpandPlain(extra, raw);
  }

  // ----- words

  lemma ShellWordsConcat(a: string, c: char, b: string)
    requires c == ' ' || c == '\t' || c == '\r' || c == '\n'
    ensures ShellWords(a + ([c] + b)) == ShellWords(a) + ShellWords(b)
  {
    WordsConcat(a, c, b, IsBlank);
  }

  lemma WordsOfExtra(parts: seq<string>)
    requires forall p | p in parts :: Plain(p)
    ensures ShellWords(Extra(parts)) == parts
  {
    if |parts| > 0 {
      forall k, i | 0 <= k < |parts| && 0 <= i < |parts[k]| ensures parts[k] != "" && !IsBlank(parts[k][i]) {
        assert Plain(parts[k]) && parts[k][i] in parts[k];
      }
      forall k | 0 <= k < |parts| ensures parts[k] != "" { assert Plain(parts[k]); }
      WordsOfJoin(parts, IsBlank);
    }
  }

  // ----- the theorem

  lemma SetsConcat(a: seq<string>, b: seq<string>, k: string)
    ensures Sets(a + b, k) <==> Sets(a, k) || Sets(b, k)
  {
    assert forall t :: t in a + b <==> t in a || t in b;
  }

  lemma {:induction false} LastWinsSets(tokens: seq<string>, k: string)
    ensures Sets(LastWins(tokens), k) <==> Sets(tokens, k)
  {
    hide Key;
    if |tokens| > 0 {
      LastWinsSets(tokens[1..], k);
      assert tokens == [tokens[0]] + tokens[1..];
      SetsConcat([tokens[0]], tokens[1..], k);
      SetsConcat([tokens[0]], LastWins(tokens[1..]), k);
      assert Sets([tokens[0]], k) <==> Key(tokens[0]) == k;
    }
  }

  /** Deduplicating before more tokens arrive makes no difference. */
  lemma {:induction false} LastWinsTwice(a: seq<string>, b: seq<string>)
    ensures LastWins(LastWins(a) + b) == LastWins(a + b)
    decreases |a|
  {
    hide Key, Sets;
    if |a| > 0 {
      var t, rest := a[0], a[1..];
      assert (a + b)[1..] == rest + b && (a + b)[0] == t;
      LastWinsTwice(rest, b);
      SetsConcat(rest, b, Key(t));
      if !Sets(rest, Key(t)) {
        var kept := LastWins(rest);
        LastWinsSets(rest, Key(t));
        SetsConcat(kept, b, Key(t));
        assert ([t] + kept + b)[1..] == kept + b;
        assert LastWins(a) + b == [t] + kept + b;
      }
    }
  }

  /** Reading the drop-in on top of any earlier value yields exactly the last-wins
      deduplication of the tokens that were there plus the ones that were composed. */
  lemma DropinReadsBack(raw: string, parts: seq<string>)
    requires forall p | p in parts :: Plain(p)
    ensures LastWins(ShellWords(Layer(raw, RenderDropin(parts)))) == LastWins(LastWins(ShellWords(raw)) + parts)
  {
    hide Layer, RenderDropin, ShellWords, LastWins;
    LayerAppends(raw, parts);
    LastWinsTwice(ShellWords(raw), parts);
  }

  /** A file that assigns the variable without referring to it replaces whatever was there. */
  lemma PlainAssignmentReplaces(raw: string, files: seq<seq<string>>, last: seq<string>, value: string)
    requires Search(last) == Some(value) && '$' !in value
    ensures Layers(raw, files + [last]) == value
  {
    hide Search, Expand;
    assert (files + [last])[..|files|] == files;
    ExpandPlain(value, Layers(raw, files));
  }

  function Flat(partss: seq<seq<string>>): seq<string> {
    if |partss| == 0 then [] else Flat(partss[..|partss| - 1]) + partss[|partss| - 1]
  }

  ghost predicate AllPlain(partss: seq<seq<string>>) {
    forall i, p | 0 <= i < |partss| && p in partss[i] :: Plain(p)
  }

  /** The main file counts and so does every drop-in that appends to the variable: what is read is
      the last-wins deduplication of the main file's tokens and all the appended ones in order. */
  lemma EveryFileCounts(main: seq<string>, value: string, partss: seq<seq<string>>)
    requires Search(main) == Some(value) && AllPlain(partss)
    ensures var files := seq(|partss|, i requires 0 <= i < |partss| => RenderDropin(partss[i]));
            LastWins(ShellWords(Layers(Main(main), files))) == LastWins(ShellWords(value) + Flat(partss))
  {
    hide RenderDropin, ShellWords, Search, LastWins;
    AllLayers(value, partss);
  }

  lemma {:induction false} AllLayers(raw: string, partss: seq<seq<string>>)
    requires AllPlain(partss)
    ensures var files := seq(|partss|, i requires 0 <= i < |partss| => RenderDropin(partss[i]));
            ShellWords(Layers(raw, files)) == ShellWords(raw) + Flat(partss)
  {
    hide RenderDropin, ShellWords;
    var files := seq(|partss|, i requires 0 <= i < |partss| => RenderDropin(partss[i]));
    if |partss| > 0 {
      var n := |partss| - 1;
      var init := partss[..n];
      AllLayers(raw, init);
      assert files[..n] == seq(|init|, i requires 0 <= i < |init| => RenderDropin(init[i]));
      assert forall p | p in partss[n] :: Plain(p);
      LayerAppends(Layers(raw, files[..n]), partss[n]);
    }
  }

  /** One rendered drop-in appends its tokens. */
  lemma LayerAppends(raw: string, parts: seq<string>)
    requires forall p | p in parts :: Plain(p)
    ensures ShellWords(Layer(raw, RenderDropin(parts))) == ShellWords(raw) + parts
  {
    hide RenderDropin, Search, Expand, Extra, ShellWords;
    AssignmentIsRead(parts);
    ExtraChars(parts, '$');
    ExpandLine(Extra(parts), raw);
    ShellWordsConcat(raw, ' ', Extra(parts));
    WordsOfExtra(parts);
  }

  /** From the profile to the next boot: with the composed drop-in in place the reader sees,
      for every key, what last-wins evaluation of existing plus composed tokens gives. */
  lemma DropinTakesEffect(raw: string, proposal: seq<string>, k: string)
    requires forall p | p in proposal :: Plain(p)
    ensures var existing := LastWins(ShellWords(raw));
            var composed := Composed(proposal, existing);
            Effective(LastWins(ShellWords(Layer(raw, RenderDropin(composed)))), k) == Effective(existing + composed, k)
  {
    hide RenderDropin, ShellWords, Composed;
    var existing := LastWins(ShellWords(raw));
    var composed := Composed(proposal, existing);
    ComposedFrom(proposal, existing);
    DropinReadsBack(raw, composed);
    EffectiveLastWins(existing + composed, k);
  }

  lemma ComposedFrom(proposal: seq<string>, existing: seq<string>)
    ensures forall t | t in Composed(proposal, existing) :: t in proposal
  {
    LastWinsShape(Allowed(proposal, existing));
  }
}
