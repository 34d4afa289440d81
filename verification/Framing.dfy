/**
  The two-stream read loop of the process runner (hyphaed/util/run.py): chunks arrive in
  any size and any interleaving, lines go to a callback as they complete.
*/
module Framing {
  import opened Text

  type Byte = bv8
  type Chunk = seq<Byte>

  const NEWLINE: Byte := 10

  datatype Stream = Out | Err

  /** What select and read1 hand over next; an empty chunk is end of file. */
  datatype Event = Event(stream: Stream, chunk: Chunk)

  function ChunksOf(events: seq<Event>, s: Stream): seq<Chunk> {
    if |events| == 0 then []
    else if Last(events).stream == s then ChunksOf(Init(events), s) + [Last(events).chunk]
    else ChunksOf(Init(events), s)
  }

  function Concat(chunks: seq<Chunk>): Chunk {
    if |chunks| == 0 then [] else Concat(Init(chunks)) + Last(chunks)
  }

  /** A pipe is read until its end of file, and not again. */
  ghost predicate ReadToEnd(chunks: seq<Chunk>) {
    |chunks| > 0 && Last(chunks) == [] && forall c | c in Init(chunks) :: c != []
  }

  /** The lines of a whole stream: split at newlines, without an empty last fragment. */
  function LinesOf(content: Chunk): seq<Chunk> {
    var parts := Split(content, NEWLINE);
    if Last(parts) == [] then Init(parts) else parts
  }

  function Of(delivered: seq<(Stream, string)>, s: Stream): seq<string> {
    if |delivered| == 0 then []
    else Of(Init(delivered), s) + if Last(delivered).0 == s then [Last(delivered).1] else []
  }

  function Shown(lines: seq<Chunk>, show: Chunk -> string): seq<string> {
    seq(|lines|, i requires 0 <= i < |lines| => show(lines[i]))
  }

  /** What one stream has given so far: complete lines out, the open fragment held back. */
  ghost predicate UpTo(chunks: seq<Chunk>, closed: bool, buf: Chunk, lines: seq<string>, show: Chunk -> string) {
    var parts := Split(Concat(chunks), NEWLINE);
    && (closed ==> lines == Shown(LinesOf(Concat(chunks)), show))
    && (!closed ==> lines == Shown(Init(parts), show) && buf == Last(parts))
  }

  function Tagged(s: Stream, lines: seq<string>): seq<(Stream, string)> {
    seq(|lines|, i requires 0 <= i < |lines| => (s, lines[i]))
  }

  lemma {:induction false} OfMore(delivered: seq<(Stream, string)>, s: Stream, lines: seq<string>, t: Stream)
    ensures Of(delivered + Tagged(s, lines), t) == if t == s then Of(delivered, t) + lines else Of(delivered, t)
    decreases |lines|
  {
    var all := delivered + Tagged(s, lines);
    if |lines| == 0 {
      assert all == delivered;
    } else {
      OfMore(delivered, s, Init(lines), t);
      assert Init(all) == delivered + Tagged(s, Init(lines));
      assert Last(all) == (s, Last(lines));
      assert lines == Init(lines) + [Last(lines)];
    }
  }

  lemma ShownMore(a: seq<Chunk>, b: seq<Chunk>, show: Chunk -> string)
    ensures Shown(a + b, show) == Shown(a, show) + Shown(b, show)
  {
  }

  /** A chunk completes lines of the fragment held back. */
  lemma ChunkArrives(chunks: seq<Chunk>, c: Chunk, buf: Chunk, lines: seq<string>, show: Chunk -> string)
    requires UpTo(chunks, false, buf, lines, show)
    ensures var parts := Split(buf + c, NEWLINE);
            UpTo(chunks + [c], false, Last(parts), lines + Shown(Init(parts), show), show)
  {
    var content := Concat(chunks);
    assert Init(chunks + [c]) == chunks && Concat(chunks + [c]) == content + c;
    SplitMore(content, c, NEWLINE);
    var a, b := Init(Split(content, NEWLINE)), Split(buf + c, NEWLINE);
    assert Init(a + b) == a + Init(b);
    ShownMore(a, Init(b), show);
  }

  /** End of file delivers a fragment unless it is empty. */
  lemma StreamEnds(chunks: seq<Chunk>, buf: Chunk, lines: seq<string>, show: Chunk -> string)
    requires UpTo(chunks, false, buf, lines, show)
    ensures UpTo(chunks + [[]], true, [], lines + if buf == [] then [] else [show(buf)], show)
  {
    assert Init(chunks + [[]]) == chunks && Concat(chunks + [[]]) == Concat(chunks);
    var parts := Split(Concat(chunks), NEWLINE);
    assert parts == Init(parts) + [buf];
    ShownMore(Init(parts), [buf], show);
    assert Shown([buf], show) == [show(buf)];
  }

  lemma ChunksPrefix(events: seq<Event>, i: nat, s: Stream)
    requires i <= |events|
    ensures ChunksOf(events[..i], s) <= ChunksOf(events, s)
    decreases |events| - i
  {
    if i == |events| {
      assert events[..i] == events;
    } else {
      ChunksPrefix(events, i + 1, s);
      assert Init(events[..i + 1]) == events[..i];
    }
  }

  lemma ChunksOneMore(events: seq<Event>, i: nat, s: Stream)
    requires i < |events|
    ensures ChunksOf(events[..i + 1], s) ==
      if events[i].stream == s then ChunksOf(events[..i], s) + [events[i].chunk] else ChunksOf(events[..i], s)
  {
    assert Init(events[..i + 1]) == events[..i] && Last(events[..i + 1]) == events[i];
  }

  /** Before its end of file a stream has given only non-empty chunks. */
  lemma NotEndedYet(events: seq<Event>, i: nat)
    requires i < |events| && ReadToEnd(ChunksOf(events, events[i].stream))
    ensures [] !in ChunksOf(events[..i], events[i].stream)
  {
    var s := events[i].stream;
    ChunksPrefix(events, i + 1, s);
    ChunksOneMore(events, i, s);
    ProperPrefix(ChunksOf(events[..i], s), ChunksOf(events, s));
  }

  lemma ProperPrefix(a: seq<Chunk>, b: seq<Chunk>)
    requires ReadToEnd(b) && a <= b && |a| < |b|
    ensures [] !in a
  {
    forall k | 0 <= k < |a|
      ensures a[k] != []
    {
      assert Init(b)[k] == a[k] && Init(b)[k] in Init(b);
    }
  }

  /** Everything the loop knows of one stream after reading `chunks` from it. */
  ghost predicate StreamOk(chunks: seq<Chunk>, closed: bool, parts: seq<Chunk>, buf: Chunk, lines: seq<string>,
                           show: Chunk -> string) {
    && (closed <==> [] in chunks)
    && Concat(parts) == Concat(chunks)
    && UpTo(chunks, closed, buf, lines, show)
  }

  lemma NothingRead(show: Chunk -> string)
    ensures StreamOk([], false, [], [], [], show)
  {
    SplitNone<Byte>([], NEWLINE);
    assert Init<Chunk>([[]]) == [];
  }

  lemma ReadOne(chunks: seq<Chunk>, parts: seq<Chunk>, buf: Chunk, lines: seq<string>, show: Chunk -> string, c: Chunk)
    requires StreamOk(chunks, false, parts, buf, lines, show) && c != []
    ensures var pieces := Split(buf + c, NEWLINE);
            StreamOk(chunks + [c], false, parts + [c], Last(pieces), lines + Shown(Init(pieces), show), show)
  {
    hide UpTo;
    ChunkArrives(chunks, c, buf, lines, show);
    assert Init(parts + [c]) == parts && Init(chunks + [c]) == chunks;
  }

  lemma ReadEnd(chunks: seq<Chunk>, parts: seq<Chunk>, buf: Chunk, lines: seq<string>, show: Chunk -> string)
    requires StreamOk(chunks, false, parts, buf, lines, show)
    ensures StreamOk(chunks + [[]], true, parts, [], lines + if buf == [] then [] else [show(buf)], show)
  {
    hide UpTo;
    StreamEnds(chunks, buf, lines, show);
    assert (chunks + [[]])[|chunks|] == [];
    assert Init(chunks + [[]]) == chunks;
  }

  lemma AllRead(chunks: seq<Chunk>, closed: bool, parts: seq<Chunk>, buf: Chunk, lines: seq<string>, show: Chunk -> string)
    requires ReadToEnd(chunks) && StreamOk(chunks, closed, parts, buf, lines, show)
    ensures Concat(parts) == Concat(chunks) && lines == Shown(LinesOf(Concat(chunks)), show)
  {
    assert chunks[|chunks| - 1] == [];
  }

  /** For every chunking and every interleaving: the collected parts are the stream, and the
      lines delivered per stream are the lines of its whole content. */
  method Pump(events: seq<Event>, show: Chunk -> string)
      returns (outParts: seq<Chunk>, errParts: seq<Chunk>, delivered: seq<(Stream, string)>)
    requires forall s :: ReadToEnd(ChunksOf(events, s))
    ensures Concat(outParts) == Concat(ChunksOf(events, Out)) && Concat(errParts) == Concat(ChunksOf(events, Err))
    ensures forall s :: Of(delivered, s) == Shown(LinesOf(Concat(ChunksOf(events, s))), show)
  {
    hide StreamOk, ReadToEnd, LinesOf, Concat, Shown, Of, ChunksOf, Tagged;
    var bufs: map<Stream, Chunk> := map[Out := [], Err := []];
    var closed: map<Stream, bool> := map[Out := false, Err := false];
    outParts, errParts, delivered := [], [], [];
    NothingRead(show);
    EmptyLogs();
    assert events[..0] == [];
    for i := 0 to |events|
      invariant Out in bufs && Err in bufs && Out in closed && Err in closed
      invariant StreamOk(ChunksOf(events[..i], Out), closed[Out], outParts, bufs[Out], Of(delivered, Out), show)
      invariant StreamOk(ChunksOf(events[..i], Err), closed[Err], errParts, bufs[Err], Of(delivered, Err), show)
    {
      var Event(s, chunk) := events[i];
      assert ReadToEnd(ChunksOf(events, s));
      NotEndedYet(events, i);
      ChunksOneMore(events, i, Out);
      ChunksOneMore(events, i, Err);
      ghost var before, parts := ChunksOf(events[..i], s), if s == Out then outParts else errParts;
      OpenUntilEnd(before, closed[s], parts, bufs[s], Of(delivered, s), show);
      var lines: seq<string>;
      if chunk == [] {
        ReadEnd(before, parts, bufs[s], Of(delivered, s), show);
        lines := if bufs[s] == [] then [] else [show(bufs[s])];
        bufs, closed := bufs[s := []], closed[s := true];
      } else {
        ReadOne(before, parts, bufs[s], Of(delivered, s), show, chunk);
        if s == Out { outParts := outParts + [chunk]; } else { errParts := errParts + [chunk]; }
        var pieces := Split(bufs[s] + chunk, NEWLINE);
        lines := Shown(Init(pieces), show);
        bufs := bufs[s := Last(pieces)];
      }
      OfMore(delivered, s, lines, Out);
      OfMore(delivered, s, lines, Err);
      delivered := delivered + Tagged(s, lines);
    }
    assert events[..|events|] == events;
    AllRead(ChunksOf(events, Out), closed[Out], outParts, bufs[Out], Of(delivered, Out), show);
    AllRead(ChunksOf(events, Err), closed[Err], errParts, bufs[Err], Of(delivered, Err), show);
    forall s
      ensures Of(delivered, s) == Shown(LinesOf(Concat(ChunksOf(events, s))), show)
    {
      match s { case Out => case Err => }
    }
  }

  lemma EmptyLogs()
    ensures forall s :: Of([], s) == [] && ChunksOf([], s) == []
  {
  }

  lemma OpenUntilEnd(chunks: seq<Chunk>, closed: bool, parts: seq<Chunk>, buf: Chunk, lines: seq<string>, show: Chunk -> string)
    requires StreamOk(chunks, closed, parts, buf, lines, show) && [] !in chunks
    ensures !closed
  {
  }

  lemma {:induction false} JoinInit<T>(parts: seq<seq<T>>, c: T)
    requires |parts| > 1
    ensures Join(parts, c) == Join(Init(parts), c) + ([c] + Last(parts))
  {
    if |parts| == 2 {
      assert Join(parts[1..], c) == Last(parts);
      assert Init(parts) == [parts[0]];
    } else {
      JoinInit(parts[1..], c);
      assert Init(parts)[1..] == Init(parts[1..]);
      assert Last(parts[1..]) == Last(parts);
    }
  }

  /** Lines hold no newline, and put back together they are the stream, up to one final
      newline. */
  lemma LinesRebuildTheStream(content: Chunk)
    ensures forall l | l in LinesOf(content) :: NEWLINE !in l
    ensures if LinesOf(content) == [] then content == []
            else content == Join(LinesOf(content), NEWLINE) || content == Join(LinesOf(content), NEWLINE) + [NEWLINE]
  {
    SplitParts(content, NEWLINE);
    var parts := Split(content, NEWLINE);
    if Last(parts) == [] && |parts| > 1 {
      JoinInit(parts, NEWLINE);
      assert [NEWLINE] + Last(parts) == [NEWLINE];
    }
  }
}
