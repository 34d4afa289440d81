/**
  What the tuner's commands do to the machine, as functions of everything that survives
  the process, and the promises those functions keep over crashes and whole runs.
*/
module KnobSpec {
  import opened Prelude
  import opened KnobModel

  type Registry = map<Name, Knob>

  // ----- drop-ins

  const PROC_SYS := "/proc/sys/"

  /** The sysctl name of a /proc/sys path. */
  function SysctlKey(p: Path): Option<string> {
    if |p| >= |PROC_SYS| && p[..|PROC_SYS|] == PROC_SYS then Some(Dotted(p[|PROC_SYS|..])) else None
  }

  function Dotted(s: string): string {
    seq(|s|, i requires 0 <= i < |s| => if s[i] == '/' then '.' else s[i])
  }

  /** Paths without dots never share a sysctl name. */
  lemma SysctlKeyInjective(p: Path, q: Path)
    requires '.' !in p && '.' !in q && SysctlKey(p).Some? && SysctlKey(p) == SysctlKey(q)
    ensures p == q
  {
    var s, t := p[|PROC_SYS|..], q[|PROC_SYS|..];
    assert |s| == |Dotted(s)| == |Dotted(t)| == |t|;
    forall i | 0 <= i < |s|
      ensures s[i] == t[i]
    {
      assert Dotted(s)[i] == Dotted(t)[i];
      assert s[i] == p[|PROC_SYS| + i] && t[i] == q[|PROC_SYS| + i];
    }
    assert p == PROC_SYS + s && q == PROC_SYS + t;
  }

  function LineOf(p: Path): Line {
    if SysctlKey(p).Some? then Sysctl(SysctlKey(p).value) else Tmpfiles(p)
  }

  /** The drop-in lines a kept knob proposes. */
  function LinesOf(knobs: Registry, n: Name): seq<(Line, Value)> {
    if n !in knobs then []
    else if n == CUDA_CACHE then [(Env("CUDA_CACHE_MAXSIZE"), "4294967296")]
    else
      var ts := knobs[n].targets;
      seq(|ts|, i requires 0 <= i < |ts| => (LineOf(ts[i].0), ts[i].1))
  }

  function WithLines(dr: Dropins, lines: seq<(Line, Value)>): Dropins {
    if |lines| == 0 then dr
    else WithLines(dr, lines[..|lines| - 1])[lines[|lines| - 1].0 := lines[|lines| - 1].1]
  }

  ghost predicate Proposed(knobs: Registry, names: set<Name>, line: Line, v: Value) {
    exists n :: n in names && (line, v) in LinesOf(knobs, n)
  }

  ghost function Proposals(knobs: Registry, names: set<Name>): iset<(Line, Value)> {
    iset line, v | Proposed(knobs, names, line, v) :: (line, v)
  }

  /** `dr` is exactly what the knobs `names` propose, in whatever order they were kept. */
  ghost predicate Renders(knobs: Registry, names: set<Name>, dr: Dropins) {
    Holds(Proposals(knobs, names), dr)
  }

  ghost predicate Holds(props: iset<(Line, Value)>, dr: Dropins) {
    && (forall w | w in props :: w.0 in dr && dr[w.0] == w.1)
    && (forall line | line in dr :: (line, dr[line]) in props)
  }

  /** The kept set alone fixes the drop-ins. */
  lemma RendersUnique(knobs: Registry, names: set<Name>, a: Dropins, b: Dropins)
    requires Renders(knobs, names, a) && Renders(knobs, names, b)
    ensures a == b
  {
    forall line | line in a
      ensures line in b && b[line] == a[line]
    {
      assert (line, a[line]) in Proposals(knobs, names);
    }
    forall line | line in b
      ensures line in a
    {
      assert (line, b[line]) in Proposals(knobs, names);
    }
  }

  lemma TargetOwned(k: Knob, i: nat)
    requires i < |k.targets|
    ensures k.targets[i].0 in SnapPaths(k) && SnapPaths(k)[|k.extra| + i] == k.targets[i].0
  {
  }

  /** Two knobs never fight over a drop-in line, nor do two targets of one knob. */
  lemma ProposalsAgree(knobs: Registry, m: Name, n: Name, i: nat, j: nat)
    requires RegistryOk(knobs) && i < |LinesOf(knobs, m)| && j < |LinesOf(knobs, n)|
    requires LinesOf(knobs, m)[i].0 == LinesOf(knobs, n)[j].0
    ensures LinesOf(knobs, m)[i].1 == LinesOf(knobs, n)[j].1
  {
    if m != CUDA_CACHE && n != CUDA_CACHE {
      SameLineSamePath(knobs[m].targets[i].0, knobs[n].targets[j].0);
      TargetsAgree(knobs, m, n, i, j);
    }
  }

  lemma SameLineSamePath(p: Path, q: Path)
    requires '.' !in p && '.' !in q && LineOf(p) == LineOf(q)
    ensures p == q
  {
    if SysctlKey(p).Some? { SysctlKeyInjective(p, q); }
  }

  lemma TargetsAgree(knobs: Registry, m: Name, n: Name, i: nat, j: nat)
    requires RegistryOk(knobs) && m in knobs && n in knobs && i < |knobs[m].targets| && j < |knobs[n].targets|
    requires knobs[m].targets[i].0 == knobs[n].targets[j].0
    ensures knobs[m].targets[i] == knobs[n].targets[j]
  {
    TargetOwned(knobs[m], i);
    TargetOwned(knobs[n], j);
  }

  lemma ProposedOnce(knobs: Registry, names: set<Name>, line: Line, v: Value, w: Value)
    requires RegistryOk(knobs) && Proposed(knobs, names, line, v) && Proposed(knobs, names, line, w)
    ensures v == w
  {
    hide RegistryOk, LinesOf;
    var m :| m in names && (line, v) in LinesOf(knobs, m);
    var n :| n in names && (line, w) in LinesOf(knobs, n);
    var i :| 0 <= i < |LinesOf(knobs, m)| && LinesOf(knobs, m)[i] == (line, v);
    var j :| 0 <= j < |LinesOf(knobs, n)| && LinesOf(knobs, n)[j] == (line, w);
    ProposalsAgree(knobs, m, n, i, j);
  }

  ghost predicate Functional(props: iset<(Line, Value)>) {
    forall v, w | v in props && w in props && v.0 == w.0 :: v == w
  }

  lemma HoldsOneMore(props: iset<(Line, Value)>, dr: Dropins, last: (Line, Value))
    requires Holds(props, dr) && Functional(props + iset{last})
    ensures Holds(props + iset{last}, dr[last.0 := last.1])
  {
    var all := props + iset{last};
    assert last in all;
    forall w | w in all
      ensures w.0 in dr[last.0 := last.1] && dr[last.0 := last.1][w.0] == w.1
    {
      if w.0 == last.0 { assert w == last; } else { assert w in props; }
    }
  }

  lemma {:induction false} WithLinesHolds(props: iset<(Line, Value)>, dr: Dropins, lines: seq<(Line, Value)>)
    requires Holds(props, dr) && Functional(props + iset l | l in lines)
    ensures Holds(props + (iset l | l in lines), WithLines(dr, lines))
  {
    var all := props + iset l | l in lines;
    if |lines| == 0 {
      assert all == props;
    } else {
      var before, last := lines[..|lines| - 1], lines[|lines| - 1];
      var part := props + iset l | l in before;
      assert lines == before + [last];
      assert part + iset{last} == all;
      forall v, w | v in part && w in part && v.0 == w.0
        ensures v == w
      {
        assert v in all && w in all;
      }
      WithLinesHolds(props, dr, before);
      HoldsOneMore(part, WithLines(dr, before), last);
    }
  }

  lemma ProposalsOneMore(knobs: Registry, names: set<Name>, n: Name)
    ensures Proposals(knobs, names + {n}) == Proposals(knobs, names) + iset l | l in LinesOf(knobs, n)
  {
    forall w: (Line, Value)
      ensures Proposed(knobs, names + {n}, w.0, w.1) <==> Proposed(knobs, names, w.0, w.1) || w in LinesOf(knobs, n)
    {
      if Proposed(knobs, names, w.0, w.1) {
        var m :| m in names && w in LinesOf(knobs, m);
        assert m in names + {n};
      }
      assert n in names + {n};
    }
  }

  lemma WithKnobRenders(knobs: Registry, names: set<Name>, dr: Dropins, n: Name)
    requires RegistryOk(knobs) && Renders(knobs, names, dr)
    ensures Renders(knobs, names + {n}, WithLines(dr, LinesOf(knobs, n)))
  {
    ProposalsOneMore(knobs, names, n);
    forall v, w | v in Proposals(knobs, names + {n}) && w in Proposals(knobs, names + {n}) && v.0 == w.0
      ensures v == w
    {
      ProposedOnce(knobs, names + {n}, v.0, v.1, w.1);
    }
    assert Functional(Proposals(knobs, names + {n}));
    WithLinesHolds(Proposals(knobs, names), dr, LinesOf(knobs, n));
  }

  /** regenerate_dropins: what the kept knobs render to. */
  ghost function Rendered(knobs: Registry, names: set<Name>): (dr: Dropins)
    requires RegistryOk(knobs)
    ensures Renders(knobs, names, dr)
  {
    if names == {} then map[]
    else
      var n :| n in names;
      WithKnobRenders(knobs, names - {n}, Rendered(knobs, names - {n}), n);
      assert names - {n} + {n} == names;
      WithLines(Rendered(knobs, names - {n}), LinesOf(knobs, n))
  }

  /** A kept knob proposes `v` for the file `p`; the CUDA cache is no file. */
  ghost predicate KeptTarget(knobs: Registry, names: set<Name>, p: Path, v: Value) {
    exists n | n in names && n in knobs && n != CUDA_CACHE :: (p, v) in knobs[n].targets
  }

  /** `key` is `s` with dots for its slashes. */
  predicate DotsFor(key: string, s: string) {
    |key| == |s| && forall i | 0 <= i < |s| :: key[i] == if s[i] == '/' then '.' else s[i]
  }

  /** Line by line, what the drop-ins of a kept set hold: each file below /proc/sys by its sysctl
      name, every other file by its path, the CUDA cache by its variable, and nothing else. */
  lemma DropinLineIff(knobs: Registry, names: set<Name>, line: Line, v: Value)
    requires RegistryOk(knobs)
    ensures (line in Rendered(knobs, names) && Rendered(knobs, names)[line] == v) <==>
      || (line.Sysctl? && exists s :: DotsFor(line.key, s) && KeptTarget(knobs, names, PROC_SYS + s, v))
      || (line.Tmpfiles? && !(PROC_SYS <= line.path) && KeptTarget(knobs, names, line.path, v))
      || (line == Env("CUDA_CACHE_MAXSIZE") && v == "4294967296" && CUDA_CACHE in names && CUDA_CACHE in knobs)
  {
    RenderedMeans(knobs, names, line, v);
    ProposedMeans(knobs, names, line, v);
    FilesOfLine(knobs, names, line, v);
    hide *;
  }

  lemma RenderedMeans(knobs: Registry, names: set<Name>, line: Line, v: Value)
    requires RegistryOk(knobs)
    ensures (line in Rendered(knobs, names) && Rendered(knobs, names)[line] == v) <==> Proposed(knobs, names, line, v)
  {
    var dr := Rendered(knobs, names);
    hide Rendered, RegistryOk, Proposed;
    assert (line, v) in Proposals(knobs, names) <==> Proposed(knobs, names, line, v);
    if line in dr { assert (line, dr[line]) in Proposals(knobs, names); }
  }

  /** Which files have the line `line`. */
  lemma FilesOfLine(knobs: Registry, names: set<Name>, line: Line, v: Value)
    ensures (exists p :: KeptTarget(knobs, names, p, v) && LineOf(p) == line) <==>
      || (line.Sysctl? && exists s :: DotsFor(line.key, s) && KeptTarget(knobs, names, PROC_SYS + s, v))
      || (line.Tmpfiles? && !(PROC_SYS <= line.path) && KeptTarget(knobs, names, line.path, v))
  {
    hide KeptTarget, LineOf, DotsFor;
    forall p ensures LineOf(p) == line <==> LineNames(line, p) { LineOfMeans(line, p); }
    if p :| KeptTarget(knobs, names, p, v) && LineOf(p) == line {
      assert PROC_SYS <= p ==> p == PROC_SYS + p[|PROC_SYS|..];
    }
    if line.Sysctl? {
      if s :| DotsFor(line.key, s) && KeptTarget(knobs, names, PROC_SYS + s, v) {
        assert (PROC_SYS + s)[|PROC_SYS|..] == s;
        assert LineNames(line, PROC_SYS + s);
      }
    }
  }

  /** The drop-in line `line` is the one for the file `p`. */
  ghost predicate LineNames(line: Line, p: Path) {
    if PROC_SYS <= p then line.Sysctl? && DotsFor(line.key, p[|PROC_SYS|..]) else line == Tmpfiles(p)
  }

  lemma LineOfMeans(line: Line, p: Path)
    ensures LineOf(p) == line <==> LineNames(line, p)
  {
    if PROC_SYS <= p && line.Sysctl? {
      assert DotsFor(line.key, p[|PROC_SYS|..]) <==> line.key == Dotted(p[|PROC_SYS|..]);
    }
  }

  lemma ProposedMeans(knobs: Registry, names: set<Name>, line: Line, v: Value)
    ensures Proposed(knobs, names, line, v) <==>
      || (line == Env("CUDA_CACHE_MAXSIZE") && v == "4294967296" && CUDA_CACHE in names && CUDA_CACHE in knobs)
      || (exists p :: KeptTarget(knobs, names, p, v) && LineOf(p) == line)
  {
    hide LineOf;
    if n :| n in names && (line, v) in LinesOf(knobs, n) {
      if n != CUDA_CACHE {
        var i :| 0 <= i < |LinesOf(knobs, n)| && LinesOf(knobs, n)[i] == (line, v);
        var ts := knobs[n].targets;
        assert ts[i] in ts && ts[i] == (ts[i].0, v);
      }
    }
    if p :| KeptTarget(knobs, names, p, v) && LineOf(p) == line {
      var n :| n in names && n in knobs && n != CUDA_CACHE && (p, v) in knobs[n].targets;
      var i :| 0 <= i < |knobs[n].targets| && knobs[n].targets[i] == (p, v);
      assert LinesOf(knobs, n)[i] == (line, v);
    }
    if line == Env("CUDA_CACHE_MAXSIZE") && v == "4294967296" && CUDA_CACHE in names && CUDA_CACHE in knobs {
      assert (line, v) in LinesOf(knobs, CUDA_CACHE);
    }
  }

  // ----- the commands, run to completion

  ghost predicate DiskOk(knobs: Registry, d: Disk) {
    && RegistryOk(knobs)
    && Consistent(d.live)
    && (forall n | n in d.persisted && n in knobs :: SnapOf(knobs[n], d.live.Keys, d.persisted[n]))
    && (forall n | n in d.pending && n in knobs :: SnapOf(knobs[n], d.live.Keys, d.pending[n]))
  }

  /** The snapshot `revert` goes back to: the recorded original wins over a pending one. */
  function Entry(d: Disk, n: Name): Option<Snap> {
    if n in d.persisted then Some(d.persisted[n])
    else if n in d.pending then Some(d.pending[n])
    else None
  }

  /** Name `n` makes revert write `p`. */
  ghost predicate Reverts(knobs: Registry, d: Disk, n: Name, p: Path) {
    n in knobs && Entry(d, n).Some? && Recorded(Entry(d, n).value, p).Some?
  }

  /** Revert writes `p` on behalf of at most one knob. */
  ghost predicate OneReverter(knobs: Registry, d: Disk, p: Path) {
    forall m, n | Reverts(knobs, d, m, p) && Reverts(knobs, d, n, p) :: m == n
  }

  lemma RevertsOwnFiles(knobs: Registry, d: Disk, n: Name, p: Path)
    requires DiskOk(knobs, d) && n in knobs && Entry(d, n).Some?
    ensures Reverts(knobs, d, n, p) <==> p in SnapPaths(knobs[n]) && p in d.live
  {
    RecordedIn(knobs[n], d.live.Keys, Entry(d, n).value, p);
  }

  lemma AtMostOneReverter(knobs: Registry, d: Disk, p: Path)
    requires DiskOk(knobs, d)
    ensures OneReverter(knobs, d, p)
  {
    forall m, n | Reverts(knobs, d, m, p) && Reverts(knobs, d, n, p)
      ensures m == n
    {
      RevertsOwnFiles(knobs, d, m, p);
      RevertsOwnFiles(knobs, d, n, p);
    }
  }

  /** What `p` holds after the entries of `names` were restored. */
  ghost function RevertValue(knobs: Registry, d: Disk, names: set<Name>, p: Path): Value
    requires p in d.live
  {
    if exists n :: n in names && Reverts(knobs, d, n, p)
    then var n :| n in names && Reverts(knobs, d, n, p); Recorded(Entry(d, n).value, p).value
    else d.live[p]
  }

  ghost function RevertedLive(knobs: Registry, d: Disk, names: set<Name>): Live {
    map p | p in d.live :: RevertValue(knobs, d, names, p)
  }

  ghost function Revert(knobs: Registry, d: Disk, names: set<Name>): Disk
    requires RegistryOk(knobs)
  {
    Disk(RevertedLive(knobs, d, names), d.persisted - names, d.pending - names,
         Rendered(knobs, (d.persisted - names).Keys))
  }

  ghost function RevertAll(knobs: Registry, d: Disk): Disk
    requires RegistryOk(knobs)
  {
    Revert(knobs, d, d.persisted.Keys + d.pending.Keys)
  }

  ghost function Keep(knobs: Registry, d: Disk, n: Name): Disk
    requires RegistryOk(knobs) && n in knobs
  {
    var persisted := d.persisted[n := Snapshot(d.live, knobs[n])];
    Disk(Applied(d.live, knobs[n].targets), persisted, d.pending, Rendered(knobs, persisted.Keys))
  }

  // ----- reverting

  lemma RevertValueOneMore(knobs: Registry, d: Disk, names: set<Name>, n: Name, p: Path)
    requires OneReverter(knobs, d, p) && n !in names && p in d.live
    ensures RevertValue(knobs, d, names + {n}, p) ==
      if Reverts(knobs, d, n, p) then Recorded(Entry(d, n).value, p).value else RevertValue(knobs, d, names, p)
  {
    if Reverts(knobs, d, n, p) {
      assert n in names + {n};
    } else if m :| m in names && Reverts(knobs, d, m, p) {
      assert m in names + {n};
    }
  }

  /** Restoring one more entry, whatever the order, extends the set of reverted names. */
  lemma RevertOneMore(knobs: Registry, d: Disk, names: set<Name>, n: Name)
    requires DiskOk(knobs, d) && n !in names
    ensures var live := RevertedLive(knobs, d, names);
            RevertedLive(knobs, d, names + {n}) ==
              if n in knobs && Entry(d, n).Some? then Restored(live, Entry(d, n).value) else live
  {
    hide DiskOk, RevertValue, OneReverter, Recorded;
    var live := RevertedLive(knobs, d, names);
    var next := if n in knobs && Entry(d, n).Some? then Restored(live, Entry(d, n).value) else live;
    forall p | p in d.live
      ensures RevertValue(knobs, d, names + {n}, p) == next[p]
    {
      AtMostOneReverter(knobs, d, p);
      RevertValueOneMore(knobs, d, names, n, p);
    }
    assert next.Keys == d.live.Keys;
  }

  lemma {:induction false} RevertedConsistent(knobs: Registry, d: Disk, names: set<Name>)
    requires DiskOk(knobs, d)
    ensures Consistent(RevertedLive(knobs, d, names)) && RevertedLive(knobs, d, names).Keys == d.live.Keys
    decreases names
  {
    if names == {} {
      assert RevertedLive(knobs, d, names) == d.live;
    } else {
      var n :| n in names;
      RevertedConsistent(knobs, d, names - {n});
      RevertOneMore(knobs, d, names - {n}, n);
      assert names - {n} + {n} == names;
      if n in knobs && Entry(d, n).Some? {
        CoupledRestore(RevertedLive(knobs, d, names - {n}), knobs[n], Entry(d, n).value);
      }
    }
  }

  ghost function Entries(d: Disk): set<Name> {
    d.persisted.Keys + d.pending.Keys
  }

  /** Two disks `revert all` treats alike at `p`: the same reverter with the same value, or
      none in both and the same content. */
  ghost predicate AlikeAt(knobs: Registry, d: Disk, e: Disk, p: Path)
    requires p in d.live && p in e.live
  {
    || (exists n :: Reverts(knobs, d, n, p) && Reverts(knobs, e, n, p)
                    && Recorded(Entry(d, n).value, p) == Recorded(Entry(e, n).value, p))
    || ((forall n :: !Reverts(knobs, d, n, p) && !Reverts(knobs, e, n, p)) && d.live[p] == e.live[p])
  }

  lemma AlikeSameValue(knobs: Registry, d: Disk, e: Disk, p: Path)
    requires p in d.live && p in e.live && OneReverter(knobs, d, p) && OneReverter(knobs, e, p)
    requires AlikeAt(knobs, d, e, p)
    ensures RevertValue(knobs, d, Entries(d), p) == RevertValue(knobs, e, Entries(e), p)
  {
    if n :| Reverts(knobs, d, n, p) && Reverts(knobs, e, n, p)
            && Recorded(Entry(d, n).value, p) == Recorded(Entry(e, n).value, p) {
      assert n in Entries(d) && n in Entries(e);
    }
  }

  lemma AlikeRevertsAlike(knobs: Registry, d: Disk, e: Disk)
    requires DiskOk(knobs, d) && DiskOk(knobs, e) && d.live.Keys == e.live.Keys
    requires forall p | p in d.live :: AlikeAt(knobs, d, e, p)
    ensures RevertAll(knobs, d) == RevertAll(knobs, e)
  {
    forall p | p in d.live
      ensures RevertValue(knobs, d, Entries(d), p) == RevertValue(knobs, e, Entries(e), p)
    {
      AtMostOneReverter(knobs, d, p);
      AtMostOneReverter(knobs, e, p);
      AlikeSameValue(knobs, d, e, p);
    }
    SameValuesSameRevert(knobs, d, e);
  }

  // ----- crash safety of an A/B

  /** An A/B of `n` loses nothing: it is not waiting to be reverted, or it is kept (then
      the recorded original decides), or what is waiting is what the files hold anyway. */
  ghost predicate SafeToTest(knobs: Registry, d: Disk, n: Name) {
    n !in d.pending || n in d.persisted || Restored(d.live, d.pending[n]) == d.live
  }

  /** Every state an A/B of `n`, begun in `d`, can be stopped in: the snapshot is on disk
      and the knob's own files are anywhere between untouched and applied. */
  ghost predicate MidTest(knobs: Registry, d: Disk, n: Name, e: Disk)
    requires n in knobs
  {
    && e.persisted == d.persisted && e.dropins == d.dropins
    && e.pending == d.pending[n := Snapshot(d.live, knobs[n])]
    && Consistent(e.live)
    && OnlyInside(d.live, e.live, SnapPaths(knobs[n]))
  }

  ghost function Popped(d: Disk, tested: set<Name>): Disk {
    d.(pending := d.pending - tested)
  }

  /** Every state an A/B over `names` can leave, finished or not: some tests done, and at most
      one more begun. */
  ghost predicate MidAb(knobs: Registry, d: Disk, names: set<Name>, e: Disk) {
    exists tested | tested <= names :: e == Popped(d, tested) || exists n | n in names && n in knobs :: MidTest(knobs, Popped(d, tested), n, e)
  }

  /** Only files were written back, and only ones a recorded entry covers. */
  ghost predicate HalfReverted(knobs: Registry, d: Disk, e: Disk) {
    && e == d.(live := e.live) && Consistent(e.live) && e.live.Keys == d.live.Keys
    && forall p | p in d.live && e.live[p] != d.live[p] :: exists n :: Reverts(knobs, d, n, p)
  }

  /** Every state a revert of `names` can be stopped in: half the files, or all but the drop-ins. */
  ghost predicate MidRevert(knobs: Registry, d: Disk, names: set<Name>, e: Disk)
    requires RegistryOk(knobs)
  {
    HalfReverted(knobs, d, e) || e.(dropins := map[]) == Revert(knobs, d, names).(dropins := map[])
  }

  lemma MidTestOk(knobs: Registry, d: Disk, n: Name, e: Disk)
    requires DiskOk(knobs, d) && n in knobs && MidTest(knobs, d, n, e)
    ensures DiskOk(knobs, e)
  {
    SnapshotIsSnapOf(d.live, knobs[n]);
  }

  lemma OthersDoNotRevert(knobs: Registry, d: Disk, n: Name, p: Path)
    requires DiskOk(knobs, d) && n in knobs && p in SnapPaths(knobs[n])
    ensures forall m | m != n :: !Reverts(knobs, d, m, p)
  {
    forall m | m != n
      ensures !Reverts(knobs, d, m, p)
    {
      if m in knobs && Entry(d, m).Some? {
        RevertsOwnFiles(knobs, d, m, p);
        assert DisjointFiles(knobs[m], knobs[n]);
      }
    }
  }

  /** A value waiting for `n` in `d` is what `p` holds. */
  lemma WaitingValue(knobs: Registry, d: Disk, n: Name, p: Path)
    requires DiskOk(knobs, d) && n in knobs && SafeToTest(knobs, d, n)
    requires n !in d.persisted && n in d.pending && p in SnapPaths(knobs[n]) && p in d.live
    ensures Reverts(knobs, d, n, p) && Recorded(d.pending[n], p) == Some(d.live[p])
  {
    RevertsOwnFiles(knobs, d, n, p);
    assert Restored(d.live, d.pending[n])[p] == d.live[p];
  }

  lemma CrashedOwnFile(knobs: Registry, d: Disk, n: Name, e: Disk, p: Path)
    requires DiskOk(knobs, d) && DiskOk(knobs, e) && n in knobs && SafeToTest(knobs, d, n) && MidTest(knobs, d, n, e)
    requires p in d.live && p in SnapPaths(knobs[n])
    ensures RevertValue(knobs, d, Entries(d), p) == RevertValue(knobs, e, Entries(e), p)
  {
    OthersDoNotRevert(knobs, d, n, p);
    OthersDoNotRevert(knobs, e, n, p);
    SnapshotRecords(d.live, knobs[n], p);
    RevertsOwnFiles(knobs, e, n, p);
    assert n in Entries(e);
    if n in d.persisted {
      RevertsOwnFiles(knobs, d, n, p);
      assert n in Entries(d);
    } else if n in d.pending {
      WaitingValue(knobs, d, n, p);
      assert n in Entries(d);
    }
  }

  lemma CrashedOtherFile(knobs: Registry, d: Disk, n: Name, e: Disk, p: Path)
    requires DiskOk(knobs, d) && DiskOk(knobs, e) && n in knobs && MidTest(knobs, d, n, e)
    requires p in d.live && p !in SnapPaths(knobs[n])
    ensures RevertValue(knobs, d, Entries(d), p) == RevertValue(knobs, e, Entries(e), p)
  {
    if Entry(d, n).Some? { RevertsOwnFiles(knobs, d, n, p); }
    RevertsOwnFiles(knobs, e, n, p);
    AtMostOneReverter(knobs, d, p);
    AtMostOneReverter(knobs, e, p);
    assert forall m | m != n :: Entry(d, m) == Entry(e, m);
    assert forall m :: Reverts(knobs, d, m, p) <==> Reverts(knobs, e, m, p);
    assert AlikeAt(knobs, d, e, p);
    AlikeSameValue(knobs, d, e, p);
  }

  lemma SameValuesSameRevert(knobs: Registry, d: Disk, e: Disk)
    requires RegistryOk(knobs) && d.live.Keys == e.live.Keys
    requires forall p | p in d.live :: RevertValue(knobs, d, Entries(d), p) == RevertValue(knobs, e, Entries(e), p)
    ensures RevertAll(knobs, d) == RevertAll(knobs, e)
  {
    assert RevertedLive(knobs, d, Entries(d)) == RevertedLive(knobs, e, Entries(e));
    assert d.persisted - Entries(d) == map[] == e.persisted - Entries(e);
    assert d.pending - Entries(d) == map[] == e.pending - Entries(e);
  }

  lemma CrashedTestReverts(knobs: Registry, d: Disk, n: Name, e: Disk)
    requires DiskOk(knobs, d) && n in knobs && SafeToTest(knobs, d, n) && MidTest(knobs, d, n, e)
    ensures RevertAll(knobs, e) == RevertAll(knobs, d)
  {
    MidTestOk(knobs, d, n, e);
    forall p | p in d.live
      ensures RevertValue(knobs, d, Entries(d), p) == RevertValue(knobs, e, Entries(e), p)
    {
      if p in SnapPaths(knobs[n]) { CrashedOwnFile(knobs, d, n, e, p); }
      else { CrashedOtherFile(knobs, d, n, e, p); }
    }
    SameValuesSameRevert(knobs, d, e);
  }

  /** A pending snapshot of other values is lost as soon as a second one is recorded. */
  lemma UnsafeTestLoses(knobs: Registry, d: Disk, n: Name)
    requires DiskOk(knobs, d) && n in knobs && !SafeToTest(knobs, d, n)
    ensures var e := d.(pending := d.pending[n := Snapshot(d.live, knobs[n])]);
            MidTest(knobs, d, n, e) && RevertAll(knobs, e) != RevertAll(knobs, d)
  {
    var e := d.(pending := d.pending[n := Snapshot(d.live, knobs[n])]);
    MidTestOk(knobs, d, n, e);
    var back := Restored(d.live, d.pending[n]);
    assert back.Keys == d.live.Keys;
    var p :| p in d.live && back[p] != d.live[p];
    RevertsOwnFiles(knobs, d, n, p);
    RevertsOwnFiles(knobs, e, n, p);
    SnapshotRecords(d.live, knobs[n], p);
    LostAt(knobs, d, e, n, p);
  }

  lemma LostAt(knobs: Registry, d: Disk, e: Disk, n: Name, p: Path)
    requires DiskOk(knobs, d) && DiskOk(knobs, e) && p in d.live && p in e.live
    requires Reverts(knobs, d, n, p) && Reverts(knobs, e, n, p)
    requires Recorded(Entry(d, n).value, p) != Recorded(Entry(e, n).value, p)
    ensures RevertAll(knobs, e) != RevertAll(knobs, d)
  {
    AtMostOneReverter(knobs, d, p);
    AtMostOneReverter(knobs, e, p);
    assert n in Entries(d) && n in Entries(e);
    assert RevertValue(knobs, d, Entries(d), p) == Recorded(Entry(d, n).value, p).value;
    assert RevertValue(knobs, e, Entries(e), p) == Recorded(Entry(e, n).value, p).value;
    assert RevertAll(knobs, d).live[p] != RevertAll(knobs, e).live[p];
  }

  /** Exactly when an A/B is crash-safe: stopped anywhere, `revert all` ends where it would
      have ended had the A/B never run, if and only if the knob was safe to test. */
  lemma CrashSafeIffSafeToTest(knobs: Registry, d: Disk, n: Name)
    requires DiskOk(knobs, d) && n in knobs
    ensures (forall e | MidTest(knobs, d, n, e) :: RevertAll(knobs, e) == RevertAll(knobs, d))
            <==> SafeToTest(knobs, d, n)
  {
    if SafeToTest(knobs, d, n) {
      forall e | MidTest(knobs, d, n, e) { CrashedTestReverts(knobs, d, n, e); }
    } else {
      UnsafeTestLoses(knobs, d, n);
    }
  }

  /** Repeating an A/B after a crash is the unsafe case: once a test of a knob not kept was
      stopped with its files changed, testing the knob again overwrites its originals. */
  lemma RepeatAfterCrashLoses(knobs: Registry, d: Disk, n: Name, e: Disk)
    requires DiskOk(knobs, d) && n in knobs && n !in d.persisted && MidTest(knobs, d, n, e)
    ensures SafeToTest(knobs, e, n) <==> e.live == d.live
    ensures e.live != d.live ==>
      exists again :: MidTest(knobs, e, n, again) && RevertAll(knobs, again) != RevertAll(knobs, e)
  {
    MidTestOk(knobs, d, n, e);
    hide RevertAll, SnapOf, Restored, Snapshot, SnapPaths;
    RestoreUndoes(d.live, e.live, knobs[n]);
    if e.live != d.live { UnsafeTestLoses(knobs, e, n); }
  }

  /** File by file: `revert all` after the stop gives a tested knob's file its recorded original
      if the knob was kept, else the value it had when the A/B began; a file of no recorded
      knob keeps the value it had then. */
  lemma CrashedTestFileByFile(knobs: Registry, d: Disk, n: Name, e: Disk, p: Path)
    requires DiskOk(knobs, d) && n in knobs && SafeToTest(knobs, d, n) && MidTest(knobs, d, n, e) && p in d.live
    ensures p in RevertAll(knobs, e).live
    ensures p in SnapPaths(knobs[n]) ==>
      Some(RevertAll(knobs, e).live[p]) == if n in d.persisted then Recorded(d.persisted[n], p) else Some(d.live[p])
    ensures (forall m :: !Reverts(knobs, d, m, p)) ==> RevertAll(knobs, e).live[p] == d.live[p]
  {
    CrashedTestReverts(knobs, d, n, e);
    AtMostOneReverter(knobs, d, p);
    if p in SnapPaths(knobs[n]) {
      OthersDoNotRevert(knobs, d, n, p);
      if n in d.persisted {
        RevertsOwnFiles(knobs, d, n, p);
        assert n in Entries(d);
      } else if n in d.pending {
        WaitingValue(knobs, d, n, p);
      }
    }
  }

  /** Popping a pending entry that was safe to test changes nothing `revert all` does. */
  lemma PoppedReverts(knobs: Registry, d: Disk, n: Name)
    requires DiskOk(knobs, d) && n in knobs && SafeToTest(knobs, d, n)
    ensures RevertAll(knobs, d.(pending := d.pending - {n})) == RevertAll(knobs, d)
  {
    var e := d.(pending := d.pending - {n});
    forall p | p in d.live
      ensures RevertValue(knobs, d, Entries(d), p) == RevertValue(knobs, e, Entries(e), p)
    {
      AtMostOneReverter(knobs, d, p);
      AtMostOneReverter(knobs, e, p);
      assert forall m | m != n || n in d.persisted :: Entry(d, m) == Entry(e, m);
      if Reverts(knobs, d, n, p) && n !in d.persisted {
        RevertsOwnFiles(knobs, d, n, p);
        WaitingValue(knobs, d, n, p);
        OthersDoNotRevert(knobs, e, n, p);
      } else {
        assert forall m :: Reverts(knobs, d, m, p) <==> Reverts(knobs, e, m, p);
        assert AlikeAt(knobs, d, e, p);
        AlikeSameValue(knobs, d, e, p);
      }
    }
    SameValuesSameRevert(knobs, d, e);
  }

  /** A revert that was itself stopped, its state file not yet written, can be run again. */
  lemma StoppedRevertReverts(knobs: Registry, d: Disk, e: Disk)
    requires DiskOk(knobs, d) && HalfReverted(knobs, d, e)
    ensures DiskOk(knobs, e) && RevertAll(knobs, e) == RevertAll(knobs, d)
  {
    assert forall m :: Entry(d, m) == Entry(e, m);
    forall p | p in d.live
      ensures AlikeAt(knobs, d, e, p)
    {
    }
    AlikeRevertsAlike(knobs, d, e);
  }

  // ----- keeping

  lemma KeepOk(knobs: Registry, d: Disk, n: Name)
    requires DiskOk(knobs, d) && n in knobs
    ensures DiskOk(knobs, Keep(knobs, d, n)) && OnlyInside(d.live, Keep(knobs, d, n).live, SnapPaths(knobs[n]))
  {
    var k := knobs[n];
    assert k.targets[..|k.targets|] == k.targets;
    AppliedInside(d.live, k, |k.targets|);
    SnapshotIsSnapOf(d.live, k);
  }

  lemma RevertOneLive(knobs: Registry, d: Disk, n: Name)
    requires DiskOk(knobs, d)
    ensures RevertedLive(knobs, d, {n}) ==
      if n in knobs && Entry(d, n).Some? then Restored(d.live, Entry(d, n).value) else d.live
  {
    assert RevertedLive(knobs, d, {}) == d.live;
    assert {} + {n} == {n};
    RevertOneMore(knobs, d, {}, n);
  }

  /** Every state a keep of `n`, begun in `d`, can be stopped in: nothing recorded yet, or all
      written and recorded and only the drop-ins not known. */
  ghost predicate MidKeep(knobs: Registry, d: Disk, n: Name, e: Disk)
    requires n in knobs
  {
    || (e == d.(live := e.live) && Consistent(e.live) && OnlyInside(d.live, e.live, SnapPaths(knobs[n])))
    || KeepRecorded(knobs, d, n, e)
  }

  /** After a keep of `n` was recorded, drop-ins aside. */
  ghost predicate KeepRecorded(knobs: Registry, d: Disk, n: Name, e: Disk)
    requires n in knobs
  {
    && e.live == Applied(d.live, knobs[n].targets) && e.pending == d.pending
    && e.persisted == d.persisted[n := Snapshot(d.live, knobs[n])]
  }

  lemma MidKeepOk(knobs: Registry, d: Disk, n: Name, e: Disk)
    requires DiskOk(knobs, d) && n in knobs && MidKeep(knobs, d, n, e)
    ensures DiskOk(knobs, e)
  {
    KeepOk(knobs, d, n);
    SnapshotIsSnapOf(d.live, knobs[n]);
  }

  /** A keep stopped after writing files but before recording the snapshot: `revert all` still
      ends where it would have, exactly when the knob already had an entry, or nothing changed. */
  lemma StoppedKeepRevertsIff(knobs: Registry, d: Disk, n: Name, e: Disk)
    requires DiskOk(knobs, d) && n in knobs && e == d.(live := e.live)
    requires Consistent(e.live) && OnlyInside(d.live, e.live, SnapPaths(knobs[n]))
    ensures RevertAll(knobs, e) == RevertAll(knobs, d) <==> Entry(d, n).Some? || e.live == d.live
  {
    if Entry(d, n).Some? {
      CoveredIsHalf(knobs, d, n, e);
      StoppedRevertReverts(knobs, d, e);
    } else if e.live != d.live {
      var p :| p in d.live && e.live[p] != d.live[p];
      UncoveredIsLost(knobs, d, n, e, p);
    }
  }

  lemma CoveredIsHalf(knobs: Registry, d: Disk, n: Name, e: Disk)
    requires DiskOk(knobs, d) && n in knobs && Entry(d, n).Some? && e == d.(live := e.live)
    requires Consistent(e.live) && OnlyInside(d.live, e.live, SnapPaths(knobs[n]))
    ensures HalfReverted(knobs, d, e)
  {
    forall p | p in d.live && e.live[p] != d.live[p] ensures exists m :: Reverts(knobs, d, m, p) {
      RevertsOwnFiles(knobs, d, n, p);
    }
  }

  lemma UncoveredIsLost(knobs: Registry, d: Disk, n: Name, e: Disk, p: Path)
    requires DiskOk(knobs, d) && DiskOk(knobs, e) && n in knobs && Entry(d, n).None? && e == d.(live := e.live)
    requires p in SnapPaths(knobs[n]) && p in d.live && p in e.live && e.live[p] != d.live[p]
    ensures RevertAll(knobs, e) != RevertAll(knobs, d)
  {
    OthersDoNotRevert(knobs, d, n, p);
    OthersDoNotRevert(knobs, e, n, p);
    assert RevertAll(knobs, e).live[p] == e.live[p] && RevertAll(knobs, d).live[p] == d.live[p];
  }

  /** A keep followed by a revert is undone completely, files, state and drop-ins, exactly
      when the knob was neither kept nor pending before: a second keep overwrites the
      recorded original. */
  lemma KeepThenRevert(knobs: Registry, d: Disk, n: Name)
    requires DiskOk(knobs, d) && n in knobs && d.dropins == Rendered(knobs, d.persisted.Keys)
    ensures Revert(knobs, Keep(knobs, d, n), {n}) == d <==> Entry(d, n).None?
    ensures Revert(knobs, Keep(knobs, d, n), {n}).live == d.live
  {
    KeepThenRevertLive(knobs, d, n);
    assert RegistryOk(knobs);
    hide DiskOk, RegistryOk, Keep, Revert;
    if Entry(d, n).None? { FreshKeepUndone(knobs, d, n); } else { KnownKeepForgotten(knobs, d, n); }
  }

  lemma FreshKeepUndone(knobs: Registry, d: Disk, n: Name)
    requires RegistryOk(knobs) && n in knobs && d.dropins == Rendered(knobs, d.persisted.Keys) && Entry(d, n).None?
    requires Revert(knobs, Keep(knobs, d, n), {n}).live == d.live
    ensures Revert(knobs, Keep(knobs, d, n), {n}) == d
  {
    hide RegistryOk, RevertedLive, Applied, Snapshot, Rendered;
    var kept := Keep(knobs, d, n);
    assert kept.persisted - {n} == d.persisted;
    assert kept.pending - {n} == d.pending;
  }

  lemma KnownKeepForgotten(knobs: Registry, d: Disk, n: Name)
    requires RegistryOk(knobs) && n in knobs && Entry(d, n).Some?
    ensures Revert(knobs, Keep(knobs, d, n), {n}) != d
  {
    hide RegistryOk, RevertedLive, Applied, Snapshot, Rendered;
    var kept := Keep(knobs, d, n);
    assert n !in (kept.persisted - {n}) && n !in (kept.pending - {n});
  }

  lemma KeepThenRevertLive(knobs: Registry, d: Disk, n: Name)
    requires DiskOk(knobs, d) && n in knobs
    ensures Revert(knobs, Keep(knobs, d, n), {n}).live == d.live
  {
    KeepOk(knobs, d, n);
    RevertOneLive(knobs, Keep(knobs, d, n), n);
    RestoreUndoes(d.live, Keep(knobs, d, n).live, knobs[n]);
  }

  /** After a second keep, revert stops at the values of the second keep, not the first. */
  lemma SecondKeepForgets(knobs: Registry, d: Disk, n: Name)
    requires DiskOk(knobs, d) && n in knobs
    ensures var once := Keep(knobs, d, n);
            Revert(knobs, Keep(knobs, once, n), {n}).live == once.live
  {
    KeepOk(knobs, d, n);
    KeepThenRevertLive(knobs, Keep(knobs, d, n), n);
  }

  ghost predicate EqualOn(a: Live, b: Live, paths: seq<Path>) {
    a.Keys == b.Keys && forall p | p in paths && p in a :: a[p] == b[p]
  }

  lemma WrittenIsLocal(k: Knob, a: Live, b: Live, p: Path, v: Value)
    requires KnobOk(k) && EqualOn(a, b, SnapPaths(k)) && p in SnapPaths(k)
    ensures EqualOn(Written(a, p, v), Written(b, p, v), SnapPaths(k))
  {
  }

  /** Writes inside one knob read and change only its own files. */
  lemma {:induction false} AppliedIsLocal(k: Knob, a: Live, b: Live, n: nat)
    requires KnobOk(k) && EqualOn(a, b, SnapPaths(k)) && n <= |k.targets|
    ensures EqualOn(Applied(a, k.targets[..n]), Applied(b, k.targets[..n]), SnapPaths(k))
  {
    if n == 0 {
      assert k.targets[..0] == [];
    } else {
      AppliedIsLocal(k, a, b, n - 1);
      assert k.targets[..n][..n - 1] == k.targets[..n - 1];
      TargetOwned(k, n - 1);
      WrittenIsLocal(k, Applied(a, k.targets[..n - 1]), Applied(b, k.targets[..n - 1]), k.targets[n - 1].0, k.targets[n - 1].1);
    }
  }

  lemma AppliedAll(live: Live, k: Knob)
    requires Consistent(live) && KnobOk(k)
    ensures OnlyInside(live, Applied(live, k.targets), SnapPaths(k)) && Consistent(Applied(live, k.targets))
  {
    assert k.targets[..|k.targets|] == k.targets;
    AppliedInside(live, k, |k.targets|);
  }

  /** Applying `k` leaves the files of a disjoint `l`, and so its snapshot, alone. */
  lemma AppliedSparesOthers(live: Live, k: Knob, l: Knob)
    requires Consistent(live) && KnobOk(k) && DisjointFiles(k, l)
    ensures forall p | p in SnapPaths(l) && p in live :: p in Applied(live, k.targets) && Applied(live, k.targets)[p] == live[p]
    ensures Snapshot(Applied(live, k.targets), l) == Snapshot(live, l)
  {
    AppliedAll(live, k);
    forall p | p in SnapPaths(l) && p in live
      ensures Applied(live, k.targets)[p] == live[p]
    {
      if p in SnapPaths(k) { assert false; }
    }
  }

  lemma AppliedAt(live: Live, k: Knob, l: Knob, p: Path)
    requires Consistent(live) && KnobOk(k) && KnobOk(l) && DisjointFiles(k, l) && p in live
    ensures var both := Applied(Applied(live, k.targets), l.targets);
            p in both && both[p] ==
              if p in SnapPaths(l) then Applied(live, l.targets)[p] else Applied(live, k.targets)[p]
  {
    AppliedAll(live, k);
    AppliedAll(live, l);
    AppliedAll(Applied(live, k.targets), l);
    if p in SnapPaths(l) {
      AppliedSparesOthers(live, k, l);
      assert l.targets[..|l.targets|] == l.targets;
      AppliedIsLocal(l, live, Applied(live, k.targets), |l.targets|);
    }
  }

  lemma AppliesCommute(live: Live, k: Knob, l: Knob)
    requires Consistent(live) && KnobOk(k) && KnobOk(l) && DisjointFiles(k, l) && DisjointFiles(l, k)
    ensures Applied(Applied(live, k.targets), l.targets) == Applied(Applied(live, l.targets), k.targets)
  {
    hide KnobOk, SnapPaths;
    AppliedAll(live, k);
    AppliedAll(live, l);
    forall p | p in live
      ensures Applied(Applied(live, k.targets), l.targets)[p] == Applied(Applied(live, l.targets), k.targets)[p]
    {
      AppliedAt(live, k, l, p);
      AppliedAt(live, l, k, p);
    }
  }

  /** The order two different knobs are kept in shows nowhere: not in the files, not in the
      recorded originals, not in the drop-ins. */
  lemma KeepsCommute(knobs: Registry, d: Disk, m: Name, n: Name)
    requires DiskOk(knobs, d) && m in knobs && n in knobs && m != n
    ensures Keep(knobs, Keep(knobs, d, m), n) == Keep(knobs, Keep(knobs, d, n), m)
  {
    KeptTwice(knobs, d, m, n);
    KeptTwice(knobs, d, n, m);
    BothAppliedCommute(knobs, d.live, m, n);
    SwapUpdates(d.persisted, m, Snapshot(d.live, knobs[m]), n, Snapshot(d.live, knobs[n]));
  }

  lemma BothAppliedCommute(knobs: Registry, live: Live, m: Name, n: Name)
    requires RegistryOk(knobs) && Consistent(live) && m in knobs && n in knobs && m != n
    ensures BothApplied(knobs, live, m, n) == BothApplied(knobs, live, n, m)
  {
    assert DisjointFiles(knobs[m], knobs[n]) && DisjointFiles(knobs[n], knobs[m]);
    AppliesCommute(live, knobs[m], knobs[n]);
  }

  lemma SwapUpdates<K, V>(d: map<K, V>, k: K, v: V, l: K, w: V)
    requires k != l
    ensures d[k := v][l := w] == d[l := w][k := v]
  {
  }

  function BothApplied(knobs: Registry, live: Live, m: Name, n: Name): Live
    requires m in knobs && n in knobs
  {
    Applied(Applied(live, knobs[m].targets), knobs[n].targets)
  }

  lemma KeptTwice(knobs: Registry, d: Disk, m: Name, n: Name)
    requires DiskOk(knobs, d) && m in knobs && n in knobs && m != n
    ensures Keep(knobs, Keep(knobs, d, m), n) ==
      var persisted := d.persisted[m := Snapshot(d.live, knobs[m])][n := Snapshot(d.live, knobs[n])];
      Disk(BothApplied(knobs, d.live, m, n), persisted, d.pending, Rendered(knobs, persisted.Keys))
  {
    assert DisjointFiles(knobs[m], knobs[n]);
    AppliedSparesOthers(d.live, knobs[m], knobs[n]);
  }

  // ----- whole runs

  datatype Command = DoKeep(name: Name) | DoRevert(names: set<Name>) | DoAb(tested: set<Name>)

  /** One command that ran to its end; an A/B gives its knobs' files back. */
  ghost function RunOne(knobs: Registry, d: Disk, c: Command): Disk
    requires RegistryOk(knobs)
  {
    match c
    case DoKeep(n) => if n in knobs then Keep(knobs, d, n) else d
    case DoRevert(names) => Revert(knobs, d, names)
    case DoAb(tested) => d.(pending := d.pending - tested)
  }

  ghost function RunMany(knobs: Registry, d: Disk, cs: seq<Command>): Disk
    requires RegistryOk(knobs)
    decreases |cs|
  {
    if |cs| == 0 then d else RunMany(knobs, RunOne(knobs, d, cs[0]), cs[1..])
  }

  lemma RevertOk(knobs: Registry, d: Disk, names: set<Name>)
    requires DiskOk(knobs, d)
    ensures DiskOk(knobs, Revert(knobs, d, names))
  {
    RevertedConsistent(knobs, d, names);
  }

  lemma RunOneOk(knobs: Registry, d: Disk, c: Command)
    requires DiskOk(knobs, d) && d.dropins == Rendered(knobs, d.persisted.Keys)
    ensures var e := RunOne(knobs, d, c); DiskOk(knobs, e) && e.dropins == Rendered(knobs, e.persisted.Keys)
  {
    match c {
      case DoKeep(n) => if n in knobs { KeepOk(knobs, d, n); }
      case DoRevert(names) => RevertOk(knobs, d, names);
      case DoAb(_) =>
    }
  }

  /** After every sequence of apply, keep, revert and A/B the drop-ins are the rendering of
      the kept set and nothing else, and every snapshot on disk can still be restored. */
  lemma {:induction false} RunsKeepDropins(knobs: Registry, d: Disk, cs: seq<Command>)
    requires DiskOk(knobs, d) && d.dropins == Rendered(knobs, d.persisted.Keys)
    ensures var e := RunMany(knobs, d, cs);
            && DiskOk(knobs, e) && Renders(knobs, e.persisted.Keys, e.dropins)
            && e.dropins == Rendered(knobs, e.persisted.Keys)
    decreases |cs|
  {
    if |cs| > 0 {
      RunOneOk(knobs, d, cs[0]);
      RunsKeepDropins(knobs, RunOne(knobs, d, cs[0]), cs[1..]);
    }
  }
}
