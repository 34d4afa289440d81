/**
  The series file (hyphaed/phases/patch.py:14-43), as the patch phase reads it and as the
  touched-line scanner reads it, and which findings the scanner then lets through
  (patches/staticcheck.py:365-373).
*/
module Series {
  import opened Prelude
  import opened Decimal
  import opened UnifiedDiff
  import opened DiffLines
  import opened Landing

  /** The patches listed, in order: no blank lines, no comments, none missing on disk. */
  function Listed(lines: seq<string>, onDisk: set<string>): (names: seq<string>)
    ensures forall name | name in names :: name in onDisk
  {
    if |lines| == 0 then []
    else
      var e := Entry(lines[|lines| - 1]);
      Listed(lines[..|lines| - 1], onDisk) + if e.Some? && e.value in onDisk then [e.value] else []
  }

  /** `names` are the names on the lines at `idx`: of every line that names a patch on disk, once
      each and in order. */
  ghost predicate Picks(lines: seq<string>, onDisk: set<string>, idx: seq<nat>, names: seq<string>) {
    && |idx| == |names| && (forall j, k | 0 <= j < k < |idx| :: idx[j] < idx[k])
    && (forall k | 0 <= k < |idx| :: idx[k] < |lines| && NamesPatch(lines[idx[k]], names[k]) && names[k] in onDisk)
    && forall i, name | 0 <= i < |lines| && NamesPatch(lines[i], name) && name in onDisk :: i in idx
  }

  lemma {:induction false} ListedPicks(lines: seq<string>, onDisk: set<string>) returns (idx: seq<nat>)
    ensures Picks(lines, onDisk, idx, Listed(lines, onDisk))
  {
    hide Entry, NamesPatch;
    idx := [];
    if |lines| > 0 {
      var n := |lines| - 1;
      idx := ListedPicks(lines[..n], onDisk);
      var e := Entry(lines[n]);
      forall name ensures e == Some(name) <==> NamesPatch(lines[n], name) { EntryIff(lines[n], name); }
      if e.Some? && e.value in onDisk { idx := idx + [n]; }
    }
  }

  /** _read_series */
  method ReadSeries(lines: seq<string>, onDisk: set<string>) returns (names: seq<string>)
    ensures names == Listed(lines, onDisk)
    ensures exists idx :: Picks(lines, onDisk, idx, names)
    ensures forall name :: name in names <==> name in onDisk && exists i | 0 <= i < |lines| :: NamesPatch(lines[i], name)
  {
    names := [];
    for i := 0 to |lines|
      invariant names == Listed(lines[..i], onDisk)
    {
      assert lines[..i + 1][..i] == lines[..i];
      var line := Strip(lines[i]);
      if line != "" && line[0] != '#' && line in onDisk { names := names + [line]; }
    }
    assert lines[..|lines|] == lines;
    ghost var idx := ListedPicks(lines, onDisk);
    PickedNames(lines, onDisk, idx, names);
  }

  lemma PickedNames(lines: seq<string>, onDisk: set<string>, idx: seq<nat>, names: seq<string>)
    requires Picks(lines, onDisk, idx, names)
    ensures forall name :: name in names <==> name in onDisk && exists i | 0 <= i < |lines| :: NamesPatch(lines[i], name)
  {
    forall i, name | 0 <= i < |lines| && NamesPatch(lines[i], name) && name in onDisk ensures name in names {
      var k :| 0 <= k < |idx| && idx[k] == i;
      assert names[k] == name;
    }
  }

  /** _read_full_series: the experimental entries come after all the others. */
  method ReadFullSeries(lines: seq<string>, experimental: Option<seq<string>>, onDisk: set<string>) returns (names: seq<string>)
    ensures names == Listed(lines + if experimental.Some? then experimental.value else [], onDisk)
  {
    names := ReadSeries(lines, onDisk);
    assert lines + [] == lines;
    if experimental.Some? {
      var more := ReadSeries(experimental.value, onDisk);
      ListedAppends(lines, experimental.value, onDisk);
      names := names + more;
    }
  }

  lemma {:induction false} ListedAppends(a: seq<string>, b: seq<string>, onDisk: set<string>)
    ensures Listed(a + b, onDisk) == Listed(a, onDisk) + Listed(b, onDisk)
  {
    hide Entry;
    if |b| == 0 {
      assert a + b == a;
    } else {
      assert (a + b)[..|a + b| - 1] == a + b[..|b| - 1];
      ListedAppends(a, b[..|b| - 1], onDisk);
    }
  }

  function ScanListed(names: seq<string>, patches: map<string, seq<string>>): Touched
    requires forall name | name in names :: name in patches
  {
    if |names| == 0 then map[]
    else ScanPatch(ScanListed(names[..|names| - 1], patches), patches[names[|names| - 1]])
  }

  /** The scanner answers for exactly the patches the patch phase applies, in its order. */
  lemma {:induction false} ScannerFollowsPatchPhase(series: seq<string>, patches: map<string, seq<string>>)
    ensures ScanSeries(series, patches) == ScanListed(Listed(series, patches.Keys), patches)
  {
    hide Entry, ScanPatch;
    if |series| > 0 {
      var init, e := series[..|series| - 1], Entry(series[|series| - 1]);
      ScannerFollowsPatchPhase(init, patches);
      var before := Listed(init, patches.Keys);
      if e.Some? && e.value in patches {
        assert Listed(series, patches.Keys) == before + [e.value];
        assert (before + [e.value])[..|before|] == before;
      } else {
        assert Listed(series, patches.Keys) == before + [] == before;
      }
    }
  }

  // ----- the filter on findings

  datatype Finding = Finding(file: string, line: nat, text: string)

  function Kept(findings: seq<Finding>, touched: Touched): (r: seq<Finding>)
    ensures forall f :: f in r <==> f in findings && f.line in TouchedIn(touched, f.file)
  {
    if |findings| == 0 then []
    else
      var last := findings[|findings| - 1];
      Kept(findings[..|findings| - 1], touched) + if last.line in TouchedIn(touched, last.file) then [last] else []
  }

  /** A finding is reported exactly when it is within three lines of a recorded one. */
  lemma FindingKeptIff(series: seq<string>, patches: map<string, Patch>, findings: seq<Finding>, x: Finding)
    requires AllOk(patches) && x in findings
    ensures x in Kept(findings, ScanSeries(series, Written(patches))) <==>
              Close(x.line, RecordedBy(Changes(series, patches), x.file))
  {
    TouchedIsAroundRecorded(series, patches, x.file);
    AroundMeans(RecordedBy(Changes(series, patches), x.file), x.line);
    hide Around, ScanSeries, RecordedBy, AllOk, Close;
  }

  /** `f` can be relied on in a series that applies to `t`: the diffs that leave it number
      their lines right, and every diff is good for it. */
  ghost predicate Reliable(t: Tree, ds: seq<FileDiff>, f: string) {
    Unmarked(t) && AllApply(t, ds) && SteadyFor(ds, f) && AllGoodFor(t, ds, f)
  }

  /** The touched lines of such a file are those within three of the lines of the final tree
      that the series added to it, whatever it does to other files. */
  lemma TouchesWhereLinesLand(series: seq<string>, patches: map<string, Patch>, t: Tree, f: string)
    requires AllOk(patches) && Reliable(t, Changes(series, patches), f)
    ensures TouchedIn(ScanSeries(series, Written(patches)), f) ==
              Around(Numbers(Contents(Final(t, Changes(series, patches)), Some(f))))
  {
    TouchedIsAroundRecorded(series, patches, f);
    RecordedIsFinal(t, Changes(series, patches), f);
    hide *;
  }

  /** A finding in such a file is reported exactly when it is within three lines of a line of
      the final tree that the series added. */
  lemma FindingIsOursIff(series: seq<string>, patches: map<string, Patch>, t: Tree, findings: seq<Finding>, x: Finding)
    requires AllOk(patches) && x in findings && Reliable(t, Changes(series, patches), x.file)
    ensures x in Kept(findings, ScanSeries(series, Written(patches))) <==>
              Close(x.line, Numbers(Contents(Final(t, Changes(series, patches)), Some(x.file))))
  {
    FindingKeptIff(series, patches, findings, x);
    RecordedIsFinal(t, Changes(series, patches), x.file);
    hide *;
  }
}
