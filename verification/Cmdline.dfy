/**
  Composing the kernel command line (hyphaed/grub.py, compose_cmdline): a proposal built
  from the machine's profile, filtered by what is already configured, last value wins.
*/
module Cmdline {
  import opened Prelude
  import opened Text
  import opened Decimal
  import opened CpuMask

  // ----- tokens and keys

  /** tok.split("=", 1)[0] */
  function Key(tok: string): string {
    tok[..IndexOf(tok, '=')]
  }

  /** What the kernel ends up with for `k`: the last token that sets it. */
  function Effective(tokens: seq<string>, k: string): (t: Option<string>)
    ensures t.Some? ==> t.value in tokens && Key(t.value) == k
    ensures t.None? ==> forall u | u in tokens :: Key(u) != k
  {
    if |tokens| == 0 then None
    else if Key(Last(tokens)) == k then Some(Last(tokens))
    else Effective(Init(tokens), k)
  }

  predicate Sets(tokens: seq<string>, k: string) {
    exists t | t in tokens :: Key(t) == k
  }

  /** Every key once, where it is set last. */
  function LastWins(tokens: seq<string>): seq<string> {
    if |tokens| == 0 then []
    else if Sets(tokens[1..], Key(tokens[0])) then LastWins(tokens[1..])
    else [tokens[0]] + LastWins(tokens[1..])
  }

  function Filter(tokens: seq<string>, keep: string -> bool): (r: seq<string>)
    ensures forall t :: t in r <==> t in tokens && keep(t)
  {
    if |tokens| == 0 then []
    else Filter(Init(tokens), keep) + if keep(Last(tokens)) then [Last(tokens)] else []
  }

  // ----- the proposal

  const COMMON := ["iommu=pt", "transparent_hugepage=madvise", "mitigations=auto", "rt_group_sched=0"]
  const INTEL := ["intel_iommu=on,igfx_off", "intel_pstate=active", "split_lock_detect=warn"]
  const AMD := ["amd_iommu=on", "amd_pstate=active"]
  const NVIDIA_WAYLAND :=
    ["nvidia-drm.modeset=1", "nvidia." + "NVreg_PreserveVideoMemoryAllocations=1", "nvidia." + "NVreg_EnableGpuFirmware=1"]
  const PERF_DESKTOP := ["pcie_aspm.policy=performance"]
  const PERF_LAPTOP := ["pcie_aspm=off"]
  const BUS_PERF := ["pci=pcie_bus_perf"]
  const ACS_OVERRIDE := ["pcie_acs_override=" + "downstream,multifunction"]
  const HARDENING :=
    ["page_alloc.shuffle=1", "kfence.sample_interval=100", "efi=disable_early_pci_dma", "proc_mem.force_override=never"]

  const MITIGATIONS := "mitigations"
  const MITIGATIONS_OFF := "mitigations=off"

  predicate IsPolicy(k: string) {
    k == MITIGATIONS
  }

  datatype Profile = Profile(cpuVendor: string, pThreadMask: string, gpuVendor: string, chassis: string)

  datatype Options = Options(busPerf: bool, acsOverride: bool, hardening: bool)

  /** The CPUs outside the golden range. */
  function Without(cpus: seq<int>, golden: (int, int)): (r: seq<int>)
    ensures forall x :: x in r <==> x in cpus && !(golden.0 <= x <= golden.1)
  {
    if |cpus| == 0 then []
    else Without(Init(cpus), golden) + if golden.0 <= Last(cpus) <= golden.1 then [] else [Last(cpus)]
  }

  /** Never an empty mask. */
  function IrqCpus(cpus: seq<int>, golden: Option<(int, int)>): seq<int> {
    if golden.Some? && golden.value.0 >= 0 && golden.value.1 >= golden.value.0
       && |Without(cpus, golden.value)| > 0 then Without(cpus, golden.value)
    else cpus
  }

  /** None is the ValueError of an unreadable P-thread mask. */
  function IrqPart(mask: string, golden: Option<(int, int)>): Option<seq<string>> {
    if mask == "" then Some([])
    else if Parsed(mask).None? then None
    else
      ParsedNatural(mask);
      Some(["irqaffinity=" + Mask(IrqCpus(Parsed(mask).value, golden))])
  }

  function VendorPart(p: Profile): seq<string> {
    if p.cpuVendor == "intel" then INTEL else if p.cpuVendor == "amd" then AMD else []
  }

  function GpuPart(p: Profile): seq<string> {
    if p.gpuVendor == "nvidia" then NVIDIA_WAYLAND + if p.chassis == "laptop" then PERF_LAPTOP else PERF_DESKTOP else []
  }

  function OptionPart(o: Options): seq<string> {
    (if o.busPerf then BUS_PERF else []) + (if o.acsOverride then ACS_OVERRIDE else []) + (if o.hardening then HARDENING else [])
  }

  function Defaults(p: Profile, irq: seq<string>, o: Options): seq<string> {
    (COMMON + VendorPart(p)) + (irq + (GpuPart(p) + OptionPart(o)))
  }

  /** Everything proposed, in priority order: the preset comes last. */
  function Proposal(p: Profile, irq: seq<string>, o: Options, extra: seq<string>): seq<string> {
    Defaults(p, irq, o) + extra
  }

  /** Already configured elsewhere, and not ours to insist on. */
  predicate Skipped(existing: seq<string>, t: string) {
    Sets(existing, Key(t)) && !IsPolicy(Key(t))
  }

  function Allowed(proposal: seq<string>, existing: seq<string>): seq<string> {
    Filter(Filter(proposal, t => !Skipped(existing, t)), t => t != MITIGATIONS_OFF)
  }

  function Composed(proposal: seq<string>, existing: seq<string>): seq<string> {
    LastWins(Allowed(proposal, existing))
  }

  /** compose_cmdline: build, filter, then keep each key's last position. */
  method ComposeCmdline(p: Profile, extra: seq<string>, existing: seq<string>, o: Options, golden: Option<(int, int)>)
      returns (out: Option<seq<string>>)
    ensures out.None? <==> p.pThreadMask != "" && Parsed(p.pThreadMask).None?
    ensures out.Some? ==> IrqPart(p.pThreadMask, golden).Some? && (p.pThreadMask == "" ==> IrqPart(p.pThreadMask, golden).value == [])
    ensures out.Some? ==> out.value == Composed(Proposal(p, IrqPart(p.pThreadMask, golden).value, o, extra), existing)
  {
    hide Proposal, Composed;
    var irq := IrqPart(p.pThreadMask, golden);
    if irq.None? { return None; }
    var parts := Allowed(Proposal(p, irq.value, o, extra), existing);
    var deduped := KeepLast(parts);
    assert deduped == Composed(Proposal(p, irq.value, o, extra), existing) by { ComposedIs(Proposal(p, irq.value, o, extra), existing); }
    return Some(deduped);
  }

  lemma ComposedIs(proposal: seq<string>, existing: seq<string>)
    ensures Composed(proposal, existing) == LastWins(Allowed(proposal, existing))
  {
  }

  /** Where each key is set last. */
  ghost predicate LastIndices(parts: seq<string>, n: nat, lastIdx: map<string, nat>)
    requires n <= |parts|
  {
    && (forall k | k in lastIdx :: lastIdx[k] < n && Key(parts[lastIdx[k]]) == k)
    && (forall j | 0 <= j < n :: Key(parts[j]) in lastIdx && j <= lastIdx[Key(parts[j])])
  }

  method IndexKeys(parts: seq<string>) returns (lastIdx: map<string, nat>)
    ensures LastIndices(parts, |parts|, lastIdx)
  {
    hide Key;
    lastIdx := map[];
    for i := 0 to |parts|
      invariant LastIndices(parts, i, lastIdx)
    {
      lastIdx := lastIdx[Key(parts[i]) := i];
    }
  }

  /** The tokens at the recorded indices, in order. */
  method KeepLast(parts: seq<string>) returns (out: seq<string>)
    ensures out == LastWins(parts)
  {
    hide Key;
    var lastIdx := IndexKeys(parts);
    out := [];
    assert parts[0..] == parts;
    for i := 0 to |parts|
      invariant out + LastWins(parts[i..]) == LastWins(parts)
    {
      assert parts[i..][0] == parts[i] && parts[i..][1..] == parts[i + 1..];
      LastIsUnset(parts, i, lastIdx);
      if lastIdx[Key(parts[i])] == i { out := out + [parts[i]]; }
    }
  }

  lemma LastIsUnset(parts: seq<string>, i: nat, lastIdx: map<string, nat>)
    requires i < |parts| && LastIndices(parts, |parts|, lastIdx)
    ensures Key(parts[i]) in lastIdx
    ensures lastIdx[Key(parts[i])] == i <==> !Sets(parts[i + 1..], Key(parts[i]))
  {
    hide Key;
    SetsLater(parts, i, Key(parts[i]));
  }

  lemma SetsLater(parts: seq<string>, i: nat, k: string)
    requires i < |parts|
    ensures Sets(parts[i + 1..], k) <==> exists j :: i < j < |parts| && Key(parts[j]) == k
  {
    var later := parts[i + 1..];
    if t :| t in later && Key(t) == k {
      var n :| 0 <= n < |later| && later[n] == t;
      assert parts[i + 1 + n] == t;
    }
    if j :| i < j < |parts| && Key(parts[j]) == k {
      assert later[j - i - 1] == parts[j];
      assert parts[j] in later;
    }
  }

  // ----- last-wins evaluation

  lemma {:induction false} EffectiveConcat(a: seq<string>, b: seq<string>, k: string)
    ensures Effective(a + b, k) == if Effective(b, k).Some? then Effective(b, k) else Effective(a, k)
    decreases |b|
  {
    hide Key;
    if |b| == 0 {
      assert a + b == a;
    } else {
      assert Init(a + b) == a + Init(b) && Last(a + b) == Last(b);
      EffectiveConcat(a, Init(b), k);
    }
  }

  lemma EffectiveOne(t: string, k: string)
    ensures Effective([t], k) == if Key(t) == k then Some(t) else None
  {
    assert Init([t]) == [];
  }

  lemma {:induction false} EffectiveLastWins(tokens: seq<string>, k: string)
    ensures Effective(LastWins(tokens), k) == Effective(tokens, k)
    decreases |tokens|
  {
    hide Key;
    if |tokens| > 0 {
      var t, rest := tokens[0], tokens[1..];
      assert tokens == [t] + rest;
      EffectiveConcat([t], rest, k);
      EffectiveConcat([t], LastWins(rest), k);
      EffectiveOne(t, k);
      EffectiveLastWins(rest, k);
    }
  }

  /** Filtering by key before filtering out mitigations=off hides exactly the skipped keys. */
  lemma {:induction false} EffectiveAllowed(proposal: seq<string>, existing: seq<string>, k: string)
    ensures Effective(Allowed(proposal, existing), k) ==
      if Sets(existing, k) && !IsPolicy(k) then None
      else Effective(Filter(proposal, t => t != MITIGATIONS_OFF), k)
    decreases |proposal|
  {
    hide Key, Sets, IsPolicy, Allowed, Filter;
    if |proposal| == 0 {
      NothingAllowed(existing);
    } else {
      var init, t := Init(proposal), Last(proposal);
      EffectiveAllowed(init, existing, k);
      AllowedMore(init, t, existing);
      assert init + [t] == proposal;
      EffectiveConcat(Allowed(init, existing), [t], k);
      EffectiveConcat(Filter(init, t => t != MITIGATIONS_OFF), [t], k);
      EffectiveOne(t, k);
    }
  }

  lemma NothingAllowed(existing: seq<string>)
    ensures Allowed([], existing) == [] && Filter([], t => t != MITIGATIONS_OFF) == []
  {
  }

  lemma FilterMore(tokens: seq<string>, t: string, keep: string -> bool)
    ensures Filter(tokens + [t], keep) == if keep(t) then Filter(tokens, keep) + [t] else Filter(tokens, keep)
  {
    assert Init(tokens + [t]) == tokens;
  }

  lemma AllowedMore(init: seq<string>, t: string, existing: seq<string>)
    ensures Allowed(init + [t], existing) ==
      if !Skipped(existing, t) && t != MITIGATIONS_OFF then Allowed(init, existing) + [t] else Allowed(init, existing)
    ensures Filter(init + [t], t => t != MITIGATIONS_OFF) ==
      if t != MITIGATIONS_OFF then Filter(init, t => t != MITIGATIONS_OFF) + [t] else Filter(init, t => t != MITIGATIONS_OFF)
  {
    hide Filter, Skipped;
    FilterMore(init, t, t => !Skipped(existing, t));
    FilterMore(init, t, t => t != MITIGATIONS_OFF);
    FilterMore(Filter(init, t => !Skipped(existing, t)), t, t => t != MITIGATIONS_OFF);
  }

  /** What boots: for every key the existing value, unless nobody set it or it is policy,
      and otherwise the last proposed value, mitigations=off never counting. */
  lemma EffectiveOfComposed(proposal: seq<string>, existing: seq<string>, k: string)
    ensures var legal := Effective(Filter(proposal, t => t != MITIGATIONS_OFF), k);
            Effective(existing + Composed(proposal, existing), k) ==
              if (Sets(existing, k) && !IsPolicy(k)) || legal.None? then Effective(existing, k) else legal
  {
    hide Key, Sets, IsPolicy;
    EffectiveConcat(existing, Composed(proposal, existing), k);
    EffectiveLastWins(Allowed(proposal, existing), k);
    EffectiveAllowed(proposal, existing, k);
  }

  /** Mitigations are always set and never off, whatever the profile, the preset and the
      existing command line say. */
  lemma MitigationsStayOn(p: Profile, irq: seq<string>, o: Options, extra: seq<string>, existing: seq<string>)
    ensures var e := Effective(existing + Composed(Proposal(p, irq, o, extra), existing), MITIGATIONS);
            e.Some? && e.value != MITIGATIONS_OFF
  {
    hide Key, Proposal;
    var proposal := Proposal(p, irq, o, extra);
    EffectiveOfComposed(proposal, existing, MITIGATIONS);
    var legal := Filter(proposal, t => t != MITIGATIONS_OFF);
    MitigationsProposed(p, irq, o, extra);
    assert "mitigations=auto" in legal;
  }

  lemma {:induction false} FilterAppends(a: seq<string>, b: seq<string>, keep: string -> bool)
    ensures Filter(a + b, keep) == Filter(a, keep) + Filter(b, keep)
  {
    if |b| == 0 {
      assert a + b == a;
    } else {
      assert Init(a + b) == a + Init(b) && Last(a + b) == Last(b);
      FilterAppends(a, Init(b), keep);
    }
  }

  /** A preset's own value beats every default, for any key nobody else has set. */
  lemma PresetOverrides(p: Profile, irq: seq<string>, o: Options, extra: seq<string>, existing: seq<string>, k: string)
    requires Effective(Filter(extra, t => t != MITIGATIONS_OFF), k).Some?
    requires !Sets(existing, k) || IsPolicy(k)
    ensures Effective(existing + Composed(Proposal(p, irq, o, extra), existing), k)
         == Effective(Filter(extra, t => t != MITIGATIONS_OFF), k)
  {
    hide Defaults;
    var proposal, legal := Proposal(p, irq, o, extra), t => t != MITIGATIONS_OFF;
    var defaults := Defaults(p, irq, o);
    assert proposal == defaults + extra;
    EffectiveOfComposed(proposal, existing, k);
    hide Composed, Sets, IsPolicy, Key;
    FilterAppends(defaults, extra, legal);
    EffectiveConcat(Filter(defaults, legal), Filter(extra, legal), k);
  }

  lemma MitigationsProposed(p: Profile, irq: seq<string>, o: Options, extra: seq<string>)
    ensures "mitigations=auto" in Proposal(p, irq, o, extra) && "mitigations=auto" != MITIGATIONS_OFF
    ensures Key("mitigations=auto") == MITIGATIONS
  {
    assert COMMON[2] in COMMON;
    MitigationsAutoKey();
  }

  lemma MitigationsAutoKey()
    ensures "mitigations=auto" != MITIGATIONS_OFF && Key("mitigations=auto") == MITIGATIONS
  {
    hide IndexOf;
    assert |"mitigations=auto"| == 16 && |MITIGATIONS_OFF| == 15;
    IndexOfIs(MITIGATIONS, '=', "auto");
    assert "mitigations=auto" == MITIGATIONS + (['='] + "auto");
  }

  // ----- what is proposed

  lemma KeyIs(k: string, rest: string)
    requires '=' !in k
    ensures Key(k) == k && Key(k + (['='] + rest)) == k
  {
    IndexOfIs(k, '=', rest);
    var s := k + (['='] + rest);
    assert s[..|k|] == k && k[..|k|] == k;
  }

  /** Which tokens are proposed for which machine and options, the preset's own included. */
  lemma ProposedIff(p: Profile, irq: seq<string>, o: Options, extra: seq<string>, t: string)
    ensures t in Proposal(p, irq, o, extra) <==>
      || t in COMMON
      || (p.cpuVendor == "intel" && t in INTEL)
      || (p.cpuVendor == "amd" && t in AMD)
      || t in irq
      || (p.gpuVendor == "nvidia" && t in NVIDIA_WAYLAND)
      || (p.gpuVendor == "nvidia" && t in if p.chassis == "laptop" then PERF_LAPTOP else PERF_DESKTOP)
      || (o.busPerf && t in BUS_PERF)
      || (o.acsOverride && t in ACS_OVERRIDE)
      || (o.hardening && t in HARDENING)
      || t in extra
  {
    assert "intel" != "amd";
  }

  const IRQ_AFFINITY := "irqaffinity"

  lemma KeyStartsToken(t: string, k: string)
    requires Key(t) == k && k != ""
    ensures |t| > 0 && t[0] == k[0]
  {
  }

  predicate NoneStartsWithI(tokens: seq<string>) {
    forall k | 0 <= k < |tokens| :: |tokens[k]| > 0 && tokens[k][0] != 'i'
  }

  lemma FirstLetters()
    ensures NoneStartsWithI(NVIDIA_WAYLAND) && NoneStartsWithI(PERF_LAPTOP) && NoneStartsWithI(PERF_DESKTOP)
    ensures NoneStartsWithI(BUS_PERF) && NoneStartsWithI(ACS_OVERRIDE) && NoneStartsWithI(HARDENING)
  {
  }

  /** What is proposed after the affinity, the preset aside, has nothing to do with it. */
  lemma AfterIrq(p: Profile, o: Options)
    ensures NoneStartsWithI(GpuPart(p) + OptionPart(o))
  {
    FirstLetters();
    NoneConcat(NVIDIA_WAYLAND, if p.chassis == "laptop" then PERF_LAPTOP else PERF_DESKTOP);
    var bus, acs := if o.busPerf then BUS_PERF else [], if o.acsOverride then ACS_OVERRIDE else [];
    assert NoneStartsWithI([]);
    NoneConcat(bus, acs);
    NoneConcat(bus + acs, if o.hardening then HARDENING else []);
    NoneConcat(GpuPart(p), OptionPart(o));
    hide NoneStartsWithI;
  }

  lemma NoneConcat(a: seq<string>, b: seq<string>)
    ensures NoneStartsWithI(a) && NoneStartsWithI(b) ==> NoneStartsWithI(a + b)
  {
  }

  lemma Reassociate(a: seq<string>, b: seq<string>, c: seq<string>, d: seq<string>)
    ensures (a + (b + c)) + d == a + (b + (c + d))
  {
  }

  /** With a readable mask and nobody else setting it, the affinity that boots is the one of
      `IrqAffinityReadsBack`. */
  lemma IrqAffinityTakesEffect(p: Profile, golden: Option<(int, int)>, o: Options, extra: seq<string>, existing: seq<string>)
    requires p.pThreadMask != "" && Parsed(p.pThreadMask).Some?
    requires !Sets(existing, IRQ_AFFINITY) && !Sets(extra, IRQ_AFFINITY)
    ensures IrqPart(p.pThreadMask, golden).Some?
    ensures var irq := IrqPart(p.pThreadMask, golden).value;
      && |irq| == 1
      && Effective(existing + Composed(Proposal(p, irq, o, extra), existing), IRQ_AFFINITY) == Some(irq[0])
  {
    hide Key, Composed, Effective, Filter, GpuPart, OptionPart, VendorPart;
    IrqToken(p.pThreadMask, golden);
    hide IrqPart;
    var irq := IrqPart(p.pThreadMask, golden).value;
    var before, after := COMMON + VendorPart(p), GpuPart(p) + OptionPart(o);
    Reassociate(before, irq, after, extra);
    EffectiveOfComposed(Proposal(p, irq, o, extra), existing, IRQ_AFFINITY);
    NothingAfterSetsIt(p, o, extra);
    LastProposed(before, irq[0], after + extra);
  }

  lemma IrqToken(mask: string, golden: Option<(int, int)>)
    requires mask != "" && Parsed(mask).Some?
    ensures IrqPart(mask, golden).Some?
    ensures var irq := IrqPart(mask, golden).value; |irq| == 1 && Key(irq[0]) == IRQ_AFFINITY
  {
    hide Key, Parsed, IrqCpus, Mask;
    ParsedNatural(mask);
    var cpus := Mask(IrqCpus(Parsed(mask).value, golden));
    IrqText(cpus);
    KeyIs(IRQ_AFFINITY, cpus);
  }

  lemma IrqText(cpus: string)
    ensures "irqaffinity=" + cpus == IRQ_AFFINITY + (['='] + cpus) && '=' !in IRQ_AFFINITY
  {
  }

  lemma NothingAfterSetsIt(p: Profile, o: Options, extra: seq<string>)
    requires !Sets(extra, IRQ_AFFINITY)
    ensures forall t | t in (GpuPart(p) + OptionPart(o)) + extra :: Key(t) != IRQ_AFFINITY
  {
    AfterIrq(p, o);
    var after := GpuPart(p) + OptionPart(o);
    hide GpuPart, OptionPart;
    forall k | 0 <= k < |after| ensures Key(after[k]) != IRQ_AFFINITY {
      if Key(after[k]) == IRQ_AFFINITY { KeyStartsToken(after[k], IRQ_AFFINITY); }
    }
    hide Key;
  }

  lemma LastProposed(before: seq<string>, tok: string, after: seq<string>)
    requires Key(tok) == IRQ_AFFINITY && forall t | t in after :: Key(t) != IRQ_AFFINITY
    ensures Effective(Filter(before + ([tok] + after), t => t != MITIGATIONS_OFF), IRQ_AFFINITY) == Some(tok)
  {
    var legal := t => t != MITIGATIONS_OFF;
    KeyStartsToken(tok, IRQ_AFFINITY);
    FilterOne(tok, legal);
    hide Key;
    var f := Filter(after, legal);
    NotSet(f, IRQ_AFFINITY);
    EffectiveOne(tok, IRQ_AFFINITY);
    FilterAppends(before, [tok] + after, legal);
    FilterAppends([tok], after, legal);
    hide Effective, Filter;
    EffectiveConcat(Filter(before, legal), [tok] + f, IRQ_AFFINITY);
    EffectiveConcat([tok], f, IRQ_AFFINITY);
  }

  lemma FilterOne(t: string, keep: string -> bool)
    requires keep(t)
    ensures Filter([t], keep) == [t]
  {
    assert Init([t]) == [] && Last([t]) == t;
  }

  lemma NotSet(tokens: seq<string>, k: string)
    requires forall t | t in tokens :: Key(t) != k
    ensures Effective(tokens, k).None?
  {
    hide Key;
  }

  // ----- the composed list

  /** `a` is `b` with some tokens left out. */
  ghost predicate Subsequence(a: seq<string>, b: seq<string>)
    decreases |b|
  {
    if |a| == 0 then true
    else |b| > 0 && ((Last(a) == Last(b) && Subsequence(Init(a), Init(b))) || Subsequence(a, Init(b)))
  }

  lemma {:induction false} SubsequenceTrans(a: seq<string>, b: seq<string>, c: seq<string>)
    requires Subsequence(a, b) && Subsequence(b, c)
    ensures Subsequence(a, c)
    decreases |b| + |c|
  {
    if |a| > 0 {
      if Last(b) == Last(c) && Subsequence(Init(b), Init(c)) {
        if Last(a) == Last(b) && Subsequence(Init(a), Init(b)) {
          SubsequenceTrans(Init(a), Init(b), Init(c));
        } else {
          SubsequenceTrans(a, Init(b), Init(c));
        }
      } else {
        SubsequenceTrans(a, b, Init(c));
      }
    }
  }

  lemma {:induction false} FilterSubsequence(tokens: seq<string>, keep: string -> bool)
    ensures Subsequence(Filter(tokens, keep), tokens)
  {
    if |tokens| > 0 {
      FilterSubsequence(Init(tokens), keep);
      var f, r := Filter(Init(tokens), keep), Filter(tokens, keep);
      if keep(Last(tokens)) {
        assert r == f + [Last(tokens)];
        assert Init(r) == f && Last(r) == Last(tokens);
      } else {
        assert r == f;
      }
    }
  }

  lemma {:induction false} SubsequenceCons(t: string, a: seq<string>, b: seq<string>)
    requires Subsequence(a, b)
    ensures Subsequence(a, [t] + b) && Subsequence([t] + a, [t] + b)
    decreases |b|
  {
    if |b| == 0 {
      assert Init([t] + b) == [] && Init([t] + a) == [];
    } else {
      assert Init([t] + b) == [t] + Init(b) && Last([t] + b) == Last(b);
      if |a| > 0 {
        assert Init([t] + a) == [t] + Init(a) && Last([t] + a) == Last(a);
        if Last(a) == Last(b) && Subsequence(Init(a), Init(b)) {
          SubsequenceCons(t, Init(a), Init(b));
        } else {
          SubsequenceCons(t, a, Init(b));
        }
      } else {
        SubsequenceCons(t, [], Init(b));
      }
    }
  }

  ghost predicate KeysDistinct(tokens: seq<string>) {
    forall i, j | 0 <= i < j < |tokens| :: Key(tokens[i]) != Key(tokens[j])
  }

  lemma {:induction false} LastWinsShape(tokens: seq<string>)
    ensures KeysDistinct(LastWins(tokens)) && Subsequence(LastWins(tokens), tokens)
    ensures forall t | t in LastWins(tokens) :: t in tokens
    decreases |tokens|
  {
    hide Key;
    if |tokens| > 0 {
      var t, rest := tokens[0], tokens[1..];
      LastWinsShape(rest);
      assert tokens == [t] + rest;
      SubsequenceCons(t, LastWins(rest), rest);
      if !Sets(rest, Key(t)) {
        forall j | 0 <= j < |LastWins(rest)|
          ensures Key(LastWins(rest)[j]) != Key(t)
        {
          assert LastWins(rest)[j] in rest;
        }
      }
    }
  }

  /** Composed sets every key at most once and is a subsequence of the proposal. */
  lemma ComposedShape(proposal: seq<string>, existing: seq<string>)
    ensures KeysDistinct(Composed(proposal, existing)) && Subsequence(Composed(proposal, existing), proposal)
  {
    hide Subsequence, KeysDistinct;
    var kept := Filter(proposal, t => !Skipped(existing, t));
    LastWinsShape(Allowed(proposal, existing));
    FilterSubsequence(kept, t => t != MITIGATIONS_OFF);
    FilterSubsequence(proposal, t => !Skipped(existing, t));
    SubsequenceTrans(Allowed(proposal, existing), kept, proposal);
    SubsequenceTrans(Composed(proposal, existing), Allowed(proposal, existing), proposal);
  }

  // ----- IRQ affinity

  lemma StripTakesAway(s: string, c: char)
    ensures c in Strip(s) ==> c in s
  {
    StripLeftTakesAway(s, c);
    StripRightTakesAway(StripLeft(s), c);
  }

  lemma {:induction false} StripLeftTakesAway(s: string, c: char)
    ensures c in StripLeft(s) ==> c in s
  {
    if |s| > 0 && IsSpace(s[0]) { StripLeftTakesAway(s[1..], c); }
  }

  lemma {:induction false} StripRightTakesAway(s: string, c: char)
    ensures c in StripRight(s) ==> c in s
  {
    if |s| > 0 && IsSpace(s[|s| - 1]) { StripRightTakesAway(s[..|s| - 1], c); }
  }

  lemma IntNatural(s: string)
    requires '-' !in s && Int(s).Some?
    ensures Int(s).value >= 0
  {
    StripTakesAway(s, '-');
    var t := Strip(s);
    assert |t| > 0 ==> t[0] in t;
  }

  /** A dash is always the range separator, so no parsed number is negative. */
  lemma TokenNatural(raw: string)
    requires Token(raw).Some?
    ensures Natural(Token(raw).value)
  {
    hide Int;
    var t := Strip(raw);
    if t != "" {
      if '-' in t {
        var i := IndexOf(t, '-');
        IntNatural(t[..i]);
      } else {
        IntNatural(t);
      }
    }
  }

  lemma {:induction false} TokensNatural(parts: seq<string>)
    requires Tokens(parts).Some?
    ensures Natural(Tokens(parts).value)
  {
    hide Token;
    if |parts| > 0 {
      TokensNatural(parts[..|parts| - 1]);
      TokenNatural(parts[|parts| - 1]);
    }
  }

  lemma ParsedNatural(s: string)
    ensures Parsed(s).Some? ==> Natural(Parsed(s).value)
    ensures Parsed(s).Some? ==> forall g :: Natural(IrqCpus(Parsed(s).value, g))
  {
    if Parsed(s).Some? { TokensNatural(Split(s, ',')); }
  }

  /** The affinity mask reads back as the P-threads without the golden range, or as all of
      them if that would leave none. */
  lemma IrqAffinityReadsBack(mask: string, golden: Option<(int, int)>)
    requires mask != "" && Parsed(mask).Some?
    ensures IrqPart(mask, golden).Some?
    ensures var cpus := Parsed(mask).value;
            var fenced := golden.Some? && 0 <= golden.value.0 <= golden.value.1
                          && exists x | x in cpus :: !(golden.value.0 <= x <= golden.value.1);
            var back := Parsed(IrqPart(mask, golden).value[0][|"irqaffinity="|..]);
            && back.Some?
            && forall x :: x in back.value <==> x in cpus && (fenced ==> !(golden.value.0 <= x <= golden.value.1))
  {
    ParsedNatural(mask);
    var cpus := Parsed(mask).value;
    var irq := IrqCpus(cpus, golden);
    ParseOfMask(irq);
    assert IrqPart(mask, golden).value[0][|"irqaffinity="|..] == Mask(irq);
    if golden.Some? {
      var outside := Without(cpus, golden.value);
      if |outside| > 0 { assert outside[0] in outside; }
    }
  }
}
