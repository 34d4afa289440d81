/**
  Which release tags a mirror still lacks (hyphaed/phases/source.py:69-127): compared per
  series over the newest three series held, newest first, at most ten per refresh.
*/
module TagRefresh {
  import opened Prelude
  import opened Decimal
  import opened Text

  const MAX_TAGS_PER_FETCH: nat := 10
  const RECENT_SERIES: nat := 3

  datatype Key = Key(major: nat, minor: nat, patch: nat)

  predicate Less(a: Key, b: Key) {
    a.major < b.major || (a.major == b.major && (a.minor < b.minor || (a.minor == b.minor && a.patch < b.patch)))
  }

  /** The series of a release, major.minor, as its first release. */
  function SeriesOf(k: Key): Key {
    Key(k.major, k.minor, 0)
  }

  predicate Numeral(s: string) {
    s != "" && AllDigits(s)
  }

  /** v?X.Y or v?X.Y.Z, blanks around allowed; X.Y is X.Y.0. */
  function TagKey(tag: string): Option<Key> {
    var t := Strip(tag);
    var ps := Split(if |t| > 0 && t[0] == 'v' then t[1..] else t, '.');
    if |ps| == 2 && Numeral(ps[0]) && Numeral(ps[1]) then Some(Key(Value(ps[0]), Value(ps[1]), 0))
    else if |ps| == 3 && Numeral(ps[0]) && Numeral(ps[1]) && Numeral(ps[2]) then
      Some(Key(Value(ps[0]), Value(ps[1]), Value(ps[2])))
    else None
  }

  lemma TagKeyReadsBack(k: Key)
    ensures TagKey("v" + Join([Show(k.major), Show(k.minor), Show(k.patch)], '.')) == Some(k)
    ensures TagKey("v" + Join([Show(k.major), Show(k.minor)], '.')) == Some(SeriesOf(k))
  {
    ValueOfShow(k.major);
    ValueOfShow(k.minor);
    ValueOfShow(k.patch);
    hide TagKey, Show, Value, Join, AllDigits;
    var long, short := [Show(k.major), Show(k.minor), Show(k.patch)], [Show(k.major), Show(k.minor)];
    TagKeyOfParts(long);
    TagKeyOfParts(short);
  }

  lemma TagKeyOfParts(parts: seq<string>)
    requires 2 <= |parts| <= 3 && forall p | p in parts :: Numeral(p)
    ensures Numeral(parts[0]) && Numeral(parts[1]) && Numeral(parts[|parts| - 1])
    ensures TagKey("v" + Join(parts, '.')) ==
              Some(Key(Value(parts[0]), Value(parts[1]), if |parts| == 3 then Value(parts[2]) else 0))
  {
    TagParts(parts);
    hide Split, Strip, Join, Value;
    assert parts[0] in parts && parts[1] in parts && parts[|parts| - 1] in parts;
  }

  lemma TagParts(parts: seq<string>)
    requires |parts| > 1 && forall p | p in parts :: Numeral(p)
    ensures var tag := "v" + Join(parts, '.'); Strip(tag) == tag && Split(tag[1..], '.') == parts
  {
    var body := Join(parts, '.');
    SplitOfJoin(parts, '.');
    JoinEndsInDigit(parts);
    hide Join, Split, Strip;
    StripTrimmed("v" + body);
    assert ("v" + body)[1..] == body;
  }

  lemma {:induction false} JoinEndsInDigit(parts: seq<string>)
    requires |parts| > 0 && forall p | p in parts :: Numeral(p)
    ensures var s := Join(parts, '.'); |s| > 0 && !IsSpace(s[|s| - 1])
  {
    var p: string := parts[|parts| - 1];
    assert p in parts && IsDigit(p[|p| - 1]);
    if |parts| > 1 { JoinEndsInDigit(parts[1..]); }
  }

  /** `parts` are two or three numerals, standing for `k`. */
  predicate Numerals(parts: seq<string>, k: Key) {
    && 2 <= |parts| <= 3 && (forall p | p in parts :: Numeral(p))
    && k == Key(ValueOf(parts[0]), ValueOf(parts[1]), if |parts| == 3 then ValueOf(parts[2]) else 0)
  }

  function ValueOf(s: string): nat {
    if AllDigits(s) then Value(s) else 0
  }

  /** Which tags are read, and as what: two or three numerals with dots between, a `v` before them or
      not, blanks around; no other tag has a key. */
  lemma TagKeyIff(tag: string, k: Key)
    ensures TagKey(tag) == Some(k) <==>
      exists parts | Numerals(parts, k) :: Strip(tag) == Join(parts, '.') || Strip(tag) == "v" + Join(parts, '.')
  {
    hide Strip, Split, Join, Value;
    var t := Strip(tag);
    var body := if |t| > 0 && t[0] == 'v' then t[1..] else t;
    SplitParts(body, '.');
    if TagKey(tag) == Some(k) {
      assert Numerals(Split(body, '.'), k);
      assert t == body || t == "v" + body;
    }
    if parts :| Numerals(parts, k) && (t == Join(parts, '.') || t == "v" + Join(parts, '.')) {
      forall p | p in parts ensures '.' !in p { assert Numeral(p); }
      SplitOfJoin(parts, '.');
      JoinStartsWithDigit(parts);
      assert t != Join(parts, '.') ==> t[1..] == Join(parts, '.');
      assert parts[0] in parts && parts[1] in parts && parts[|parts| - 1] in parts;
    }
  }

  lemma JoinStartsWithDigit(parts: seq<string>)
    requires |parts| > 0 && forall p | p in parts :: Numeral(p)
    ensures var s := Join(parts, '.'); |s| > 0 && IsDigit(s[0])
  {
    assert parts[0] in parts;
  }

  lemma {:induction false} JoinHasNo(parts: seq<string>, c: char)
    requires |parts| > 0 && c != '.' && forall p | p in parts :: c !in p
    ensures c !in Join(parts, '.')
  {
    assert parts[0] in parts;
    if |parts| > 1 { JoinHasNo(parts[1..], c); }
  }

  /** So a release candidate, or any other tag with a dash, has no key. */
  lemma DashHasNoKey(tag: string)
    requires '-' in tag
    ensures TagKey(tag).None?
  {
    hide TagKey, Strip, Join;
    if TagKey(tag).Some? {
      TagKeyIff(tag, TagKey(tag).value);
      var parts :| Numerals(parts, TagKey(tag).value) && (Strip(tag) == Join(parts, '.') || Strip(tag) == "v" + Join(parts, '.'));
      forall p | p in parts ensures '-' !in p { assert Numeral(p); }
      JoinHasNo(parts, '-');
      var before, after := StripIs(tag);
      assert false;
    }
  }

  // ----- sorted(…, reverse=True), by a key

  function Insert<T>(x: T, ys: seq<T>, key: T -> Key): seq<T> {
    if |ys| == 0 || !Less(key(x), key(ys[0])) then [x] + ys
    else [ys[0]] + Insert(x, ys[1..], key)
  }

  function Sorted<T>(xs: seq<T>, key: T -> Key): seq<T> {
    if |xs| == 0 then [] else Insert(xs[0], Sorted(xs[1..], key), key)
  }

  predicate Descending<T>(xs: seq<T>, key: T -> Key) {
    forall i, j | 0 <= i < j < |xs| :: !Less(key(xs[i]), key(xs[j]))
  }

  function WithKey<T>(xs: seq<T>, key: T -> Key, k: Key): seq<T> {
    if |xs| == 0 then [] else (if key(xs[0]) == k then [xs[0]] else []) + WithKey(xs[1..], key, k)
  }

  lemma {:induction false} InsertKeeps<T>(x: T, ys: seq<T>, key: T -> Key)
    ensures multiset(Insert(x, ys, key)) == multiset([x]) + multiset(ys)
  {
    if |ys| == 0 || !Less(key(x), key(ys[0])) {
    } else {
      InsertKeeps(x, ys[1..], key);
      assert ys == [ys[0]] + ys[1..];
    }
  }

  predicate NoneAbove<T>(k: Key, xs: seq<T>, key: T -> Key) {
    forall i | 0 <= i < |xs| :: !Less(k, key(xs[i]))
  }

  lemma {:induction false} InsertStaysBelow<T>(x: T, ys: seq<T>, key: T -> Key, k: Key)
    requires NoneAbove(k, ys, key) && !Less(k, key(x))
    ensures NoneAbove(k, Insert(x, ys, key), key)
  {
    if |ys| > 0 && Less(key(x), key(ys[0])) {
      InsertStaysBelow(x, ys[1..], key, k);
    }
  }

  lemma {:induction false} InsertDescends<T>(x: T, ys: seq<T>, key: T -> Key)
    requires Descending(ys, key)
    ensures Descending(Insert(x, ys, key), key)
  {
    if |ys| == 0 || !Less(key(x), key(ys[0])) {
    } else {
      InsertDescends(x, ys[1..], key);
      assert NoneAbove(key(ys[0]), ys[1..], key);
      InsertStaysBelow(x, ys[1..], key, key(ys[0]));
    }
  }

  lemma {:induction false} InsertIsStable<T>(x: T, ys: seq<T>, key: T -> Key, k: Key)
    ensures WithKey(Insert(x, ys, key), key, k) == (if key(x) == k then [x] else []) + WithKey(ys, key, k)
  {
    var r := Insert(x, ys, key);
    if |ys| == 0 || !Less(key(x), key(ys[0])) {
      assert r[1..] == ys;
    } else {
      InsertIsStable(x, ys[1..], key, k);
      assert r[1..] == Insert(x, ys[1..], key);
    }
  }

  /** Newest first, nothing lost, and ties left in the order they came. */
  lemma {:induction false} SortedSorts<T>(xs: seq<T>, key: T -> Key, k: Key)
    ensures Descending(Sorted(xs, key), key)
    ensures multiset(Sorted(xs, key)) == multiset(xs)
    ensures WithKey(Sorted(xs, key), key, k) == WithKey(xs, key, k)
  {
    if |xs| > 0 {
      SortedSorts(xs[1..], key, k);
      InsertKeeps(xs[0], Sorted(xs[1..], key), key);
      InsertDescends(xs[0], Sorted(xs[1..], key), key);
      InsertIsStable(xs[0], Sorted(xs[1..], key), key, k);
      assert xs == [xs[0]] + xs[1..];
    }
  }

  // ----- the specification

  predicate Stable(tags: seq<string>) {
    forall t | t in tags :: TagKey(t).Some?
  }

  function Keys(tags: seq<string>): (ks: seq<Key>)
    requires Stable(tags)
    ensures |ks| == |tags| && forall i | 0 <= i < |tags| :: TagKey(tags[i]) == Some(ks[i])
  {
    seq(|tags|, i requires 0 <= i < |tags| => TagKey(tags[i]).value)
  }

  function SeriesHeld(keys: seq<Key>): set<Key> {
    set k | k in keys :: SeriesOf(k)
  }

  function SeriesAbove(held: set<Key>, s: Key): set<Key> {
    set x | x in held && Less(s, x)
  }

  /** One of the newest three series held. */
  predicate Recent(held: set<Key>, s: Key) {
    s in held && |SeriesAbove(held, s)| < RECENT_SERIES
  }

  predicate NewInSeries(keys: seq<Key>, k: Key) {
    forall x | x in keys && SeriesOf(x) == SeriesOf(k) :: Less(x, k)
  }

  predicate NewOverall(keys: seq<Key>, k: Key) {
    forall x | x in keys :: Less(x, k)
  }

  predicate Wanted(keys: seq<Key>, k: Key) {
    if Recent(SeriesHeld(keys), SeriesOf(k)) then NewInSeries(keys, k) else NewOverall(keys, k)
  }

  predicate Eligible(keys: seq<Key>, t: string) {
    TagKey(t).Some? && Wanted(keys, TagKey(t).value)
  }

  function AllEligible(remote: seq<string>, keys: seq<Key>): (r: seq<string>)
    ensures forall t :: t in r <==> t in remote && Eligible(keys, t)
  {
    if |remote| == 0 then []
    else AllEligible(remote[..|remote| - 1], keys)
         + if Eligible(keys, remote[|remote| - 1]) then [remote[|remote| - 1]] else []
  }

  function KeyOrOldest(t: string): Key {
    if TagKey(t).Some? then TagKey(t).value else Key(0, 0, 0)
  }

  function Capped(tags: seq<string>): seq<string> {
    if |tags| <= MAX_TAGS_PER_FETCH then tags else tags[..MAX_TAGS_PER_FETCH]
  }

  function Missing(remote: seq<string>, local: seq<string>): seq<string>
    requires Stable(local)
  {
    if |local| == 0 then [] else Capped(Sorted(AllEligible(remote, Keys(local)), KeyOrOldest))
  }

  // ----- the loops

  lemma ElementTwice(s: seq<Key>, i: nat, j: nat)
    requires i < j < |s| && s[i] == s[j]
    ensures multiset(s)[s[i]] >= 2
  {
    assert s == s[..j] + ([s[j]] + s[j + 1..]);
    assert s[i] in s[..j];
    assert multiset(s[..j])[s[i]] >= 1;
  }

  lemma {:induction false} SizeOfPrefix(s: seq<Key>, n: nat)
    requires n <= |s| && forall i, j | 0 <= i < j < |s| :: s[i] != s[j]
    ensures |Elements(s[..n])| == n
  {
    if n > 0 {
      SizeOfPrefix(s, n - 1);
      assert s[..n] == s[..n - 1] + [s[n - 1]];
      assert Elements(s[..n]) == Elements(s[..n - 1]) + {s[n - 1]};
      assert s[n - 1] !in s[..n - 1];
    }
  }

  function Elements(s: seq<Key>): set<Key> {
    set x | x in s
  }

  /** The first three of the sorted series are the ones with fewer than three above them. */
  lemma TopThreeAreRecent(order: seq<Key>, held: set<Key>, s: Key)
    requires (forall x :: x in order <==> x in held) && forall x :: multiset(order)[x] <= 1
    ensures var top := Sorted(order, x => x);
      s in top[..if |top| < RECENT_SERIES then |top| else RECENT_SERIES] <==> Recent(held, s)
    ensures Recent(held, s) ==> s in held
  {
    var top := Sorted(order, x => x);
    SortedSorts(order, x => x, s);
    hide Sorted;
    forall i, j | 0 <= i < j < |top| ensures top[i] != top[j] && Less(top[j], top[i]) {
      if top[i] == top[j] { ElementTwice(top, i, j); }
    }
    forall x ensures x in top <==> x in held {
      assert x in top <==> x in multiset(top);
      assert x in order <==> x in multiset(order);
    }
    forall i | 0 <= i < |top| ensures |SeriesAbove(held, top[i])| == i {
      SizeOfPrefix(top, i);
      AboveIsPrefix(top, held, i);
    }
  }

  lemma AboveIsPrefix(top: seq<Key>, held: set<Key>, i: nat)
    requires i < |top| && forall x :: x in top <==> x in held
    requires forall j, k | 0 <= j < k < |top| :: Less(top[k], top[j])
    ensures SeriesAbove(held, top[i]) == Elements(top[..i])
  {
    forall x ensures x in SeriesAbove(held, top[i]) <==> x in top[..i] {
      if x in SeriesAbove(held, top[i]) {
        var j :| 0 <= j < |top| && top[j] == x;
        assert j < i;
        assert top[..i][j] == x;
      }
    }
  }

  /** The highest release among `tags`, unreadable ones skipped. */
  method NewestStable(tags: seq<string>) returns (best: Option<Key>)
    ensures best.None? <==> forall t | t in tags :: TagKey(t).None?
    ensures best.Some? ==> exists t | t in tags :: TagKey(t) == best
    ensures forall t | t in tags && TagKey(t).Some? :: best.Some? && !Less(best.value, TagKey(t).value)
  {
    best := None;
    for i := 0 to |tags|
      invariant best.None? <==> forall t | t in tags[..i] :: TagKey(t).None?
      invariant best.Some? ==> exists t | t in tags[..i] :: TagKey(t) == best
      invariant forall t | t in tags[..i] && TagKey(t).Some? :: best.Some? && !Less(best.value, TagKey(t).value)
    {
      assert tags[..i + 1] == tags[..i] + [tags[i]];
      var k := TagKey(tags[i]);
      if k.Some? && (best.None? || Less(best.value, k.value)) { best := k; }
    }
    assert tags[..|tags|] == tags;
  }

  /** `newest` holds the newest key of each series met in `keys`. */
  ghost predicate Tallied(keys: seq<Key>, newest: map<Key, Key>) {
    && newest.Keys == SeriesHeld(keys)
    && (forall s | s in newest :: newest[s] in keys && SeriesOf(newest[s]) == s)
    && (forall k | k in keys :: !Less(newest[SeriesOf(k)], k))
  }

  /** The newest release of every series held, and the series in the order first met. */
  method PerSeries(keys: seq<Key>) returns (newest: map<Key, Key>, order: seq<Key>)
    ensures Tallied(keys, newest)
    ensures (forall x :: x in order <==> x in newest) && forall x :: multiset(order)[x] <= 1
  {
    newest, order := map[], [];
    for i := 0 to |keys|
      invariant Tallied(keys[..i], newest)
      invariant (forall x :: x in order <==> x in newest) && forall x :: multiset(order)[x] <= 1
    {
      assert keys[..i + 1] == keys[..i] + [keys[i]];
      var k := keys[i];
      var s := SeriesOf(k);
      if s !in newest {
        assert s !in multiset(order);
        order := order + [s];
      }
      if s !in newest || Less(newest[s], k) {
        newest := newest[s := k];
      }
    }
    assert keys[..|keys|] == keys;
  }

  method MissingTags(remote: seq<string>, local: seq<string>) returns (out: seq<string>)
    requires Stable(local)
    ensures out == Missing(remote, local)
  {
    hide TagKey, Sorted, Recent, SeriesHeld;
    var keys := Keys(local);
    if |keys| == 0 { return []; }
    var newest, order := PerSeries(keys);
    var sorted := Sorted(order, x => x);
    var recent := sorted[..if |sorted| < RECENT_SERIES then |sorted| else RECENT_SERIES];
    var overall := Greatest(keys);
    out := [];
    for i := 0 to |remote|
      invariant out == AllEligible(remote[..i], keys)
    {
      assert remote[..i + 1][..i] == remote[..i];
      var k := TagKey(remote[i]);
      if k.Some? {
        TopThreeAreRecent(order, newest.Keys, SeriesOf(k.value));
        NewestDecides(keys, newest, overall, k.value);
        if SeriesOf(k.value) in recent {
          if Less(newest[SeriesOf(k.value)], k.value) { out := out + [remote[i]]; }
        } else if Less(overall, k.value) {
          out := out + [remote[i]];
        }
      }
    }
    assert remote[..|remote|] == remote;
    out := Capped(Sorted(out, KeyOrOldest));
  }

  /** max(keys) */
  function Greatest(keys: seq<Key>): (g: Key)
    requires |keys| > 0
    ensures g in keys && forall k | k in keys :: !Less(g, k)
  {
    if |keys| == 1 then keys[0]
    else
      var g := Greatest(keys[1..]);
      assert keys == [keys[0]] + keys[1..];
      if Less(keys[0], g) then g else keys[0]
  }

  lemma NewestDecides(keys: seq<Key>, newest: map<Key, Key>, overall: Key, k: Key)
    requires Tallied(keys, newest) && overall in keys && forall x | x in keys :: !Less(overall, x)
    ensures SeriesOf(k) in newest ==> (NewInSeries(keys, k) <==> Less(newest[SeriesOf(k)], k))
    ensures NewOverall(keys, k) <==> Less(overall, k)
  {
    hide Recent;
    if SeriesOf(k) in newest && Less(newest[SeriesOf(k)], k) {
      forall x | x in keys && SeriesOf(x) == SeriesOf(k) ensures Less(x, k) {
        assert !Less(newest[SeriesOf(x)], x);
      }
    }
  }

  // ----- what a refresh returns, and what the next one sees

  lemma CapKeepsNewest(all: seq<string>, sorted: seq<string>)
    requires multiset(sorted) == multiset(all) && Descending(sorted, KeyOrOldest)
    ensures var r := Capped(sorted);
      && |r| <= MAX_TAGS_PER_FETCH && Descending(r, KeyOrOldest)
      && (forall t | t in r :: t in all)
      && (forall t | t in all ::
            t in r || (|r| == MAX_TAGS_PER_FETCH < |all| && forall n | n in r :: !Less(KeyOrOldest(n), KeyOrOldest(t))))
  {
    SameElements(sorted, all);
    hide KeyOrOldest;
    var r := Capped(sorted);
    assert forall j | 0 <= j < |r| :: r[j] == sorted[j];
    forall t | t in all && t !in r
      ensures |r| == MAX_TAGS_PER_FETCH < |all| && forall n | n in r :: !Less(KeyOrOldest(n), KeyOrOldest(t)) {
      var j :| 0 <= j < |sorted| && sorted[j] == t;
      assert j >= |r|;
    }
  }

  lemma WantedIsNewInSeries(keys: seq<Key>, k: Key)
    requires Wanted(keys, k)
    ensures NewInSeries(keys, k)
  {
    hide Recent;
  }

  /** The newest of the eligible tags, at most ten, each newer than all the mirror has of its series. */
  lemma MissingAreTheNewest(remote: seq<string>, local: seq<string>)
    requires Stable(local) && |local| > 0
    ensures var r, keys := Missing(remote, local), Keys(local);
      && |r| <= MAX_TAGS_PER_FETCH && Descending(r, KeyOrOldest)
      && (forall t | t in r :: t in remote && Eligible(keys, t) && NewInSeries(keys, TagKey(t).value))
      && (forall t | t in remote && Eligible(keys, t) ::
            t in r || (|r| == MAX_TAGS_PER_FETCH < |AllEligible(remote, keys)|
                       && forall n | n in r :: !Less(KeyOrOldest(n), KeyOrOldest(t))))
  {
    var keys := Keys(local);
    var all := AllEligible(remote, keys);
    SortedSorts(all, KeyOrOldest, Key(0, 0, 0));
    CapKeepsNewest(all, Sorted(all, KeyOrOldest));
    hide TagKey, Sorted, Capped, KeyOrOldest, Wanted, NewInSeries;
    forall t | t in Missing(remote, local) ensures NewInSeries(keys, TagKey(t).value) {
      assert t in all;
      WantedIsNewInSeries(keys, TagKey(t).value);
    }
  }

  lemma SameElements(a: seq<string>, b: seq<string>)
    requires multiset(a) == multiset(b)
    ensures |a| == |b| && forall t :: t in a <==> t in b
  {
    assert |a| == |multiset(a)| && |b| == |multiset(b)|;
    forall t ensures t in a <==> t in b {
      assert t in a <==> t in multiset(a);
      assert t in b <==> t in multiset(b);
    }
  }

  /** What the mirror holds once the missing tags are fetched. */
  function Refreshed(remote: seq<string>, local: seq<string>): (r: seq<string>)
    requires Stable(local)
    ensures Stable(r) && (|r| == 0 <==> |local| == 0)
  {
    if |local| > 0 then MissingAreTheNewest(remote, local); local + Missing(remote, local) else local
  }

  predicate Fetched(remote: seq<string>, local: seq<string>, series: Key)
    requires Stable(local)
  {
    exists n | n in Missing(remote, local) :: SeriesOf(KeyOrOldest(n)) == series
  }

  lemma KeysOfRefreshed(remote: seq<string>, local: seq<string>, k: Key)
    requires Stable(local)
    ensures k in Keys(Refreshed(remote, local))
       <==> k in Keys(local) || exists n | n in Missing(remote, local) :: KeyOrOldest(n) == k
  {
    if |local| > 0 { MissingAreTheNewest(remote, local); }
    hide Missing, TagKey;
    var r := Missing(remote, local);
    var before, after := Keys(local), Keys(Refreshed(remote, local));
    assert forall i | 0 <= i < |local| :: after[i] == before[i];
    assert forall i | 0 <= i < |r| && |local| > 0 :: after[|local| + i] == KeyOrOldest(r[i]);
  }

  lemma MoreAbove(held: set<Key>, more: set<Key>, s: Key)
    requires held <= more && s in held && Recent(more, s)
    ensures Recent(held, s)
  {
    SubsetIsSmaller(SeriesAbove(held, s), SeriesAbove(more, s));
  }

  lemma SubsetIsSmaller(a: set<Key>, b: set<Key>)
    requires a <= b
    ensures |a| <= |b| && (a < b ==> |a| < |b|)
  {
    assert b == a + (b - a);
  }

  /** A series the mirror did not hold, once fetched, is above every series it held. */
  lemma NewSeriesIsAbove(keys: seq<Key>, new1: Key, k: Key)
    requires NewOverall(keys, new1) && SeriesOf(k) == SeriesOf(new1) && SeriesOf(k) !in SeriesHeld(keys)
    ensures NewOverall(keys, k)
  {
    forall x | x in keys ensures Less(x, k) { assert SeriesOf(x) in SeriesHeld(keys); }
  }

  ghost predicate Added(keys: seq<Key>, got: seq<Key>, more: seq<Key>) {
    forall x :: x in more <==> x in keys || x in got
  }

  lemma HeldAfter(keys: seq<Key>, got: seq<Key>, more: seq<Key>, s: Key)
    requires Added(keys, got, more)
    ensures SeriesHeld(keys) <= SeriesHeld(more)
    ensures s in SeriesHeld(more) && s !in SeriesHeld(keys) ==> exists g | g in got :: SeriesOf(g) == s
  {
    forall x | x in SeriesHeld(keys) ensures x in SeriesHeld(more) {
      var k :| k in keys && SeriesOf(k) == x;
      assert k in more;
    }
    if s in SeriesHeld(more) && s !in SeriesHeld(keys) {
      var k :| k in more && SeriesOf(k) == s;
      assert k in got;
    }
  }

  /** Wanted again means wanted before: the window only moves up. */
  lemma WantedBefore(keys: seq<Key>, got: seq<Key>, more: seq<Key>, k: Key)
    requires Added(keys, got, more) && Wanted(more, k)
    requires forall g | g in got :: Wanted(keys, g)
    ensures Wanted(keys, k)
  {
    var s := SeriesOf(k);
    HeldAfter(keys, got, more, s);
    if Recent(SeriesHeld(more), s) {
      if s in SeriesHeld(keys) {
        MoreAbove(SeriesHeld(keys), SeriesHeld(more), s);
        hide Recent, SeriesHeld;
      } else {
        var g :| g in got && SeriesOf(g) == s;
        NewSeriesIsAbove(keys, g, k);
        hide Recent, SeriesHeld;
      }
    } else {
      hide Recent, SeriesHeld;
    }
  }

  lemma WantedAfter(keys: seq<Key>, got: seq<Key>, more: seq<Key>, k: Key)
    requires Added(keys, got, more)
    requires forall g | g in got :: Wanted(keys, g)
    requires Wanted(keys, k) ==> k in got || (|got| > 0 && forall g | g in got :: !Less(g, k))
    ensures var s := SeriesOf(k);
      Wanted(more, k) <==>
        Wanted(keys, k) && s in SeriesHeld(keys) && Recent(SeriesHeld(more), s) && forall g | g in got :: SeriesOf(g) != s
  {
    var s := SeriesOf(k);
    HeldAfter(keys, got, more, s);
    if Wanted(more, k) {
      WantedBefore(keys, got, more, k);
      hide Recent, SeriesHeld;
      assert k !in got;
      var g := got[0];
      assert g in got && g in more && !NewOverall(more, k);
    }
    hide SeriesHeld;
    if s in SeriesHeld(keys) && Recent(SeriesHeld(more), s) { MoreAbove(SeriesHeld(keys), SeriesHeld(more), s); }
  }

  /**
    A tag still counts as missing after a refresh exactly when it did before, in a series
    held before, still among the newest three, of which nothing was fetched.
  */
  lemma StillMissing(remote: seq<string>, local: seq<string>, t: string)
    requires Stable(local) && |local| > 0 && t in remote && TagKey(t).Some?
    ensures var s, keys, more := SeriesOf(TagKey(t).value), Keys(local), Keys(Refreshed(remote, local));
      Eligible(more, t) <==>
        Eligible(keys, t) && s in SeriesHeld(keys) && Recent(SeriesHeld(more), s) && !Fetched(remote, local, s)
  {
    var keys, more, k := Keys(local), Keys(Refreshed(remote, local)), TagKey(t).value;
    var got := FetchedKeys(remote, local);
    FetchedOrOlder(remote, local, k, t);
    hide TagKey, Missing, Refreshed, Recent, Wanted, SeriesHeld, FetchedKeys;
    WantedAfter(keys, got, more, k);
  }

  function FetchedKeys(remote: seq<string>, local: seq<string>): (got: seq<Key>)
    requires Stable(local)
    ensures |got| == |Missing(remote, local)|
    ensures forall i | 0 <= i < |got| :: got[i] == KeyOrOldest(Missing(remote, local)[i])
  {
    var r := Missing(remote, local);
    seq(|r|, i requires 0 <= i < |r| => KeyOrOldest(r[i]))
  }

  lemma FetchedOrOlder(remote: seq<string>, local: seq<string>, k: Key, t: string)
    requires Stable(local) && |local| > 0 && t in remote && TagKey(t) == Some(k)
    ensures var keys, got := Keys(local), FetchedKeys(remote, local);
      && Added(keys, got, Keys(Refreshed(remote, local)))
      && (forall g | g in got :: Wanted(keys, g))
      && (Wanted(keys, k) ==> k in got || (|got| > 0 && forall g | g in got :: !Less(g, k)))
      && (forall s :: Fetched(remote, local, s) <==> exists g | g in got :: SeriesOf(g) == s)
  {
    MissingAreTheNewest(remote, local);
    var keys, got, r := Keys(local), FetchedKeys(remote, local), Missing(remote, local);
    var more := Keys(Refreshed(remote, local));
    hide TagKey, Missing, Wanted, FetchedKeys;
    forall x ensures x in more <==> x in keys || x in got {
      KeysOfRefreshed(remote, local, x);
      FetchedKeyIs(r, got, x);
    }
    forall s ensures Fetched(remote, local, s) <==> exists g | g in got :: SeriesOf(g) == s {
      FetchedSeries(r, got, s);
    }
    forall g | g in got ensures Wanted(keys, g) {
      var i :| 0 <= i < |got| && got[i] == g;
      assert r[i] in r;
    }
    if Wanted(keys, k) {
      assert Eligible(keys, t);
      if t in r {
        var i :| 0 <= i < |r| && r[i] == t;
        assert got[i] == k;
      } else {
        forall g | g in got ensures !Less(g, k) {
          var i :| 0 <= i < |got| && got[i] == g;
          assert r[i] in r;
        }
      }
    }
  }

  lemma FetchedSeries(r: seq<string>, got: seq<Key>, s: Key)
    requires |got| == |r| && forall i | 0 <= i < |got| :: got[i] == KeyOrOldest(r[i])
    ensures (exists n | n in r :: SeriesOf(KeyOrOldest(n)) == s) <==> exists g | g in got :: SeriesOf(g) == s
  {
    if n :| n in r && SeriesOf(KeyOrOldest(n)) == s { FetchedKeyIs(r, got, KeyOrOldest(n)); }
    if g :| g in got && SeriesOf(g) == s { FetchedKeyIs(r, got, g); }
  }

  lemma FetchedKeyIs(r: seq<string>, got: seq<Key>, x: Key)
    requires |got| == |r| && forall i | 0 <= i < |got| :: got[i] == KeyOrOldest(r[i])
    ensures x in got <==> exists n | n in r :: KeyOrOldest(n) == x
  {
    hide KeyOrOldest;
    if x in got {
      var i :| 0 <= i < |got| && got[i] == x;
      assert r[i] in r;
    }
    if n :| n in r && KeyOrOldest(n) == x {
      var i :| 0 <= i < |r| && r[i] == n;
      assert got[i] in got;
    }
  }

  /** The fixed point: where the cap is not hit, a second refresh finds nothing, whatever the new window. */
  lemma RefreshIsComplete(remote: seq<string>, local: seq<string>)
    requires Stable(local) && |AllEligible(remote, Keys(local))| <= MAX_TAGS_PER_FETCH
    ensures Missing(remote, Refreshed(remote, local)) == []
  {
    if |local| > 0 {
      var again := Keys(Refreshed(remote, local));
      MissingAreTheNewest(remote, local);
      hide TagKey, Wanted, Missing, Refreshed;
      forall t | t in Missing(remote, local) ensures Fetched(remote, local, SeriesOf(KeyOrOldest(t))) { }
      forall t | t in remote && TagKey(t).Some? ensures !Eligible(again, t) {
        StillMissing(remote, local, t);
      }
      NothingEligible(remote, Refreshed(remote, local));
    }
  }

  lemma NothingEligible(remote: seq<string>, local: seq<string>)
    requires Stable(local) && forall t | t in remote :: !Eligible(Keys(local), t)
    ensures Missing(remote, local) == []
  {
    hide Eligible;
    var all := AllEligible(remote, Keys(local));
    assert forall t :: t !in all;
    assert forall i | 0 <= i < |all| :: all[i] in all;
  }

  // ----- with the cap: a few refreshes always reach a fixed point

  /** The series of which something would still be fetched. */
  function Pending(remote: seq<string>, local: seq<string>): set<Key>
    requires Stable(local)
  {
    if |local| == 0 then {} else set t | t in remote && Eligible(Keys(local), t) :: SeriesOf(KeyOrOldest(t))
  }

  lemma NothingPending(remote: seq<string>, local: seq<string>)
    requires Stable(local)
    ensures Missing(remote, local) == [] <==> Pending(remote, local) == {}
  {
    if |local| > 0 {
      MissingAreTheNewest(remote, local);
      hide Eligible, KeyOrOldest, Missing;
      assert forall t | t in remote && Eligible(Keys(local), t) :: SeriesOf(KeyOrOldest(t)) in Pending(remote, local);
      if Pending(remote, local) == {} {
        NothingEligible(remote, local);
      }
    }
  }

  /** A refresh adds no pending series, and settles every series it fetches from. */
  lemma RefreshSettles(remote: seq<string>, local: seq<string>, s: Key)
    requires Stable(local) && s in Pending(remote, Refreshed(remote, local))
    ensures s in Pending(remote, local) && !Fetched(remote, local, s)
    ensures Recent(SeriesHeld(Keys(Refreshed(remote, local))), s)
  {
    hide TagKey, Missing, Refreshed, Recent, Wanted, SeriesHeld;
    var t :| t in remote && Eligible(Keys(Refreshed(remote, local)), t) && SeriesOf(KeyOrOldest(t)) == s;
    StillMissing(remote, local, t);
  }

  lemma RefreshShrinksPending(remote: seq<string>, local: seq<string>)
    requires Stable(local)
    ensures Pending(remote, Refreshed(remote, local)) <= Pending(remote, local)
    ensures Missing(remote, local) != [] ==> Pending(remote, Refreshed(remote, local)) < Pending(remote, local)
  {
    if |local| > 0 { MissingAreTheNewest(remote, local); }
    hide TagKey, Missing, Refreshed, Wanted, SeriesHeld, Recent;
    forall s | s in Pending(remote, Refreshed(remote, local)) ensures s in Pending(remote, local) && !Fetched(remote, local, s) {
      RefreshSettles(remote, local, s);
    }
    var r := Missing(remote, local);
    if r != [] {
      var first: string := r[0];
      assert first in r && Fetched(remote, local, SeriesOf(KeyOrOldest(first)));
      assert SeriesOf(KeyOrOldest(first)) in Pending(remote, local);
    }
  }

  lemma {:induction false} Lowest(w: set<Key>) returns (m: Key)
    requires w != {}
    ensures m in w && forall x | x in w :: x == m || Less(m, x)
    decreases |w|
  {
    m :| m in w;
    if w != {m} {
      var n := Lowest(w - {m});
      assert forall x | x in w :: x == m || x in w - {m};
      if Less(n, m) { m := n; }
    }
  }

  /** The window holds at most three series. */
  lemma WindowIsSmall(held: set<Key>, w: set<Key>)
    requires forall s | s in w :: Recent(held, s)
    ensures |w| <= RECENT_SERIES
  {
    if w != {} {
      var m := Lowest(w);
      SubsetIsSmaller(w - {m}, SeriesAbove(held, m));
    }
  }

  function RefreshedTimes(remote: seq<string>, local: seq<string>, n: nat): (r: seq<string>)
    requires Stable(local)
    ensures Stable(r)
  {
    if n == 0 then local else Refreshed(remote, RefreshedTimes(remote, local, n - 1))
  }

  lemma {:induction false} RefreshesCountDown(remote: seq<string>, local: seq<string>, n: nat)
    requires Stable(local) && n > 0
    ensures var p := Pending(remote, RefreshedTimes(remote, local, n)); p == {} || |p| + n <= RECENT_SERIES + 1
    decreases n
  {
    hide *;
    var before := RefreshedTimes(remote, local, n - 1);
    OneMoreRefresh(remote, local, n);
    if n == 1 {
      FewPending(remote, before);
    } else {
      RefreshesCountDown(remote, local, n - 1);
      FewerPending(remote, before);
    }
  }

  lemma OneMoreRefresh(remote: seq<string>, local: seq<string>, n: nat)
    requires Stable(local) && n > 0
    ensures RefreshedTimes(remote, local, n) == Refreshed(remote, RefreshedTimes(remote, local, n - 1))
  {
    hide Refreshed, Stable;
  }

  lemma FewerPending(remote: seq<string>, local: seq<string>)
    requires Stable(local)
    ensures var now, next := Pending(remote, local), Pending(remote, Refreshed(remote, local));
      next == {} || |next| < |now|
  {
    RefreshShrinksPending(remote, local);
    NothingPending(remote, local);
    hide *;
    SubsetIsSmaller(Pending(remote, Refreshed(remote, local)), Pending(remote, local));
  }

  lemma FewPending(remote: seq<string>, local: seq<string>)
    requires Stable(local)
    ensures |Pending(remote, Refreshed(remote, local))| <= RECENT_SERIES
  {
    hide Refreshed, Recent, Pending;
    var held := SeriesHeld(Keys(Refreshed(remote, local)));
    forall s | s in Pending(remote, Refreshed(remote, local)) ensures Recent(held, s) {
      RefreshSettles(remote, local, s);
    }
    WindowIsSmall(held, Pending(remote, Refreshed(remote, local)));
  }

  /** However stale the mirror and however often the cap is hit, the fifth refresh finds nothing. */
  lemma FourRefreshesSettle(remote: seq<string>, local: seq<string>)
    requires Stable(local)
    ensures Missing(remote, RefreshedTimes(remote, local, RECENT_SERIES + 1)) == []
  {
    hide Pending, Missing;
    RefreshesCountDown(remote, local, RECENT_SERIES + 1);
    NothingPending(remote, RefreshedTimes(remote, local, RECENT_SERIES + 1));
  }

  // ----- exactly when one refresh is enough

  /** Every eligible tag of a series held before and still recent has a tag of its series
      among those fetched. */
  ghost predicate FetchReachesAll(remote: seq<string>, local: seq<string>)
    requires Stable(local)
  {
    forall t | t in remote && Eligible(Keys(local), t) && SeriesOf(KeyOrOldest(t)) in SeriesHeld(Keys(local))
               && Recent(SeriesHeld(Keys(Refreshed(remote, local))), SeriesOf(KeyOrOldest(t))) ::
      Fetched(remote, local, SeriesOf(KeyOrOldest(t)))
  }

  /** A second refresh finds nothing exactly when the first reached every such series. */
  lemma RefreshSettlesIff(remote: seq<string>, local: seq<string>)
    requires Stable(local) && |local| > 0
    ensures Missing(remote, Refreshed(remote, local)) == [] <==> FetchReachesAll(remote, local)
  {
    NothingPending(remote, Refreshed(remote, local));
    var after := Refreshed(remote, local);
    assert |after| > 0;
    hide Missing, Refreshed, Recent, SeriesHeld, Fetched, Wanted, TagKey;
    forall t | t in remote && TagKey(t).Some? ensures Eligible(Keys(after), t) <==>
      (Eligible(Keys(local), t) && SeriesOf(KeyOrOldest(t)) in SeriesHeld(Keys(local))
       && Recent(SeriesHeld(Keys(after)), SeriesOf(KeyOrOldest(t))) && !Fetched(remote, local, SeriesOf(KeyOrOldest(t))))
    {
      StillMissing(remote, local, t);
    }
    assert Pending(remote, after) == {} <==> forall t | t in remote :: !Eligible(Keys(after), t) by {
      if t :| t in remote && Eligible(Keys(after), t) { assert SeriesOf(KeyOrOldest(t)) in Pending(remote, after); }
    }
  }

  /** So with all eligible tags in one series a single refresh is enough, cap hit or not. */
  lemma OneSeriesSettles(remote: seq<string>, local: seq<string>, s: Key)
    requires Stable(local) && |local| > 0
    requires forall t | t in remote && Eligible(Keys(local), t) :: SeriesOf(KeyOrOldest(t)) == s
    ensures Missing(remote, Refreshed(remote, local)) == []
  {
    MissingAreTheNewest(remote, local);
    hide Eligible, KeyOrOldest, Missing, Refreshed;
    forall t | t in remote && Eligible(Keys(local), t) ensures Fetched(remote, local, s) {
      var r := Missing(remote, local);
      assert |r| > 0;
      var first: string := r[0];
      assert first in r;
    }
    RefreshSettlesIff(remote, local);
  }

  /** A tag the cap left out of a series it fetched from is never missing again. */
  lemma {:induction false} NeverMissingAgain(remote: seq<string>, local: seq<string>, t: string, n: nat)
    requires Stable(local) && |local| > 0 && t in remote && n > 0
    requires Fetched(remote, local, SeriesOf(KeyOrOldest(t)))
    ensures !Eligible(Keys(RefreshedTimes(remote, local, n)), t)
    decreases n
  {
    var before := RefreshedTimes(remote, local, n - 1);
    OneMoreRefresh(remote, local, n);
    hide Refreshed, Recent, Wanted, Fetched, SeriesHeld, TagKey;
    RefreshedTimesHolds(remote, local, n - 1);
    if n > 1 { NeverMissingAgain(remote, local, t, n - 1); } else { assert before == local; }
    if TagKey(t).Some? { StillMissing(remote, before, t); }
  }

  lemma {:induction false} RefreshedTimesHolds(remote: seq<string>, local: seq<string>, n: nat)
    requires Stable(local) && |local| > 0
    ensures |RefreshedTimes(remote, local, n)| > 0
  {
    hide *;
    if n == 0 {
      NoRefreshYet(remote, local);
    } else {
      RefreshedTimesHolds(remote, local, n - 1);
      OneMoreRefresh(remote, local, n);
    }
  }

  lemma NoRefreshYet(remote: seq<string>, local: seq<string>)
    requires Stable(local)
    ensures RefreshedTimes(remote, local, 0) == local
  {
  }

  // ----- a refresh the cap leaves unfinished

  function Tag(k: Key): string {
    "v" + Join([Show(k.major), Show(k.minor), Show(k.patch)], '.')
  }

  /** Ten point releases of 7.2 crowd out one of 7.1. */
  function TenAndOne(): (remote: seq<string>)
    ensures |remote| == 11 && remote[10] == Tag(Key(7, 1, 1))
    ensures forall i | 0 <= i < 10 :: remote[i] == Tag(Key(7, 2, i + 1))
  {
    seq(11, i requires 0 <= i < 11 => if i < 10 then Tag(Key(7, 2, i + 1)) else Tag(Key(7, 1, 1)))
  }

  function AllKeys(tags: seq<string>): (ks: seq<Key>)
    ensures |ks| == |tags| && forall i | 0 <= i < |tags| :: ks[i] == KeyOrOldest(tags[i])
  {
    seq(|tags|, i requires 0 <= i < |tags| => KeyOrOldest(tags[i]))
  }

  lemma {:induction false} ElementsAtMost(s: seq<Key>)
    ensures |Elements(s)| <= |s|
  {
    if |s| == 0 {
      assert Elements(s) == {};
    } else {
      ElementsAtMost(s[1..]);
      assert s == [s[0]] + s[1..];
      assert Elements(s) == {s[0]} + Elements(s[1..]);
    }
  }

  /** Tags with different keys do not fit into fewer places. */
  lemma TooManyToFit(remote: seq<string>, r: seq<string>)
    requires forall i, j | 0 <= i < j < |remote| :: KeyOrOldest(remote[i]) != KeyOrOldest(remote[j])
    requires forall t | t in remote :: t in r
    ensures |r| >= |remote|
  {
    hide KeyOrOldest;
    var a, b := AllKeys(remote), AllKeys(r);
    SizeOfPrefix(a, |a|);
    assert a[..|a|] == a;
    ElementsAtMost(b);
    forall k | k in Elements(a) ensures k in Elements(b) {
      var i :| 0 <= i < |a| && a[i] == k;
      assert remote[i] in remote;
      var j :| 0 <= j < |r| && r[j] == remote[i];
      assert b[j] == k;
    }
    SubsetIsSmaller(Elements(a), Elements(b));
  }

  const TWO := Key(7, 2, 0)
  const ONE := Key(7, 1, 0)

  lemma TenAndOneKeys(remote: seq<string>)
    requires remote == TenAndOne()
    ensures forall i | 0 <= i < 10 :: TagKey(remote[i]) == Some(Key(7, 2, i + 1))
    ensures TagKey(remote[10]) == Some(Key(7, 1, 1))
    ensures TagKey(Tag(TWO)) == Some(TWO) && TagKey(Tag(ONE)) == Some(ONE)
  {
    TagKeyReadsBack(Key(7, 1, 1));
    TagKeyReadsBack(TWO);
    TagKeyReadsBack(ONE);
    forall i | 0 <= i < 10 ensures TagKey(remote[i]) == Some(Key(7, 2, i + 1)) { TagKeyReadsBack(Key(7, 2, i + 1)); }
  }

  lemma TwoSeriesRecent(held: set<Key>)
    requires held == {TWO, ONE}
    ensures Recent(held, TWO) && Recent(held, ONE)
  {
    SubsetIsSmaller(SeriesAbove(held, TWO), held);
    SubsetIsSmaller(SeriesAbove(held, ONE), held);
  }

  lemma TwoSeriesHeld(keys: seq<Key>, k: Key)
    requires keys == [TWO, ONE]
    ensures SeriesHeld(keys) == {TWO, ONE}
    ensures k.major == 7 && 1 <= k.minor <= 2 && k.patch > 0 ==> Wanted(keys, k)
  {
    hide Recent;
    assert SeriesOf(TWO) == TWO && SeriesOf(ONE) == ONE;
    assert keys[0] in keys && keys[1] in keys;
    assert SeriesHeld(keys) == {TWO, ONE};
    TwoSeriesRecent(SeriesHeld(keys));
  }

  lemma AllElevenEligible(remote: seq<string>, keys: seq<Key>, t: string)
    requires remote == TenAndOne() && t in remote && keys == [TWO, ONE]
    ensures SeriesHeld(keys) == {TWO, ONE} && Eligible(keys, t)
    ensures TagKey(t).Some? && KeyOrOldest(t).major == 7 && (KeyOrOldest(t).minor == 2 || t == remote[10])
  {
    TenAndOneKeys(remote);
    hide TagKey, Recent, Wanted, SeriesHeld, TenAndOne, Tag;
    var i :| 0 <= i < 11 && remote[i] == t;
    assert i == 10 || TagKey(t) == Some(Key(7, 2, i + 1));
    TwoSeriesHeld(keys, KeyOrOldest(t));
  }

  lemma OneIsLeftOut(remote: seq<string>, r: seq<string>, keys: seq<Key>)
    requires remote == TenAndOne() && keys == [TWO, ONE] && |r| <= MAX_TAGS_PER_FETCH
    requires forall x | x in remote :: x in r || forall n | n in r :: !Less(KeyOrOldest(n), KeyOrOldest(x))
    ensures remote[10] !in r
  {
    TenAndOneKeys(remote);
    hide TagKey, Tag, TenAndOne, Eligible;
    forall i, j | 0 <= i < j < |remote| ensures KeyOrOldest(remote[i]) != KeyOrOldest(remote[j]) { }
    if forall x | x in remote :: x in r { TooManyToFit(remote, r); }
    var x :| x in remote && x !in r;
    AllElevenEligible(remote, keys, x);
  }

  /** The one tag of 7.1 is left out, and a second refresh still finds it. */
  lemma CapLeavesASeries()
    ensures var remote, local := TenAndOne(), [Tag(TWO), Tag(ONE)];
            Stable(local) && Missing(remote, Refreshed(remote, local)) != []
  {
    var remote, local := TenAndOne(), [Tag(TWO), Tag(ONE)];
    TenAndOneKeys(remote);
    hide TagKey, Tag, TenAndOne, Missing, Refreshed, Wanted, KeyOrOldest;
    var keys := Keys(local);
    assert keys == [TWO, ONE];
    forall x | x in remote ensures Eligible(keys, x) { AllElevenEligible(remote, keys, x); }
    MissingAreTheNewest(remote, local);
    hide Eligible;
    OneIsLeftOut(remote, Missing(remote, local), keys);
    NotReached(remote, local, remote[10]);
  }

  lemma NotReached(remote: seq<string>, local: seq<string>, t: string)
    requires remote == TenAndOne() && Stable(local) && Keys(local) == [TWO, ONE] && t == remote[10]
    requires t !in Missing(remote, local) && forall x | x in Missing(remote, local) :: x in remote
    ensures Missing(remote, Refreshed(remote, local)) != []
  {
    TenAndOneKeys(remote);
    var keys := Keys(local);
    assert t in remote;
    AllElevenEligible(remote, keys, t);
    hide TagKey, Missing, Refreshed, Recent, Wanted, TenAndOne, Tag, SeriesHeld;
    forall x | x in Missing(remote, local) ensures SeriesOf(KeyOrOldest(x)) == TWO { AllElevenEligible(remote, keys, x); }
    StillTwoSeries(remote, local);
    TwoSeriesRecent({TWO, ONE});
    assert SeriesOf(KeyOrOldest(t)) == ONE && !Fetched(remote, local, ONE);
    RefreshSettlesIff(remote, local);
  }

  lemma StillTwoSeries(remote: seq<string>, local: seq<string>)
    requires Stable(local) && Keys(local) == [TWO, ONE]
    requires forall x | x in Missing(remote, local) :: SeriesOf(KeyOrOldest(x)) == TWO
    ensures SeriesHeld(Keys(Refreshed(remote, local))) == {TWO, ONE}
  {
    var more := Keys(Refreshed(remote, local));
    hide Missing, Refreshed, TagKey, KeyOrOldest, Keys;
    var keys := Keys(local);
    assert TWO == keys[0] && ONE == keys[1] && SeriesOf(TWO) == TWO && SeriesOf(ONE) == ONE;
    forall k | k in more ensures SeriesOf(k) == TWO || SeriesOf(k) == ONE {
      KeysOfRefreshed(remote, local, k);
      if k !in keys { var n :| n in Missing(remote, local) && KeyOrOldest(n) == k; }
    }
    KeysOfRefreshed(remote, local, TWO);
    KeysOfRefreshed(remote, local, ONE);
    TheseSeries(more);
  }

  lemma TheseSeries(keys: seq<Key>)
    requires TWO in keys && ONE in keys && forall k | k in keys :: SeriesOf(k) == TWO || SeriesOf(k) == ONE
    ensures SeriesHeld(keys) == {TWO, ONE}
  {
    assert SeriesOf(TWO) == TWO && SeriesOf(ONE) == ONE;
  }
}
