/** The sorted environment list of internal/lookpath/lookpath.go: "name=value" strings are sorted by name,
    invalid and overridden entries are deleted in place, and values are found by binary search. */
module LookPath {

  // ----- String order -----

  /** Bytewise comparison, as strings.Compare. */
  function Compare(a: string, b: string): (c: int)
    ensures -1 <= c <= 1
  {
    if a == [] && b == [] then 0
    else if a == [] then -1
    else if b == [] then 1
    else if a[0] < b[0] then -1
    else if a[0] > b[0] then 1
    else Compare(a[1..], b[1..])
  }

  lemma {:induction false} CompareEqual(a: string, b: string)
    ensures Compare(a, b) == 0 <==> a == b
  {
    if a != [] && b != [] && a[0] == b[0] {
      CompareEqual(a[1..], b[1..]);
      assert a == [a[0]] + a[1..] && b == [b[0]] + b[1..];
    }
  }

  lemma {:induction false} CompareFlips(a: string, b: string)
    ensures Compare(a, b) == -Compare(b, a)
  {
    if a != [] && b != [] && a[0] == b[0] { CompareFlips(a[1..], b[1..]); }
  }

  lemma {:induction false} CompareTrans(a: string, b: string, c: string)
    requires Compare(a, b) <= 0 && Compare(b, c) <= 0
    ensures Compare(a, c) <= 0
    ensures Compare(a, b) < 0 || Compare(b, c) < 0 ==> Compare(a, c) < 0
  {
    if a != [] && b != [] && c != [] && a[0] == b[0] && b[0] == c[0] { CompareTrans(a[1..], b[1..], c[1..]); }
  }

  // ----- Entries -----

  /** Position of the first '=', or -1. */
  function IndexEq(s: string): (i: int)
    ensures -1 <= i < |s|
    ensures i >= 0 ==> s[i] == '=' && '=' !in s[..i]
    ensures i < 0 ==> '=' !in s
  {
    if s == [] then -1
    else if s[0] == '=' then 0
    else var i := IndexEq(s[1..]); if i < 0 then -1 else i + 1
  }

  /** What entries are sorted by: the name with its '=', or nothing. */
  function Key(s: string): string {
    var i := IndexEq(s);
    if i < 0 then [] else s[..i + 1]
  }

  predicate Valid(s: string) {
    IndexEq(s) > 0
  }

  function Name(s: string): string
    requires Valid(s)
  {
    s[..IndexEq(s)]
  }

  function Value(s: string): string
    requires Valid(s)
  {
    s[IndexEq(s) + 1..]
  }

  lemma KeyOfName(s: string, name: string)
    requires name != [] && '=' !in name
    ensures Key(s) == name + ['='] <==> Valid(s) && Name(s) == name
  {
    var i := IndexEq(s);
    if i >= 0 {
      assert s[..i + 1] == s[..i] + ['='];
      if Key(s) == name + ['='] {
        assert |s[..i]| == |name|;
        assert s[..i] == (name + ['='])[..|name|] == name;
      }
    }
  }

  /** Entries with the given key, in order. */
  function WithKey(l: seq<string>, key: string): seq<string> {
    if l == [] then []
    else WithKey(l[..|l| - 1], key) + if Key(l[|l| - 1]) == key then [l[|l| - 1]] else []
  }

  /** The value of the last entry for the name, "" if there is none. */
  function LastValue(l: seq<string>, name: string): string {
    if l == [] then []
    else
      var s := l[|l| - 1];
      if Valid(s) && Name(s) == name then Value(s) else LastValue(l[..|l| - 1], name)
  }

  // ----- Stable sorting -----

  ghost predicate Sorted(l: seq<string>) {
    forall i, j :: 0 <= i < j < |l| ==> Compare(Key(l[i]), Key(l[j])) <= 0
  }

  ghost predicate StrictlySorted(l: seq<string>) {
    forall i, j :: 0 <= i < j < |l| ==> Compare(Key(l[i]), Key(l[j])) < 0
  }

  /** The same entries, those with equal keys in the same order. */
  ghost predicate StablyPermuted(l: seq<string>, r: seq<string>) {
    |l| == |r| && forall key: string :: WithKey(r, key) == WithKey(l, key)
  }

  lemma {:induction false} WithKeyConcat(a: seq<string>, b: seq<string>, key: string)
    ensures WithKey(a + b, key) == WithKey(a, key) + WithKey(b, key)
    decreases |b|
  {
    if b == [] {
      assert a + b == a;
    } else {
      assert (a + b)[..|a + b| - 1] == a + b[..|b| - 1];
      WithKeyConcat(a, b[..|b| - 1], key);
    }
  }

  lemma {:induction false} WithKeyNone(l: seq<string>, key: string)
    requires forall i :: 0 <= i < |l| ==> Key(l[i]) != key
    ensures WithKey(l, key) == []
    decreases |l|
  {
    if l != [] { WithKeyNone(l[..|l| - 1], key); }
  }

  /** Inserting behind everything not greater keeps the list sorted and the order of equal keys. */
  lemma InsertIsStable(r: seq<string>, j: nat, x: string)
    requires Sorted(r) && j <= |r|
    requires j > 0 ==> Compare(Key(r[j - 1]), Key(x)) <= 0
    requires forall k :: j <= k < |r| ==> Compare(Key(r[k]), Key(x)) > 0
    ensures Sorted(r[..j] + [x] + r[j..])
    ensures StablyPermuted(r + [x], r[..j] + [x] + r[j..])
  {
    hide Compare, Key, WithKey, Sorted;
    InsertIsSorted(r, j, x);
    forall key: string ensures WithKey(r[..j] + [x] + r[j..], key) == WithKey(r + [x], key) {
      InsertKeepsOrder(r, j, x, key);
    }
  }

  lemma {:induction false} InsertKeepsOrder(r: seq<string>, j: nat, x: string, key: string)
    requires j <= |r| && forall k :: j <= k < |r| ==> Compare(Key(r[k]), Key(x)) > 0
    ensures WithKey(r[..j] + [x] + r[j..], key) == WithKey(r + [x], key)
  {
    hide Compare, Key, WithKey;
    WithKeyConcat(r[..j] + [x], r[j..], key);
    WithKeyConcat(r[..j], [x], key);
    WithKeyConcat(r, [x], key);
    WithKeyConcat(r[..j], r[j..], key);
    assert r[..j] + r[j..] == r;
    if key == Key(x) {
      forall k | 0 <= k < |r[j..]| ensures Key(r[j..][k]) != key { CompareEqual(Key(r[j + k]), key); }
      WithKeyNone(r[j..], key);
    } else {
      WithKeyNone([x], key);
    }
  }

  lemma InsertIsSorted(r: seq<string>, j: nat, x: string)
    requires Sorted(r) && j <= |r|
    requires j > 0 ==> Compare(Key(r[j - 1]), Key(x)) <= 0
    requires forall k :: j <= k < |r| ==> Compare(Key(r[k]), Key(x)) > 0
    ensures Sorted(r[..j] + [x] + r[j..])
  {
    hide Compare, Key;
    var t := r[..j] + [x] + r[j..];
    forall i, k | 0 <= i < k < |t| ensures Compare(Key(t[i]), Key(t[k])) <= 0 {
      if k == j {
        if i < j - 1 { CompareTrans(Key(r[i]), Key(r[j - 1]), Key(x)); }
      } else if i == j {
        CompareFlips(Key(x), Key(r[k - 1]));
      } else {
        assert t[i] == r[if i < j then i else i - 1] && t[k] == r[if k < j then k else k - 1];
      }
    }
  }

  lemma StableTrans(a: seq<string>, b: seq<string>, c: seq<string>, x: string)
    requires StablyPermuted(a, b) && StablyPermuted(b + [x], c)
    ensures StablyPermuted(a + [x], c)
  {
    forall key: string ensures WithKey(c, key) == WithKey(a + [x], key) {
      WithKeyConcat(a, [x], key);
      WithKeyConcat(b, [x], key);
    }
  }

  lemma NothingIsSorted()
    ensures Sorted([]) && StrictlySorted([]) && StablyPermuted([], [])
  {
  }

  /** A stable sort by key; insertion stands in for the library's algorithm, whose result is the same. */
  method SortStable(l: seq<string>) returns (r: seq<string>)
    ensures Sorted(r) && StablyPermuted(l, r)
  {
    hide Compare, Key, WithKey, Sorted, StablyPermuted;
    r := [];
    NothingIsSorted();
    for n := 0 to |l|
      invariant |r| == n && Sorted(r) && StablyPermuted(l[..n], r)
    {
      var x, j := l[n], n;
      while j > 0 && Compare(Key(r[j - 1]), Key(x)) > 0
        invariant 0 <= j <= n
        invariant forall k :: j <= k < n ==> Compare(Key(r[k]), Key(x)) > 0
      {
        j := j - 1;
      }
      InsertIsStable(r, j, x);
      StableTrans(l[..n], r, r[..j] + [x] + r[j..], x);
      assert l[..n + 1] == l[..n] + [x];
      r := r[..j] + [x] + r[j..];
    }
    assert l[..|l|] == l;
  }

  /** Sorted and stably permuted leave no choice: whatever algorithm sorts, the result is the same list. */
  lemma {:induction false} StableSortIsUnique(l: seq<string>, r: seq<string>, q: seq<string>)
    requires Sorted(r) && StablyPermuted(l, r) && Sorted(q) && StablyPermuted(l, q)
    ensures r == q
    decreases |l|
  {
    SameFilters(r, q);
  }

  lemma {:induction false} SameFilters(r: seq<string>, q: seq<string>)
    requires Sorted(r) && Sorted(q) && |r| == |q| && forall key: string :: WithKey(r, key) == WithKey(q, key)
    ensures r == q
    decreases |r|
  {
    hide Compare, Key, WithKey;
    if r != [] {
      var n := |r| - 1;
      LastKeysEqual(r, q);
      forall k: string ensures WithKey(r[..n], k) == WithKey(q[..n], k) && r[n] == q[n] {
        WithKeySnoc(r, Key(r[n]));
        WithKeySnoc(q, Key(r[n]));
        SnocEqual(WithKey(r[..n], Key(r[n])), r[n], WithKey(q[..n], Key(r[n])), q[n]);
        WithKeySnoc(r, k);
        WithKeySnoc(q, k);
      }
      assert WithKey(r[..n], "") == WithKey(q[..n], "");
      SameFilters(r[..n], q[..n]);
      assert r == r[..n] + [r[n]] && q == q[..n] + [q[n]];
    }
  }

  lemma {:induction false} WithKeySnoc(l: seq<string>, key: string)
    requires l != []
    ensures WithKey(l, key) == WithKey(l[..|l| - 1], key) + if Key(l[|l| - 1]) == key then [l[|l| - 1]] else []
    ensures Key(l[|l| - 1]) != key ==> WithKey(l, key) == WithKey(l[..|l| - 1], key)
  {
    hide Key;
  }

  lemma SnocEqual(a: seq<string>, x: string, b: seq<string>, y: string)
    requires a + [x] == b + [y]
    ensures a == b && x == y
  {
    assert |a| == |b| && (a + [x])[|a|] == x && (b + [y])[|b|] == y;
    assert a == (a + [x])[..|a|] && b == (b + [y])[..|b|];
  }

  lemma {:induction false} WithKeyFinds(l: seq<string>, i: nat)
    requires i < |l|
    ensures WithKey(l, Key(l[i])) != []
    decreases |l|
  {
    if i < |l| - 1 { WithKeyFinds(l[..|l| - 1], i); }
  }

  lemma {:induction false} WithKeyWitness(l: seq<string>, key: string) returns (i: nat)
    requires WithKey(l, key) != []
    ensures i < |l| && Key(l[i]) == key
    decreases |l|
  {
    if Key(l[|l| - 1]) == key { return |l| - 1; }
    i := WithKeyWitness(l[..|l| - 1], key);
  }

  lemma {:induction false} LastKeysEqual(r: seq<string>, q: seq<string>)
    requires Sorted(r) && Sorted(q) && |r| == |q| > 0 && forall key: string :: WithKey(r, key) == WithKey(q, key)
    ensures Key(r[|r| - 1]) == Key(q[|q| - 1])
  {
    hide Compare, Key, WithKey, Sorted;
    var n := |r| - 1;
    var a, b := Key(r[n]), Key(q[n]);
    WithKeyFinds(r, n);
    WithKeyFinds(q, n);
    assert WithKey(q, a) != [] && WithKey(r, b) != [];
    var i := WithKeyWitness(q, a);
    var j := WithKeyWitness(r, b);
    NotAboveLast(q, i);
    NotAboveLast(r, j);
    CompareEqual(a, b);
    CompareFlips(a, b);
  }

  lemma NotAboveLast(l: seq<string>, i: nat)
    requires Sorted(l) && i < |l|
    ensures Compare(Key(l[i]), Key(l[|l| - 1])) <= 0
  {
    hide Key;
    CompareEqual(Key(l[i]), Key(l[i]));
  }

  /** Stable sorting does not change which entry is the last one for a name. */
  lemma {:induction false} SortKeepsLast(l: seq<string>, r: seq<string>, name: string)
    requires StablyPermuted(l, r)
    ensures LastValue(r, name) == LastValue(l, name)
  {
    if name == [] || '=' in name {
      NoSuchName(l, name);
      NoSuchName(r, name);
    } else {
      LastIsLastWithKey(l, name);
      LastIsLastWithKey(r, name);
      assert WithKey(r, name + ['=']) == WithKey(l, name + ['=']);
    }
  }

  lemma {:induction false} NoSuchName(l: seq<string>, name: string)
    requires name == [] || '=' in name
    ensures LastValue(l, name) == []
    decreases |l|
  {
    if l != [] { NoSuchName(l[..|l| - 1], name); }
  }

  lemma {:induction false} LastIsLastWithKey(l: seq<string>, name: string)
    requires name != [] && '=' !in name
    ensures var w := WithKey(l, name + ['=']);
            if w == [] then LastValue(l, name) == []
            else Valid(w[|w| - 1]) && LastValue(l, name) == Value(w[|w| - 1])
    decreases |l|
  {
    if l != [] {
      KeyOfName(l[|l| - 1], name);
      LastIsLastWithKey(l[..|l| - 1], name);
    }
  }

  // ----- Deduplication -----

  /** Invalid entries dropped, and of neighbours with the same name only the last kept. */
  function Dedup(l: seq<string>): (r: seq<string>)
    ensures forall i :: 0 <= i < |r| ==> Valid(r[i])
  {
    if l == [] then [] else Extend(Dedup(l[..|l| - 1]), l[|l| - 1])
  }

  /** The kept entries after one more has been looked at. */
  function Extend(r: seq<string>, s: string): (t: seq<string>)
    requires forall i :: 0 <= i < |r| ==> Valid(r[i])
    ensures forall i :: 0 <= i < |t| ==> Valid(t[i])
  {
    if !Valid(s) then r
    else if r != [] && Name(r[|r| - 1]) == Name(s) then r[..|r| - 1] + [s]
    else r + [s]
  }

  lemma {:induction false} DedupKeepsLast(l: seq<string>, name: string)
    ensures LastValue(Dedup(l), name) == LastValue(l, name)
    decreases |l|
  {
    if l != [] {
      var before, s := l[..|l| - 1], l[|l| - 1];
      var d := Dedup(before);
      DedupKeepsLast(before, name);
      if Valid(s) {
        assert (d + [s])[..|d|] == d;
        if d != [] && Name(d[|d| - 1]) == Name(s) {
          var e := d[..|d| - 1];
          assert (e + [s])[..|e|] == e;
        }
      }
    }
  }

  lemma {:induction false} DedupOfSorted(l: seq<string>)
    requires Sorted(l)
    ensures StrictlySorted(Dedup(l))
    ensures forall d <- Dedup(l) :: d in l
    decreases |l|
  {
    hide Compare, Key, StrictlySorted, Dedup, Valid;
    if l == [] {
      DedupStep([], "");
      NothingIsSorted();
    } else {
      var before, s := l[..|l| - 1], l[|l| - 1];
      var d := Dedup(before);
      DedupOfSorted(before);
      DedupStep(before, s);
      assert before + [s] == l;
      forall x <- d ensures x in l { assert x in before; }
      if Valid(s) { AppendToDedup(l, d); }
    }
  }

  lemma AppendToDedup(l: seq<string>, d: seq<string>)
    requires l != [] && Sorted(l) && Valid(l[|l| - 1]) && StrictlySorted(d)
    requires forall i :: 0 <= i < |d| ==> d[i] in l[..|l| - 1] && Valid(d[i])
    ensures StrictlySorted(Extend(d, l[|l| - 1]))
  {
    hide Compare, Key, IndexEq;
    if d != [] {
      var s, last := l[|l| - 1], d[|d| - 1];
      var k :| 0 <= k < |l| - 1 && l[k] == last;
      assert Compare(Key(last), Key(s)) <= 0;
      CompareEqual(Key(last), Key(s));
      SameKeySameName(last, s);
      forall i | 0 <= i < |d| - 1 ensures Compare(Key(d[i]), Key(s)) < 0 {
        CompareTrans(Key(d[i]), Key(last), Key(s));
      }
      StrictSnoc(d[..|d| - 1], s);
      if Name(last) != Name(s) { StrictSnoc(d, s); }
    } else {
      StrictSnoc(d, l[|l| - 1]);
    }
  }

  lemma StrictSnoc(d: seq<string>, s: string)
    requires StrictlySorted(d) && forall i :: 0 <= i < |d| ==> Compare(Key(d[i]), Key(s)) < 0
    ensures StrictlySorted(d + [s])
  {
    hide Compare, Key;
  }

  lemma SameKeySameName(a: string, b: string)
    requires Valid(a) && Valid(b)
    ensures Key(a) == Key(b) <==> Name(a) == Name(b)
  {
    hide IndexEq;
    assert Key(a) == Name(a) + ['='] && Key(b) == Name(b) + ['='];
    if Key(a) == Key(b) {
      assert Name(a) == Key(a)[..|Key(a)| - 1] == Name(b);
    }
  }

  // ----- Building the list -----

  function UpperChar(c: char): char {
    if 'a' <= c <= 'z' then (c as int - 32) as char else c
  }

  function Upper(s: string): (r: string)
    ensures |r| == |s|
  {
    if s == [] then [] else [UpperChar(s[0])] + Upper(s[1..])
  }

  function UpperName(s: string): string {
    var i := IndexEq(s);
    if i > 0 then Upper(s[..i]) + s[i..] else s
  }

  function Normalised(upper: bool, pairs: seq<string>): (r: seq<string>)
    ensures |r| == |pairs|
    ensures forall i :: 0 <= i < |pairs| ==> r[i] == if upper then UpperName(pairs[i]) else pairs[i]
  {
    seq(|pairs|, i requires 0 <= i < |pairs| => if upper then UpperName(pairs[i]) else pairs[i])
  }

  /** A sorted list of valid entries, each the last one for its name. */
  method ListEnviron(upper: bool, pairs: seq<string>) returns (list: seq<string>)
    ensures StrictlySorted(list) && forall i :: 0 <= i < |list| ==> Valid(list[i])
    ensures forall name: string :: LastValue(list, name) == LastValue(Normalised(upper, pairs), name)
  {
    list := pairs;
    if upper {
      for i := 0 to |pairs|
        invariant |list| == |pairs|
        invariant forall k :: 0 <= k < i ==> list[k] == UpperName(pairs[k])
        invariant forall k :: i <= k < |pairs| ==> list[k] == pairs[k]
      {
        var s := list[i];
        var sep := IndexEq(s);
        if sep > 0 { list := list[i := Upper(s[..sep]) + s[sep..]]; }
      }
    }
    assert list == Normalised(upper, pairs);
    ghost var normal := list;
    list := SortStable(list);
    ghost var sorted := list;
    list := DeleteOverridden(list);
    DedupOfSorted(sorted);
    forall name: string ensures LastValue(list, name) == LastValue(normal, name) {
      DedupKeepsLast(sorted, name);
      SortKeepsLast(normal, sorted, name);
    }
  }

  /** The in-place loop: element i is deleted if invalid, element i - 1 if the one at i overrides it. */
  method DeleteOverridden(sorted: seq<string>) returns (list: seq<string>)
    ensures list == Dedup(sorted)
  {
    hide Dedup, IndexEq, Extend, Valid;
    list := sorted;
    var last: string, i: nat := "", 0;
    ghost var kept, k := [], 0;
    AtStart(sorted);
    while i < |list|
      invariant k <= |sorted| && i == |kept| && list == kept + sorted[k..] && kept == Dedup(sorted[..k])
      invariant last == if kept == [] then "" else Name(kept[|kept| - 1])
      decreases |sorted| - k
    {
      var s := list[i];
      OneEntry(sorted, k, kept, last);
      k := k + 1;
      var sep := IndexEq(s);
      if sep <= 0 {
        list := list[..i] + list[i + 1..];
        continue;
      }
      var name := s[..sep];
      if last == name {
        list := list[..i - 1] + list[i..];
        kept := kept[..i - 1] + [s];
        continue;
      }
      kept := kept + [s];
      last := name;
      i := i + 1;
    }
    AtEnd(sorted, k, kept);
  }

  lemma AtStart(sorted: seq<string>)
    ensures [] + sorted[0..] == sorted && Dedup(sorted[..0]) == []
  {
  }

  lemma AtEnd(sorted: seq<string>, k: nat, kept: seq<string>)
    requires k <= |sorted| && |kept + sorted[k..]| <= |kept|
    ensures kept + sorted[k..] == kept && sorted[..k] == sorted
  {
  }

  /** The three ways entry k of the sorted list goes, with what deleting around it leaves. */
  lemma {:induction false} OneEntry(sorted: seq<string>, k: nat, kept: seq<string>, last: string)
    requires k <= |sorted| && kept == Dedup(sorted[..k]) && |kept + sorted[k..]| > |kept|
    requires last == if kept == [] then "" else Name(kept[|kept| - 1])
    ensures var list, i := kept + sorted[k..], |kept|;
            var s := list[i];
            var sep := IndexEq(s);
            && k < |sorted|
            && (sep <= 0 ==> list[..i] + list[i + 1..] == kept + sorted[k + 1..] && Dedup(sorted[..k + 1]) == kept)
            && (sep > 0 ==> Name(s) == s[..sep])
            && (sep > 0 && last == s[..sep] ==>
                  && kept != [] && Dedup(sorted[..k + 1]) == kept[..i - 1] + [s]
                  && list[..i - 1] + list[i..] == (kept[..i - 1] + [s]) + sorted[k + 1..])
            && (sep > 0 && last != s[..sep] ==>
                  Dedup(sorted[..k + 1]) == kept + [s] && list == (kept + [s]) + sorted[k + 1..])
  {
    hide Dedup;
    var s := sorted[k];
    DedupStep(sorted[..k], s);
    assert sorted[..k + 1] == sorted[..k] + [s];
    Splits(kept, sorted[k..]);
    assert sorted[k..][1..] == sorted[k + 1..];
  }

  /** What deleting around the border between two parts of a list leaves. */
  lemma Splits(kept: seq<string>, rest: seq<string>)
    requires rest != []
    ensures var list, i := kept + rest, |kept|;
            && list[..i] + list[i + 1..] == kept + rest[1..]
            && (i > 0 ==> list[..i - 1] + list[i..] == (kept[..i - 1] + [rest[0]]) + rest[1..])
            && kept + rest == (kept + [rest[0]]) + rest[1..]
  {
  }

  lemma {:induction false} DedupStep(l: seq<string>, s: string)
    ensures Dedup([]) == []
    ensures Dedup(l + [s]) == Extend(Dedup(l), s)
  {
    hide Extend, IndexEq;
    assert (l + [s])[..|l + [s]| - 1] == l;
  }

  // ----- Searching -----

  /** The comparator of Get. */
  function CompareEntry(l: string, name: string): int {
    if |l| < |name| + 1 then Compare(l, name)
    else
      var c, eq := Compare(l[..|name|], name), l[|name|];
      if c == 0 then (if eq < '=' then -1 else if eq > '=' then 1 else 0) else c
  }

  /** The sort key that entries for the name have. */
  function KeyFor(name: string): string {
    if '=' in name then Key(name) else name + ['=']
  }

  /** It orders entries as their sort keys do, although it never looks for the entry's own '='. */
  lemma {:induction false} ComparatorFollowsKeys(l: string, name: string)
    requires IndexEq(l) >= 0
    ensures Key(l) != KeyFor(name) || '=' !in name ==> CompareEntry(l, name) == Compare(Key(l), KeyFor(name))
    decreases |name|
  {
    hide IndexEq, Compare, CompareEntry, Key;
    IndexEqTail(l);
    if name == [] {
      CompareEntryNothing(l);
      assert KeyFor(name) == ['='];
      if l[0] == '=' { CompareEqual(Key(l), ['=']); }
      CompareHeads(Key(l), ['=']);
    } else {
      KeyForTail(name);
      CompareEntryHeads(l, name);
      CompareHeads(Key(l), KeyFor(name));
      if l[0] == name[0] && l[0] != '=' { ComparatorFollowsKeys(l[1..], name[1..]); }
    }
  }

  lemma {:induction false} CompareHeads(a: string, b: string)
    requires a != [] && b != []
    ensures Compare(a, b) == if a[0] < b[0] then -1 else if a[0] > b[0] then 1 else Compare(a[1..], b[1..])
  {
  }

  lemma CompareEntryNothing(l: string)
    requires l != []
    ensures CompareEntry(l, []) == if l[0] < '=' then -1 else if l[0] > '=' then 1 else 0
  {
    assert l[..0] == [] && Compare([], []) == 0;
  }

  lemma CompareEntryHeads(l: string, name: string)
    requires l != [] && name != []
    ensures CompareEntry(l, name)
            == if l[0] < name[0] then -1 else if l[0] > name[0] then 1 else CompareEntry(l[1..], name[1..])
  {
    if |l| > |name| {
      assert l[..|name|][0] == l[0] && l[..|name|][1..] == l[1..][..|name[1..]|];
    }
  }

  lemma {:induction false} IndexEqTail(l: string)
    requires l != []
    ensures l[0] == '=' <==> IndexEq(l) == 0
    ensures l[0] != '=' && IndexEq(l) >= 0 ==> IndexEq(l[1..]) == IndexEq(l) - 1 && Key(l)[1..] == Key(l[1..])
    ensures IndexEq(l) >= 0 ==> Key(l) != [] && Key(l)[0] == l[0]
    ensures l[0] == '=' ==> Key(l) == ['=']
  {
    var i := IndexEq(l);
    if i > 0 { assert l[..i + 1][1..] == l[1..][..i]; }
  }

  lemma KeyForTail(name: string)
    requires name != []
    ensures KeyFor(name) != [] && KeyFor(name)[0] == name[0]
    ensures name[0] != '=' ==> KeyFor(name)[1..] == KeyFor(name[1..]) && ('=' in name <==> '=' in name[1..])
    ensures name[0] == '=' ==> KeyFor(name) == ['=']
  {
    hide IndexEq, Key;
    IndexEqTail(name);
    assert name == [name[0]] + name[1..];
    if '=' !in name { assert (name + ['='])[1..] == name[1..] + ['=']; }
  }

  /** Entries that the comparator calls equal to a name: those that continue it with '=', and the name itself. */
  predicate Continues(e: string, name: string) {
    |e| > |name| && e[..|name|] == name && e[|name|] == '='
  }

  lemma ComparatorMatches(e: string, name: string)
    ensures CompareEntry(e, name) == 0 <==> e == name || Continues(e, name)
  {
    CompareEqual(e, name);
    if |e| > |name| { CompareEqual(e[..|name|], name); }
  }

  lemma {:induction false} IndexEqAt(a: string, b: string)
    requires '=' !in a
    ensures IndexEq(a + ['='] + b) == |a|
  {
    if a == [] {
      assert (a + ['='] + b)[0] == '=';
    } else {
      assert (a + ['='] + b)[1..] == a[1..] + ['='] + b;
      IndexEqAt(a[1..], b);
    }
  }

  /** For a name without '=' behind its first character, those are exactly the entries with that name. */
  lemma {:induction false} ContinuesIsNamed(e: string, name: string)
    requires Valid(e) && IndexEq(name) <= 0
    ensures e != name && (Continues(e, name) <==> Name(e) == name)
  {
    if '=' in name {
      assert name[0] == '=' && e[0] != '=';
      assert |e| > |name| ==> e[..|name|][0] == e[0];
    } else if Continues(e, name) {
      var rest := e[|name| + 1..];
      assert e == name + ['='] + rest;
      IndexEqAt(name, rest);
    }
  }

  /** The comparator finds an entry by its name for exactly those names that have no '=' behind their first
      character; it takes the entry "A=B=c" for a match of "A=B". */
  lemma {:induction false} ComparatorFindsNameIff(name: string)
    ensures (forall e | Valid(e) :: CompareEntry(e, name) == 0 <==> Name(e) == name) <==> IndexEq(name) <= 0
  {
    if IndexEq(name) > 0 {
      ComparatorMatches(name, name);
      assert Valid(name) && CompareEntry(name, name) == 0 && Name(name) != name;
    } else {
      forall e | Valid(e) ensures CompareEntry(e, name) == 0 <==> Name(e) == name {
        ComparatorMatches(e, name);
        ContinuesIsNamed(e, name);
      }
    }
  }

  /** Along a strictly sorted list the comparator only ever rises, and passes zero at most once. */
  lemma ComparatorIsMonotone(l: seq<string>, k: nat, m: nat, name: string)
    requires StrictlySorted(l) && k < m < |l| && Valid(l[k]) && Valid(l[m])
    ensures CompareEntry(l[m], name) <= 0 ==> CompareEntry(l[k], name) < 0
    ensures CompareEntry(l[k], name) >= 0 ==> CompareEntry(l[m], name) > 0
  {
    hide Compare, Key, CompareEntry, KeyFor;
    var a, b, key := Key(l[k]), Key(l[m]), KeyFor(name);
    assert Compare(a, b) < 0;
    ComparatorFollowsKeys(l[k], name);
    ComparatorFollowsKeys(l[m], name);
    CompareEqual(a, key);
    CompareEqual(b, key);
    CompareEqual(a, b);
    CompareFlips(a, b);
    CompareFlips(a, key);
    CompareFlips(b, key);
    if Compare(b, key) <= 0 { CompareTrans(a, b, key); }
    if Compare(a, key) >= 0 { CompareTrans(key, a, b); }
  }

  /** Binary search: what follows the entry's '=' if some entry continues the name, else "".  `ok` is false
      where the source slices past the end, which happens exactly if the name is itself an entry. */
  method Get(l: seq<string>, name: string) returns (r: string, ok: bool)
    requires StrictlySorted(l) && forall i :: 0 <= i < |l| ==> Valid(l[i])
    ensures ok <==> name !in l
    ensures ok ==> forall e <- l | Continues(e, name) :: r == e[|name| + 1..]
    ensures ok && (forall e <- l :: !Continues(e, name)) ==> r == ""
  {
    hide Compare, CompareEntry, StrictlySorted, Valid;
    var i, j := 0, |l|;
    while i < j
      invariant 0 <= i <= j <= |l|
      invariant forall k :: 0 <= k < i ==> CompareEntry(l[k], name) < 0
      invariant forall k :: j <= k < |l| ==> CompareEntry(l[k], name) >= 0
    {
      var h := (i + j) / 2;
      var c := CompareEntry(l[h], name);
      if c < 0 {
        forall k | 0 <= k < h ensures CompareEntry(l[k], name) < 0 { ComparatorIsMonotone(l, k, h, name); }
        i := h + 1;
      } else {
        forall k | h < k < |l| ensures CompareEntry(l[k], name) >= 0 { ComparatorIsMonotone(l, h, k, name); }
        j := h;
      }
    }
    forall k | 0 <= k < |l|
      ensures CompareEntry(l[k], name) == 0 <==> l[k] == name || Continues(l[k], name)
      ensures k != i ==> CompareEntry(l[k], name) != 0
    {
      ComparatorMatches(l[k], name);
      if i < k { ComparatorIsMonotone(l, i, k, name); }
    }
    if i < |l| && CompareEntry(l[i], name) == 0 {
      ok := |l[i]| > |name|;
      r := if ok then l[i][|name| + 1..] else "";
    } else {
      r, ok := "", true;
    }
  }

  lemma {:induction false} LastValueByName(l: seq<string>, name: string, r: string)
    requires (forall i :: 0 <= i < |l| ==> Valid(l[i])) && IndexEq(name) <= 0
    requires forall e <- l | Continues(e, name) :: r == e[|name| + 1..]
    requires (forall e <- l :: !Continues(e, name)) ==> r == ""
    ensures r == LastValue(l, name)
    decreases |l|
  {
    if l != [] {
      var s := l[|l| - 1];
      ContinuesIsNamed(s, name);
      assert s in l;
      if !Continues(s, name) {
        var before := l[..|l| - 1];
        forall e <- before ensures e in l {}
        forall e <- l ensures Continues(e, name) ==> e in before { assert e == s || e in before; }
        LastValueByName(before, name, r);
      }
    }
  }

  /** Building the list and looking a name up in it yields the value of the last assignment in the given
      environment, names being compared in upper case if asked for, or "" if there is none. */
  method LookupEnv(upper: bool, pairs: seq<string>, name: string) returns (r: string, ok: bool)
    ensures IndexEq(name) <= 0 ==> ok && r == LastValue(Normalised(upper, pairs), name)
  {
    var list := ListEnviron(upper, pairs);
    r, ok := Get(list, name);
    if IndexEq(name) <= 0 {
      assert !Valid(name) && ok;
      LastValueByName(list, name, r);
    }
  }
}
