/** Names and values in the environment list of internal/lookpath/lookpath.go, and what upper mode does to them. */
module LookPathNames {
  import opened LookPath

  // ----- Entries and their order -----

  /** An entry is its name, the first '=', and its value, in one way only. */
  lemma {:induction false} EntryIsNameAndValue(s: string, name: string, value: string)
    requires name != [] && '=' !in name
    ensures Valid(s) && Name(s) == name && Value(s) == value <==> s == name + ['='] + value
  {
    if s == name + ['='] + value { IndexEqAt(name, value); }
    if Valid(s) && Name(s) == name && Value(s) == value {
      var i := IndexEq(s);
      assert s == s[..i] + ['='] + s[i + 1..];
    }
  }

  /** The order of entries is that of their first differing bytes, a prefix coming first. */
  lemma {:induction false} CompareIsLexicographic(a: string, b: string)
    ensures Compare(a, b) < 0
       <==> exists k: nat :: k <= |a| && k < |b| && a[..k] == b[..k] && (k == |a| || a[k] < b[k])
  {
    if a == [] {
      if b != [] { assert a[..0] == b[..0]; }
    } else if b != [] {
      if a[0] == b[0] {
        CompareIsLexicographic(a[1..], b[1..]);
        if k: nat :| k <= |a[1..]| && k < |b[1..]| && a[1..][..k] == b[1..][..k] &&
                     (k == |a[1..]| || a[1..][k] < b[1..][k]) {
          assert a[..k + 1] == [a[0]] + a[1..][..k] && b[..k + 1] == [b[0]] + b[1..][..k];
          assert a[..k + 1] == b[..k + 1];
        }
        if k: nat :| k <= |a| && k < |b| && a[..k] == b[..k] && (k == |a| || a[k] < b[k]) {
          assert k > 0;
          assert a[1..][..k - 1] == a[..k][1..] && b[1..][..k - 1] == b[..k][1..];
        }
      } else {
        assert a[..0] == b[..0];
        forall k: nat | 0 < k <= |a| && k < |b| ensures a[..k] != b[..k] { assert a[..k][0] != b[..k][0]; }
      }
    }
  }

  // ----- Upper mode -----

  /** The same character, or the same ASCII letter in its two cases. */
  predicate SameLetter(a: char, b: char) {
    || a == b
    || ('a' <= a <= 'z' && 'A' <= b <= 'Z' && a as int - b as int == 'a' as int - 'A' as int)
    || ('A' <= a <= 'Z' && 'a' <= b <= 'z' && b as int - a as int == 'a' as int - 'A' as int)
  }

  predicate SameName(a: string, b: string) {
    |a| == |b| && forall i :: 0 <= i < |a| ==> SameLetter(a[i], b[i])
  }

  predicate NoLower(s: string) {
    forall i :: 0 <= i < |s| ==> !('a' <= s[i] <= 'z')
  }

  lemma {:induction false} UpperIs(s: string)
    ensures |Upper(s)| == |s| && NoLower(Upper(s)) && SameName(Upper(s), s)
  {
    if s != [] {
      UpperIs(s[1..]);
      var u := Upper(s);
      forall i | 0 <= i < |s| ensures !('a' <= u[i] <= 'z') && SameLetter(u[i], s[i]) {
        if i > 0 { assert u[i] == Upper(s[1..])[i - 1] && s[i] == s[1..][i - 1]; }
      }
    }
  }

  lemma SameUppers(a: string, b: string)
    requires NoLower(a) && NoLower(b) && SameName(a, b)
    ensures a == b
  {
    forall i | 0 <= i < |a| ensures a[i] == b[i] { assert SameLetter(a[i], b[i]) && !('a' <= a[i] <= 'z'); }
  }

  lemma SameNameTrans(a: string, b: string, c: string)
    requires SameName(a, b) && SameName(b, c)
    ensures SameName(a, c) && SameName(b, a)
  {
    forall i | 0 <= i < |a| ensures SameLetter(a[i], c[i]) && SameLetter(b[i], a[i]) {
      assert SameLetter(a[i], b[i]) && SameLetter(b[i], c[i]);
    }
  }

  /** Upper mode changes letters of names and nothing else: values, and entries that are not valid, stay. */
  lemma {:induction false} UpperNameIs(s: string)
    ensures !Valid(s) ==> UpperName(s) == s
    ensures Valid(s) ==> Valid(UpperName(s)) && Value(UpperName(s)) == Value(s)
    ensures Valid(s) ==> NoLower(Name(UpperName(s))) && SameName(Name(UpperName(s)), Name(s))
  {
    hide Upper, NoLower, SameName;
    if Valid(s) {
      var i := IndexEq(s);
      var u := Upper(s[..i]);
      UpperIs(s[..i]);
      NoEqualsInUpper(s[..i]);
      assert s[i..] == ['='] + s[i + 1..];
      assert UpperName(s) == u + ['='] + s[i + 1..];
      EntryIsNameAndValue(UpperName(s), u, s[i + 1..]);
    }
  }

  lemma NoEqualsInUpper(s: string)
    requires '=' !in s
    ensures '=' !in Upper(s)
  {
    hide Upper;
    UpperIs(s);
    var u := Upper(s);
    forall k | 0 <= k < |u| ensures u[k] != '=' { assert SameLetter(u[k], s[k]) && s[k] in s; }
  }

  /** In upper mode two entries are for the same variable exactly if their names agree up to case. */
  lemma {:induction false} MergedIffSameName(a: string, b: string)
    requires Valid(a) && Valid(b)
    ensures Valid(UpperName(a)) && Valid(UpperName(b))
    ensures Name(UpperName(a)) == Name(UpperName(b)) <==> SameName(Name(a), Name(b))
  {
    hide Valid, UpperName, Name, SameName, NoLower;
    UpperNameIs(a);
    UpperNameIs(b);
    var u, v := Name(UpperName(a)), Name(UpperName(b));
    Flip(u, Name(a));
    Flip(v, Name(b));
    if u == v { SameNameTrans(Name(a), u, Name(b)); }
    if SameName(Name(a), Name(b)) {
      SameNameTrans(u, Name(a), Name(b));
      SameNameTrans(u, Name(b), v);
      SameUppers(u, v);
    }
  }

  lemma Flip(a: string, b: string)
    ensures SameName(a, b) <==> SameName(b, a)
  {
  }

  /** The value of the last entry whose name agrees with the given one up to case. */
  function LastInAnyCase(l: seq<string>, name: string): string {
    if l == [] then []
    else
      var s := l[|l| - 1];
      if Valid(s) && SameName(Name(s), name) then Value(s) else LastInAnyCase(l[..|l| - 1], name)
  }

  /** In upper mode a name without lower-case letters finds the last entry for it in any case, with its value as
      written; a name with a lower-case letter finds nothing. */
  lemma {:induction false} UpperModeFinds(pairs: seq<string>, name: string)
    ensures LastValue(Normalised(true, pairs), name) == if NoLower(name) then LastInAnyCase(pairs, name) else ""
  {
    hide Valid, UpperName, Name, Value, SameName, NoLower;
    var l := Normalised(true, pairs);
    if pairs != [] {
      var n := |pairs| - 1;
      assert l[..n] == Normalised(true, pairs[..n]);
      UpperModeFinds(pairs[..n], name);
      UpperNameIs(pairs[n]);
      if Valid(pairs[n]) {
        var u := Name(UpperName(pairs[n]));
        Flip(u, Name(pairs[n]));
        if SameName(Name(pairs[n]), name) && NoLower(name) {
          SameNameTrans(u, Name(pairs[n]), name);
          SameUppers(u, name);
        }
      }
    }
  }

  /** What the environment says of a name: the value of its last assignment, "" if there is none. */
  method Lookup(upper: bool, pairs: seq<string>, name: string) returns (r: string, ok: bool)
    ensures '=' !in name ==> ok
    ensures '=' !in name && !upper ==> r == LastValue(pairs, name)
    ensures '=' !in name && upper ==> r == if NoLower(name) then LastInAnyCase(pairs, name) else ""
  {
    r, ok := LookupEnv(upper, pairs, name);
    UpperModeFinds(pairs, name);
    assert Normalised(false, pairs) == pairs;
  }
}
