/** Where tokens end and which of them are keys in any text, well-formed or not (pkg/scrub/scanner.go). */
module ScrubTokens {
  import opened Common
  import opened ScrubScanner

  /** Bytes that do not end a string: escaped bytes of any kind, and others that are not a quote, a line end or NUL. */
  predicate Continues(c: seq<byte>) {
    if c == [] then true
    else if c[0] == BACKSLASH then |c| >= 2 && Continues(c[2..])
    else c[0] !in {QUOTE, LF, CR, NUL} && Continues(c[1..])
  }

  /** A string goes on over such bytes.  A quote or a NUL byte that ends it belongs to it, a line end does not,
      and the end of the text ends it even behind a backslash. */
  lemma {:induction false} StringEndIs(s: seq<byte>, p: nat, q: nat)
    requires p <= q <= |s| && Continues(s[p..q])
    ensures q == |s| ==> StringEnd(s, p) == q
    ensures q < |s| && (s[q] == QUOTE || s[q] == NUL) ==> StringEnd(s, p) == q + 1
    ensures q < |s| && (s[q] == LF || s[q] == CR) ==> StringEnd(s, p) == q
    ensures q + 1 == |s| && s[q] == BACKSLASH ==> StringEnd(s, p) == |s|
    decreases q - p
  {
    if p < q {
      var c := s[p..q];
      assert c[0] == s[p];
      if s[p] == BACKSLASH {
        assert c[2..] == s[p + 2..q];
        StringEndIs(s, p + 2, q);
      } else {
        assert c[1..] == s[p + 1..q];
        StringEndIs(s, p + 1, q);
      }
    }
  }

  /** A literal goes on up to the first delimiter, which is left, or the first NUL byte, which is taken. */
  lemma {:induction false} LiteralEndIs(s: seq<byte>, p: nat, q: nat)
    requires p <= q <= |s| && forall k :: p <= k < q ==> !IsDelimiter(s[k]) && s[k] != NUL
    ensures q == |s| || IsDelimiter(s[q]) ==> LiteralEnd(s, p) == q
    ensures q < |s| && s[q] == NUL ==> LiteralEnd(s, p) == q + 1
    decreases q - p
  {
    if p < q { LiteralEndIs(s, p + 1, q); }
  }

  /** The key flags of a series of items in one object. */
  function Flags(isKey: bool, rs: seq<Scan1>): seq<bool>
    decreases |rs|
  {
    if rs == [] then []
    else
      var k := KeyFlag(isKey, rs[0].it.tok, rs[0].pre, rs[0].post);
      [k] + Flags(k, rs[1..])
  }

  predicate IsValue(r: Scan1) {
    r.it.tok in {ObjectBegin, ArrayBegin, Literal}
  }

  /** An item in front of a colon is a key and one behind a colon is not; where there are no colons, keys and
      values alternate, beginning with a key. */
  lemma {:induction false} FlagsAre(isKey: bool, rs: seq<Scan1>, i: nat)
    requires i < |rs|
    ensures |Flags(isKey, rs)| == |rs|
    ensures rs[i].post == COLON ==> Flags(isKey, rs)[i]
    ensures rs[i].post != COLON && rs[i].pre == COLON ==> !Flags(isKey, rs)[i]
    ensures (forall r <- rs :: IsValue(r) && r.pre != COLON && r.post != COLON) ==>
              Flags(isKey, rs)[i] == if i % 2 == 0 then !isKey else isKey
    decreases |rs|
  {
    var k := KeyFlag(isKey, rs[0].it.tok, rs[0].pre, rs[0].post);
    assert rs[0] in rs && forall r <- rs[1..] :: r in rs;
    if |rs| > 1 { FlagsAre(k, rs[1..], if i > 0 then i - 1 else 0); }
  }
}
