/** Choosing names without collisions (pkg/namealloc/namealloc.go). */
module NameAlloc {
  import opened Decimal

  // ----- Candidates -----

  /** The name asked for, or the name with an underscore if it is reserved. */
  function Base(reserved: string -> bool, input: string): string {
    if reserved(input) then input + "_" else input
  }

  /** The names tried: the base, then the base with 2, 3, ... at its end. */
  function Candidate(base: string, i: nat): string {
    if i < 2 then base else base + Itoa(i)
  }

  lemma CandidateInjective(base: string, i: nat, j: nat)
    requires 1 <= i < j
    ensures Candidate(base, i) != Candidate(base, j)
  {
    hide Itoa;
    ItoaInjective(i, j);
    assert (base + Itoa(j))[|base|..] == Itoa(j);
    if i >= 2 { assert (base + Itoa(i))[|base|..] == Itoa(i); }
  }

  ghost function Tried(base: string, i: nat): set<string> {
    set j: nat | 1 <= j < i :: Candidate(base, j)
  }

  /** The first candidate from i on that is free.  There is one, since the used names run out first. */
  ghost function FirstFree(used: set<string>, base: string, i: nat): (k: nat)
    requires i >= 1
    ensures k >= i && Candidate(base, k) !in used
    ensures forall j :: i <= j < k ==> Candidate(base, j) in used
    decreases used - Tried(base, i)
  {
    if Candidate(base, i) !in used then i
    else
      TriedGrows(base, i);
      FirstFree(used, base, i + 1)
  }

  lemma TriedGrows(base: string, i: nat)
    requires i >= 1
    ensures Tried(base, i + 1) == Tried(base, i) + {Candidate(base, i)} && Candidate(base, i) !in Tried(base, i)
  {
    forall j: nat | 1 <= j < i ensures Candidate(base, j) != Candidate(base, i) { CandidateInjective(base, j, i); }
  }

  ghost function Name(reserved: string -> bool, used: set<string>, input: string): string {
    var base := Base(reserved, input);
    Candidate(base, FirstFree(used, base, 1))
  }

  class Allocator {
    const reserved: string -> bool
    var used: set<string>

    constructor (reserved: string -> bool)
      ensures this.reserved == reserved && used == {}
    {
      this.reserved, used := reserved, {};
    }

    method Get(input: string) returns (name: string)
      modifies this`used
      ensures name == Name(reserved, old(used), input)
      ensures name !in old(used) && used == old(used) + {name}
    {
      hide FirstFree, Itoa;
      var base := input;
      if reserved(base) { base := base + "_"; }
      name := base;
      ghost var k: nat := 1;
      var i: nat := 2;
      ghost var first := FirstFree(used, base, 1);
      while name in used
        invariant k == i - 1 && 1 <= k <= first && name == Candidate(base, k)
        invariant forall j :: 1 <= j < k ==> Candidate(base, j) in used
        decreases first - k
      {
        name := base + Itoa(i);
        i := i + 1;
        k := k + 1;
      }
      assert k == first;
      used := used + {name};
    }
  }

  // ----- Runs -----

  /** The names a series of calls returns, from an allocator that has used `used`. */
  ghost function Names(reserved: string -> bool, used: set<string>, inputs: seq<string>): seq<string>
    decreases |inputs|
  {
    if inputs == [] then []
    else
      var n := Name(reserved, used, inputs[0]);
      [n] + Names(reserved, used + {n}, inputs[1..])
  }

  predicate DistinctAndNew(ns: seq<string>, used: set<string>) {
    && (forall i :: 0 <= i < |ns| ==> ns[i] !in used)
    && (forall i, j :: 0 <= i < j < |ns| ==> ns[i] != ns[j])
  }

  /** No name is returned twice, and none that was used before. */
  lemma {:induction false} NamesAreDistinct(reserved: string -> bool, used: set<string>, inputs: seq<string>)
    ensures DistinctAndNew(Names(reserved, used, inputs), used)
    decreases |inputs|
  {
    hide Name;
    if inputs != [] {
      var n := Name(reserved, used, inputs[0]);
      assert n !in used by { NameIsFree(reserved, used, inputs[0]); }
      NamesAreDistinct(reserved, used + {n}, inputs[1..]);
      var rest := Names(reserved, used + {n}, inputs[1..]);
      forall i | 0 <= i < |rest| ensures rest[i] !in used && rest[i] != n { assert rest[i] !in used + {n}; }
      assert Names(reserved, used, inputs) == [n] + rest;
    }
  }

  lemma NameIsFree(reserved: string -> bool, used: set<string>, input: string)
    ensures Name(reserved, used, input) !in used
  {
  }

  /** Three kinds of words are not reserved: a reserved word followed by an underscore, an unreserved word
      followed by a number from 2 on, and a reserved word followed by an underscore and such a number. */
  ghost predicate SuffixesAreFree(reserved: string -> bool) {
    && (forall w: string :: reserved(w) ==> !reserved(w + "_"))
    && (forall w: string, i: nat :: i >= 2 && !reserved(w) ==> !reserved(w + Itoa(i)))
    && (forall w: string, i: nat :: i >= 2 && reserved(w) ==> !reserved(w + "_" + Itoa(i)))
  }

  /** No candidate for any input is a reserved word. */
  ghost predicate CandidatesAreFree(reserved: string -> bool) {
    forall w: string, i: nat | i >= 1 :: !reserved(Candidate(Base(reserved, w), i))
  }

  lemma {:induction false} CandidatesFreeIff(reserved: string -> bool)
    ensures CandidatesAreFree(reserved) <==> SuffixesAreFree(reserved)
  {
    hide Itoa;
    if CandidatesAreFree(reserved) {
      forall w: string | reserved(w) ensures !reserved(w + "_") { assert !reserved(Candidate(Base(reserved, w), 1)); }
      forall w: string, i: nat | i >= 2 && !reserved(w) ensures !reserved(w + Itoa(i)) {
        assert !reserved(Candidate(Base(reserved, w), i));
      }
      forall w: string, i: nat | i >= 2 && reserved(w) ensures !reserved(w + "_" + Itoa(i)) {
        assert !reserved(Candidate(Base(reserved, w), i));
      }
    }
  }

  /** Asking for the same name over and over goes through its candidates in turn. */
  lemma {:induction false} AskingAgain(reserved: string -> bool, w: string, i: nat, n: nat)
    requires 1 <= i && 0 < n
    ensures var base := Base(reserved, w); var ns := Names(reserved, Tried(base, i), seq(n, _ => w));
            |ns| == n && ns[n - 1] == Candidate(base, i + n - 1)
    decreases n
  {
    hide Itoa, Candidate;
    var base := Base(reserved, w);
    var used := Tried(base, i);
    NextCandidate(reserved, w, i);
    TriedGrows(base, i);
    var inputs := seq(n, _ => w);
    var tail := seq(n - 1, _ => w);
    assert inputs[1..] == tail && inputs[0] == w;
    if n > 1 { AskingAgain(reserved, w, i + 1, n - 1); }
  }

  lemma NextCandidate(reserved: string -> bool, w: string, i: nat)
    requires 1 <= i
    ensures Name(reserved, Tried(Base(reserved, w), i), w) == Candidate(Base(reserved, w), i)
  {
    hide Candidate, Base;
    var base := Base(reserved, w);
    TriedGrows(base, i);
    var k := FirstFree(Tried(base, i), base, 1);
    assert forall j: nat :: 1 <= j < i ==> Candidate(base, j) in Tried(base, i);
  }

  ghost predicate NeverReserved(reserved: string -> bool) {
    forall inputs: seq<string>, i: nat ::
      i < |Names(reserved, {}, inputs)| ==> !reserved(Names(reserved, {}, inputs)[i])
  }

  /** For any test the caller supplies: no run ever returns a reserved word exactly when the test does not
      hold of the words the allocator forms with suffixes. */
  lemma NeverReservedIff(reserved: string -> bool)
    ensures NeverReserved(reserved) <==> SuffixesAreFree(reserved)
  {
    hide Candidate, Base, Names, Name, SuffixesAreFree;
    CandidatesFreeIff(reserved);
    if CandidatesAreFree(reserved) {
      forall inputs: seq<string>, i: nat | i < |Names(reserved, {}, inputs)|
        ensures !reserved(Names(reserved, {}, inputs)[i])
      { NamesAreCandidates(reserved, {}, inputs, i); }
    }
    if NeverReserved(reserved) {
      forall w: string, i: nat | i >= 1 ensures !reserved(Candidate(Base(reserved, w), i)) {
        AskingAgain(reserved, w, 1, i);
        assert Tried(Base(reserved, w), 1) == {};
        var ns := Names(reserved, {}, seq(i, _ => w));
        assert !reserved(ns[i - 1]);
      }
    }
  }

  lemma {:induction false} NamesAreCandidates(reserved: string -> bool, used: set<string>, inputs: seq<string>, i: nat)
    requires CandidatesAreFree(reserved) && i < |Names(reserved, used, inputs)|
    ensures !reserved(Names(reserved, used, inputs)[i])
    decreases |inputs|
  {
    hide Candidate, Base;
    if i > 0 {
      NamesAreCandidates(reserved, used + {Name(reserved, used, inputs[0])}, inputs[1..], i - 1);
    }
  }

  // ----- The default test: Go keywords -----

  const KEYWORDS: set<string> := {
    "break", "case", "chan", "const", "continue", "default", "defer", "else", "fallthrough", "for", "func", "go",
    "goto", "if", "import", "interface", "map", "package", "range", "return", "select", "struct", "switch", "type",
    "var" }

  predicate IsKeyword(w: string) {
    w in KEYWORDS
  }

  predicate IsLetter(c: char) {
    'a' <= c <= 'z'
  }

  lemma KeywordEndsInLetter(w: string)
    ensures IsKeyword(w) ==> w != "" && IsLetter(w[|w| - 1])
  {
  }

  /** With the default test no run ever returns a keyword. */
  lemma NeverAKeyword()
    ensures NeverReserved(IsKeyword)
  {
    hide IsKeyword;
    forall w: string, i: nat | i >= 1 ensures !IsKeyword(Candidate(Base(IsKeyword, w), i)) {
      var base := Base(IsKeyword, w);
      var c := Candidate(base, i);
      KeywordEndsInLetter(c);
      if i >= 2 {
        var s := Itoa(i);
        assert c[|c| - 1] == s[|s| - 1] && s[|s| - 1] in s;
      } else if IsKeyword(w) {
        assert c[|c| - 1] == '_';
      }
    }
    CandidatesFreeIff(IsKeyword);
    NeverReservedIff(IsKeyword);
  }
}
