/** What the formats of pkg/idents/identifiers.go look like, and where identifiers in humps are cut into words. */
module IdentifierForms {
  import opened Decimal
  import opened Identifiers

  // ----- What each format looks like -----

  predicate SameWithout(a: char, b: char) {
    a == b || (IsUpper(a) && IsLower(b) && b as int - a as int == 'a' as int - 'A' as int)
    || (IsLower(a) && IsUpper(b) && a as int - b as int == 'a' as int - 'A' as int)
  }

  /** The same letters and digits, in whatever case. */
  predicate SameWord(p: string, w: string) {
    |p| == |w| && forall i :: 0 <= i < |p| ==> SameWithout(p[i], w[i])
  }

  predicate NoUpper(w: string) {
    forall c <- w :: !IsUpper(c)
  }

  predicate NoLower(w: string) {
    forall c <- w :: !IsLower(c)
  }

  /** The word with an upper-case letter in front, if it starts with a letter, and otherwise unchanged. */
  predicate Capitalised(p: string, w: string) {
    p != "" && SameWord(p, w) && !IsLower(w[0]) && w[1..] == p[1..]
  }

  lemma {:induction false} FlatIsJoin(ws: seq<string>)
    ensures Join(ws, "") == Flat(ws)
  {
    if |ws| > 1 {
      FlatIsJoin(ws[1..]);
      assert "" + Flat(ws[1..]) == Flat(ws[1..]);
    } else if |ws| == 1 {
      assert Flat(ws) == ws[0] + Flat([]);
    }
  }

  lemma TitleIsCapitalised(p: string)
    requires IsWord(p)
    ensures Capitalised(p, Title(p))
  {
    assert Title(p)[1..] == p[1..];
  }

  lemma LowerLooks(p: string)
    ensures SameWord(p, ToLower(p)) && NoUpper(ToLower(p))
    ensures SameWord(p, ToUpper(p)) && NoLower(ToUpper(p))
  {
  }

  /** Pascal case: every word capitalised, nothing between. */
  lemma {:induction false} PascalForm(s: string) returns (ws: seq<string>)
    ensures Converted(s, PascalCase) == Flat(ws) && |ws| == |Parse(s)|
    ensures forall i :: 0 <= i < |ws| ==> Capitalised(Parse(s)[i], ws[i])
  {
    hide Parse, Join, Flat, Title, Capitalised, IsWord;
    var ps := Parse(s);
    PartsAreWords(s);
    ws := StyledAll(ps, PascalCase);
    FlatIsJoin(ws);
    forall i | 0 <= i < |ws| ensures Capitalised(ps[i], ws[i]) { TitleIsCapitalised(ps[i]); }
  }

  /** Camel case is Pascal case except for the first word, which is in lower case. */
  lemma {:induction false} CamelForm(s: string) returns (first: string, rest: string)
    requires Parse(s) != []
    ensures Converted(s, CamelCase) == first + rest && NoUpper(first) && SameWord(Parse(s)[0], first)
    ensures |first| <= |Converted(s, PascalCase)| && Converted(s, PascalCase)[|first|..] == rest
  {
    hide Parse, Join, Title, ToLower;
    var ps := Parse(s);
    PartsAreWords(s);
    var c, p := StyledAll(ps, CamelCase), StyledAll(ps, PascalCase);
    FlatIsJoin(c);
    FlatIsJoin(p);
    assert c[1..] == p[1..];
    first, rest := c[0], Flat(c[1..]);
    LowerLooks(ps[0]);
    assert |p[0]| == |ps[0]| by { TitleIsCapitalised(ps[0]); }
    assert (p[0] + rest)[|p[0]|..] == rest;
  }

  /** The words with separators between them: none in lower case, or none in upper case. */
  lemma {:induction false} SeparatedForm(s: string, f: Format) returns (ws: seq<string>, sep: string)
    requires f.SnakeCase? || f.KebabCase? || f.ScreamingSnakeCase?
    ensures sep == (if f.KebabCase? then "-" else "_")
    ensures Converted(s, f) == Join(ws, sep) && |ws| == |Parse(s)|
    ensures forall i :: 0 <= i < |ws| ==>
              SameWord(Parse(s)[i], ws[i]) && if f.ScreamingSnakeCase? then NoLower(ws[i]) else NoUpper(ws[i])
  {
    hide Parse, Join, ToLower, ToUpper, SameWord, NoLower, NoUpper;
    var ps := Parse(s);
    ws, sep := StyledAll(ps, f), Separator(f);
    forall i | 0 <= i < |ws|
      ensures SameWord(ps[i], ws[i]) && if f.ScreamingSnakeCase? then NoLower(ws[i]) else NoUpper(ws[i])
    {
      LowerLooks(ps[i]);
    }
  }

  // ----- Where humps are cut -----

  /** An acronym, which may be missing, and a capitalised word, given in lower case. */
  datatype Hump = Hump(acronym: string, word: string)

  predicate IsHump(h: Hump) {
    && (forall c <- h.acronym :: IsUpper(c))
    && |h.word| >= 2 && IsLower(h.word[0]) && IsLower(h.word[1]) && forall c <- h.word :: IsLower(c) || IsDigit(c)
  }

  function Capital(w: string): string
    requires w != "" && IsLower(w[0])
  {
    [(w[0] as int - 'a' as int + 'A' as int) as char] + w[1..]
  }

  function Written(hs: seq<Hump>): string
    requires forall h <- hs :: IsHump(h)
  {
    if hs == [] then ""
    else
      assert IsHump(hs[0]);
      hs[0].acronym + (Capital(hs[0].word) + Written(hs[1..]))
  }

  function WordsOf(hs: seq<Hump>): seq<string> {
    if hs == [] then []
    else (if hs[0].acronym == "" then [] else [hs[0].acronym]) + ([hs[0].word] + WordsOf(hs[1..]))
  }

  /** A hump up to and with the first letter of its word, seen as a run of upper-case letters. */
  function Head(h: Hump): string
    requires IsHump(h)
  {
    h.acronym + [Capital(h.word)[0]]
  }

  lemma HeadIsUpper(h: Hump)
    requires IsHump(h)
    ensures IsUpperWord(Head(h)) && IsUpper(Head(h)[0]) && Head(h) + h.word[1..] == h.acronym + Capital(h.word)
    ensures forall c <- Head(h) :: IsUpper(c)
    ensures IsLowerWord(h.word[1..])
  {
    forall c <- Head(h) ensures IsUpper(c) {
      assert c in h.acronym || c == Capital(h.word)[0];
    }
    assert Head(h)[0] in Head(h);
    forall c <- h.word[1..] ensures IsLower(c) || IsDigit(c) { assert c in h.word; }
  }

  lemma {:induction false} RecordedHump(h: Hump)
    requires IsHump(h)
    ensures Recorded(h.acronym + Capital(h.word)) == (if h.acronym == "" then [] else [h.acronym]) + [h.word]
  {
    hide ToLower, Capital, LastUpper, OnlyUpper;
    var run, k := h.acronym + Capital(h.word), |h.acronym|;
    LastUpperOfHump(h);
    assert |Capital(h.word)| == |h.word| by { CapitalLength(h.word); }
    assert run[..k] == h.acronym && run[k..] == Capital(h.word);
    LowerOfCapital(h.word);
    if k == 0 { assert run == run[k..]; }
  }

  lemma CapitalLength(w: string)
    requires w != "" && IsLower(w[0])
    ensures |Capital(w)| == |w|
  {
  }

  lemma {:induction false} LastUpperOfHump(h: Hump)
    requires IsHump(h)
    ensures var run := h.acronym + Capital(h.word); LastUpper(run) == |h.acronym| && !OnlyUpper(run)
  {
    var run, k := h.acronym + Capital(h.word), |h.acronym|;
    HeadIsUpper(h);
    assert IsUpper(run[k]) by { assert run[k] == Head(h)[k] && Head(h)[k] in Head(h); }
    forall i | k < i < |run| ensures !IsUpper(run[i]) {
      assert run[i] == h.word[1..][i - k - 1] && run[i] in h.word[1..];
    }
    assert run[k + 1] in run && !IsUpper(run[k + 1]);
  }

  lemma LowerOfCapital(w: string)
    requires w != "" && IsLower(w[0]) && forall c <- w :: IsLower(c) || IsDigit(c)
    ensures ToLower(Capital(w)) == w
  {
    forall i | 0 <= i < |w| ensures LowerChar(Capital(w)[i]) == w[i] { assert w[i] in w; }
  }

  lemma {:induction false} ScanLower(w: string, rest: string, run: string)
    requires IsLowerWord(w) && IsLower(w[0])
    ensures Scan(w + rest, UPPER, run) == Scan(rest, LOWER, run + w)
  {
    hide Recorded;
    assert (w + rest)[1..] == w[1..] + rest && [w[0]] + w[1..] == w;
    if |w| == 1 {
      assert w[1..] + rest == rest && [w[0]] == w;
    } else {
      forall c <- w[1..] ensures IsLower(c) || IsDigit(c) { assert c in w; }
      ScanLowerWord(w[1..], rest, LOWER, run + [w[0]]);
      assert run + [w[0]] + w[1..] == run + w;
    }
  }

  /** One hump, behind whatever was gathered before it. */
  lemma {:induction false} ScanHump(h: Hump, rest: string, last: nat, run: string)
    requires IsHump(h) && last <= LOWER && (last != LOWER ==> run == "")
    ensures Scan(h.acronym + (Capital(h.word) + rest), last, run)
            == (if last == LOWER then Recorded(run) else []) + Scan(rest, LOWER, h.acronym + Capital(h.word))
  {
    hide Scan, Recorded, Capital;
    HeadIsUpper(h);
    var head, tail := Head(h), h.word[1..];
    assert h.acronym + (Capital(h.word) + rest) == (h.acronym + Capital(h.word)) + rest == head + (tail + rest);
    ScanUpperStart(head, tail + rest, last, run);
    ScanLower(tail, rest, head);
  }

  lemma {:induction false} ScanHumps(hs: seq<Hump>, end: string, run: string)
    requires (forall h <- hs :: IsHump(h)) && forall c <- end :: IsUpper(c)
    ensures Scan(Written(hs) + end, LOWER, run)
            == Recorded(run) + (WordsOf(hs) + if end == "" then [] else [end])
    decreases |hs|
  {
    hide Scan, Recorded;
    if hs == [] {
      assert Written(hs) + end == end;
      ScanAcronymAtEnd(end, run);
    } else {
      var h := hs[0];
      assert h in hs && forall x <- hs[1..] :: x in hs;
      var rest := Written(hs[1..]) + end;
      assert Written(hs) + end == h.acronym + (Capital(h.word) + rest);
      ScanHump(h, rest, LOWER, run);
      ScanHumps(hs[1..], end, h.acronym + Capital(h.word));
      RecordedHump(h);
      Associate(Recorded(run), if h.acronym == "" then [] else [h.acronym], [h.word], WordsOf(hs[1..]),
                if end == "" then [] else [end]);
    }
  }

  lemma Associate(a: seq<string>, b: seq<string>, c: seq<string>, d: seq<string>, e: seq<string>)
    ensures a + ((b + c) + (d + e)) == a + ((b + (c + d)) + e)
  {
  }

  lemma {:induction false} ScanAcronymAtEnd(end: string, run: string)
    requires forall c <- end :: IsUpper(c)
    ensures Scan(end, LOWER, run) == Recorded(run) + ([] + if end == "" then [] else [end])
  {
    if end == "" {
      assert Recorded(run) + ([] + []) == Recorded(run);
    } else {
      hide Recorded;
      assert end[0] in end && end + "" == end;
      ScanUpperStart(end, "", LOWER, run);
      OnlyUpperStays(end);
      assert [] + [end] == [end];
    }
  }

  lemma OnlyUpperStays(u: string)
    requires u != "" && forall c <- u :: IsUpper(c)
    ensures Scan("", UPPER, u) == [u]
  {
  }

  lemma {:induction false} HumpStarts(h: Hump, rest: string)
    requires IsHump(h)
    ensures Parse(h.acronym + (Capital(h.word) + rest)) == Scan(rest, LOWER, h.acronym + Capital(h.word))
  {
    hide Scan, Capital;
    HeadIsUpper(h);
    var s := h.acronym + (Capital(h.word) + rest);
    assert s == (h.acronym + Capital(h.word)) + rest == Head(h) + (h.word[1..] + rest);
    assert s[0] == Head(h)[0];
    ScanHump(h, rest, UPPER, "");
  }

  /** An identifier in humps is cut where a capitalised word begins and behind an acronym, and nowhere else:
      GetAPIDocs is Get, API and Docs. */
  lemma {:induction false} HumpsParse(hs: seq<Hump>, end: string)
    requires (forall h <- hs :: IsHump(h)) && forall c <- end :: IsUpper(c)
    ensures Parse(Written(hs) + end) == WordsOf(hs) + if end == "" then [] else [end]
  {
    hide Scan, Recorded;
    if hs == [] {
      assert Written(hs) + end == end && WordsOf(hs) == [];
      AcronymParses(end);
      assert [] + (if end == "" then [] else [end]) == if end == "" then [] else [end];
    } else {
      SomeHumpsParse(hs[0], hs[1..], end);
      assert [hs[0]] + hs[1..] == hs;
    }
  }

  lemma {:induction false} AcronymParses(end: string)
    requires forall c <- end :: IsUpper(c)
    ensures Parse(end) == if end == "" then [] else [end]
  {
    hide Scan, Recorded;
    if end != "" {
      assert end[0] in end && end + "" == end;
      ScanUpperStart(end, "", UPPER, "");
      OnlyUpperStays(end);
    }
  }

  lemma {:induction false} SomeHumpsParse(h: Hump, hs: seq<Hump>, end: string)
    requires IsHump(h) && (forall x <- hs :: IsHump(x)) && forall c <- end :: IsUpper(c)
    ensures Parse(h.acronym + (Capital(h.word) + Written(hs)) + end)
            == (if h.acronym == "" then [] else [h.acronym]) + ([h.word] + WordsOf(hs)) +
               if end == "" then [] else [end]
  {
    hide Scan, Recorded, Capital, Written, WordsOf, Parse;
    var rest, last := Written(hs) + end, if end == "" then [] else [end];
    assert h.acronym + (Capital(h.word) + Written(hs)) + end == h.acronym + (Capital(h.word) + rest);
    HumpStarts(h, rest);
    ScanHumps(hs, end, h.acronym + Capital(h.word));
    RecordedHump(h);
    var a := if h.acronym == "" then [] else [h.acronym];
    assert (a + [h.word]) + (WordsOf(hs) + last) == a + ([h.word] + WordsOf(hs)) + last;
  }

  /** And so is one that starts with a lower-case word: getAPIDocs. */
  lemma {:induction false} CamelHumpsParse(first: string, hs: seq<Hump>, end: string)
    requires IsLowerWord(first) && (forall h <- hs :: IsHump(h)) && forall c <- end :: IsUpper(c)
    ensures Parse(first + (Written(hs) + end)) == [first] + (WordsOf(hs) + if end == "" then [] else [end])
  {
    hide Scan, Recorded, Written;
    var rest := Written(hs) + end;
    assert first[0] in first && (first + rest)[0] == first[0];
    ScanLowerWord(first, rest, LOWER, "");
    assert "" + first == first;
    ScanHumps(hs, end, first);
    RecordedLower(first);
  }
}
