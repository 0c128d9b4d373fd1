/** Splitting and re-joining identifiers (pkg/idents/identifiers.go), for ASCII letters and digits. */
module Identifiers {
  import opened Decimal

  datatype Format = CamelCase | PascalCase | SnakeCase | ScreamingSnakeCase | KebabCase

  predicate IsUpper(c: char) { 'A' <= c <= 'Z' }

  predicate IsLower(c: char) { 'a' <= c <= 'z' }

  predicate IsAlnum(c: char) { IsUpper(c) || IsLower(c) || IsDigit(c) }

  function LowerChar(c: char): char {
    if IsUpper(c) then c + 32 as char else c
  }

  function UpperChar(c: char): char {
    if IsLower(c) then c - 32 as char else c
  }

  function ToLower(s: string): (r: string)
    ensures |r| == |s| && forall i :: 0 <= i < |s| ==> r[i] == LowerChar(s[i])
  {
    seq(|s|, i requires 0 <= i < |s| => LowerChar(s[i]))
  }

  function ToUpper(s: string): (r: string)
    ensures |r| == |s| && forall i :: 0 <= i < |s| ==> r[i] == UpperChar(s[i])
  {
    seq(|s|, i requires 0 <= i < |s| => UpperChar(s[i]))
  }

  function Title(s: string): string {
    if s == "" then "" else [UpperChar(s[0])] + s[1..]
  }

  // ----- Parsing into parts -----

  const OTHER := 0
  const UPPER := 1
  const LOWER := 2

  /** The type of a character; a digit continues what came before it. */
  function TypeOf(c: char, last: nat): nat {
    if IsUpper(c) then UPPER
    else if IsLower(c) then LOWER
    else if IsDigit(c) then (if last == OTHER then LOWER else last)
    else OTHER
  }

  predicate OnlyUpper(s: string) {
    forall c <- s :: IsUpper(c)
  }

  function LastUpper(s: string): (k: int)
    ensures -1 <= k < |s|
    ensures k >= 0 ==> IsUpper(s[k])
    ensures forall i :: k < i < |s| ==> !IsUpper(s[i])
  {
    if s == "" then -1
    else if IsUpper(s[|s| - 1]) then |s| - 1
    else LastUpper(s[..|s| - 1])
  }

  /** The parts a finished run of letters and digits becomes: an acronym followed by a word is cut in two. */
  function Recorded(run: string): seq<string> {
    if run == "" then []
    else if OnlyUpper(run) then [run]
    else
      var k := LastUpper(run);
      if 0 < k != |run| - 1 then [run[..k], ToLower(run[k..])] else [ToLower(run)]
  }

  /** The parts still to come, with `run` gathered so far. */
  function Scan(s: string, last: nat, run: string): seq<string> {
    if s == "" then Recorded(run)
    else
      var t := TypeOf(s[0], last);
      var add := if t != OTHER then [s[0]] else "";
      if last > t then Recorded(run) + Scan(s[1..], t, add) else Scan(s[1..], t, run + add)
  }

  function Parse(s: string): seq<string> {
    if s == "" then [] else Scan(s, TypeOf(s[0], OTHER), "")
  }

  method RecordPart(parts: seq<string>, run: string) returns (r: seq<string>)
    ensures r == parts + Recorded(run)
  {
    r := parts;
    if run == "" { return; }
    var part := run;
    if !OnlyUpper(part) {
      var k := LastUpper(part);
      if k > 0 && k != |part| - 1 {
        r := r + [part[..k]];
        part := part[k..];
      }
      part := ToLower(part);
    }
    r := r + [part];
  }

  method ParseIdentifier(s: string) returns (parts: seq<string>)
    ensures parts == Parse(s)
  {
    hide Recorded, TypeOf, Scan;
    parts := [];
    if s == "" { return; }
    var run := "";
    var last := TypeOf(s[0], OTHER);
    for i := 0 to |s|
      invariant parts + Scan(s[i..], last, run) == Parse(s)
    {
      ScanStep(s, i, last, parts, run);
      var t := TypeOf(s[i], last);
      if last > t {
        parts := RecordPart(parts, run);
        run := "";
      }
      last := t;
      if t != OTHER { run := run + [s[i]]; }
    }
    assert Scan(s[|s|..], last, run) == Recorded(run) by { ScanEnd(s, last, run); }
    parts := RecordPart(parts, run);
  }

  lemma {:induction false} ScanStep(s: string, i: nat, last: nat, parts: seq<string>, run: string)
    requires i < |s|
    ensures var t := TypeOf(s[i], last);
            var kept := if last > t then "" else run;
            var next := if t != OTHER then kept + [s[i]] else kept;
            parts + Scan(s[i..], last, run) ==
              (if last > t then parts + Recorded(run) else parts) + Scan(s[i + 1..], t, next)
  {
    hide Recorded, TypeOf;
    assert s[i..][0] == s[i] && s[i..][1..] == s[i + 1..];
    assert run + "" == run && "" + [s[i]] == [s[i]];
  }

  lemma {:induction false} ScanEnd(s: string, last: nat, run: string)
    ensures Scan(s[|s|..], last, run) == Recorded(run)
  {
    assert s[|s|..] == "";
  }

  // ----- Converting -----

  function Styled(part: string, first: bool, f: Format): string {
    match f
    case CamelCase => if first then ToLower(part) else Title(part)
    case PascalCase => Title(part)
    case SnakeCase => ToLower(part)
    case KebabCase => ToLower(part)
    case ScreamingSnakeCase => ToUpper(part)
  }

  function StyledAll(parts: seq<string>, f: Format): (r: seq<string>)
    ensures |r| == |parts| && forall i :: 0 <= i < |parts| ==> r[i] == Styled(parts[i], i == 0, f)
  {
    seq(|parts|, i requires 0 <= i < |parts| => Styled(parts[i], i == 0, f))
  }

  function Join(parts: seq<string>, sep: string): string {
    if parts == [] then ""
    else if |parts| == 1 then parts[0]
    else parts[0] + (sep + Join(parts[1..], sep))
  }

  function Separator(f: Format): string {
    match f
    case CamelCase => ""
    case PascalCase => ""
    case SnakeCase => "_"
    case ScreamingSnakeCase => "_"
    case KebabCase => "-"
  }

  function Converted(s: string, f: Format): string {
    Join(StyledAll(Parse(s), f), Separator(f))
  }

  method Convert(s: string, f: Format) returns (r: string)
    ensures r == Converted(s, f)
  {
    hide Parse, Styled, Join;
    var parts := ParseIdentifier(s);
    ghost var parsed := parts;
    for i := 0 to |parts|
      invariant |parts| == |parsed|
      invariant forall k :: 0 <= k < i ==> parts[k] == Styled(parsed[k], k == 0, f)
      invariant forall k :: i <= k < |parts| ==> parts[k] == parsed[k]
    {
      parts := parts[i := Styled(parts[i], i == 0, f)];
    }
    assert parts == StyledAll(parsed, f);
    r := Join(parts, Separator(f));
  }

  // ----- Letters and digits are kept -----

  function Alnum(s: string): string {
    if s == "" then "" else (if IsAlnum(s[0]) then [s[0]] else "") + Alnum(s[1..])
  }

  /** The letters and digits of s in order, case forgotten. */
  function Letters(s: string): string {
    ToLower(Alnum(s))
  }

  function Flat(parts: seq<string>): string {
    if parts == [] then "" else parts[0] + Flat(parts[1..])
  }

  lemma LowerConcat(a: string, b: string)
    ensures ToLower(a + b) == ToLower(a) + ToLower(b)
  {
  }

  lemma LowerTwice(a: string)
    ensures ToLower(ToLower(a)) == ToLower(a) && ToLower(ToUpper(a)) == ToLower(a)
  {
  }

  lemma {:induction false} FlatConcat(a: seq<string>, b: seq<string>)
    ensures Flat(a + b) == Flat(a) + Flat(b)
  {
    if a == [] {
      assert a + b == b;
    } else {
      assert (a + b)[1..] == a[1..] + b;
      FlatConcat(a[1..], b);
    }
  }

  lemma RecordedKeeps(run: string)
    ensures ToLower(Flat(Recorded(run))) == ToLower(run)
  {
    if run != "" && !OnlyUpper(run) {
      var k := LastUpper(run);
      if 0 < k != |run| - 1 {
        assert Flat([run[..k], ToLower(run[k..])]) == run[..k] + ToLower(run[k..]) by {
          assert [run[..k], ToLower(run[k..])][1..] == [ToLower(run[k..])];
          assert Flat([ToLower(run[k..])]) == ToLower(run[k..]);
        }
        LowerTwice(run[k..]);
        LowerConcat(run[..k], ToLower(run[k..]));
        LowerConcat(run[..k], run[k..]);
        assert run[..k] + run[k..] == run;
      } else {
        LowerTwice(run);
        assert Flat([ToLower(run)]) == ToLower(run);
      }
    } else if run != "" {
      assert Flat([run]) == run;
    }
  }

  lemma {:induction false} ScanKeeps(s: string, last: nat, run: string)
    ensures ToLower(Flat(Scan(s, last, run))) == ToLower(run) + Letters(s)
  {
    hide Recorded, ToLower;
    RecordedKeeps(run);
    if s != "" {
      var t := TypeOf(s[0], last);
      var add := if t != OTHER then [s[0]] else "";
      assert Alnum(s) == add + Alnum(s[1..]);
      LowerConcat(add, Alnum(s[1..]));
      if last > t {
        ScanKeeps(s[1..], t, add);
        FlatConcat(Recorded(run), Scan(s[1..], t, add));
        LowerConcat(Flat(Recorded(run)), Flat(Scan(s[1..], t, add)));
        Regroup(ToLower(run), ToLower(add), Letters(s[1..]));
      } else {
        ScanKeeps(s[1..], t, run + add);
        LowerConcat(run, add);
        Regroup(ToLower(run), ToLower(add), Letters(s[1..]));
      }
    } else {
      LowerConcat("", "");
      assert Letters(s) == "" by { LowerOfEmpty(); }
      assert ToLower(run) + "" == ToLower(run);
    }
  }

  lemma LowerOfEmpty()
    ensures ToLower("") == ""
  {
  }

  lemma Regroup(a: string, b: string, c: string)
    ensures (a + b) + c == a + (b + c)
  {
  }

  /** The parts, joined and lower-cased, are exactly the letters and digits of the identifier, in order. */
  lemma PartsAreLetters(s: string)
    ensures ToLower(Flat(Parse(s))) == Letters(s)
  {
    hide Scan;
    if s != "" {
      ScanKeeps(s, TypeOf(s[0], OTHER), "");
      assert ToLower("") + Letters(s) == Letters(s);
    }
  }

  // ----- Shape of the parts -----

  predicate IsWord(w: string) {
    w != "" && forall c <- w :: IsAlnum(c)
  }

  predicate AreWords(ws: seq<string>) {
    forall w <- ws :: IsWord(w)
  }

  lemma RecordedAreWords(run: string)
    requires forall c <- run :: IsAlnum(c)
    ensures AreWords(Recorded(run))
  {
    if run != "" && !OnlyUpper(run) {
      var k := LastUpper(run);
      if 0 < k != |run| - 1 {
        assert forall c <- run[..k] :: c in run;
        assert forall c <- run[k..] :: c in run;
        LowerIsWord(run[k..]);
      } else {
        LowerIsWord(run);
      }
    }
  }

  lemma LowerIsWord(w: string)
    requires IsWord(w)
    ensures IsWord(ToLower(w)) && IsWord(ToUpper(w))
    ensures forall c <- ToLower(w) :: !IsUpper(c)
    ensures forall c <- ToUpper(w) :: !IsLower(c)
  {
    forall i | 0 <= i < |w| ensures IsAlnum(ToLower(w)[i]) && !IsUpper(ToLower(w)[i]) { assert w[i] in w; }
    forall i | 0 <= i < |w| ensures IsAlnum(ToUpper(w)[i]) && !IsLower(ToUpper(w)[i]) { assert w[i] in w; }
  }

  lemma {:induction false} ScanGivesWords(s: string, last: nat, run: string)
    requires forall c <- run :: IsAlnum(c)
    ensures AreWords(Scan(s, last, run))
  {
    hide Recorded;
    RecordedAreWords(run);
    if s != "" {
      var t := TypeOf(s[0], last);
      var add := if t != OTHER then [s[0]] else "";
      ScanGivesWords(s[1..], t, if last > t then add else run + add);
    }
  }

  lemma PartsAreWords(s: string)
    ensures AreWords(Parse(s))
  {
    if s != "" { ScanGivesWords(s, TypeOf(s[0], OTHER), ""); }
  }

  /** Conversion, to whatever format, keeps the letters and digits and their order. */
  lemma ConvertKeepsLetters(s: string, f: Format)
    ensures Letters(Converted(s, f)) == Letters(s)
  {
    hide Scan, Styled, Parse, Join, ToLower;
    var parts := Parse(s);
    PartsAreWords(s);
    PartsAreLetters(s);
    StyleKeeps(parts, f, true);
    JoinKeeps(StyledFrom(parts, f, true), Separator(f));
    StyledFromAll(parts, f);
  }

  /** StyledAll, one part at a time. */
  function StyledFrom(parts: seq<string>, f: Format, first: bool): seq<string> {
    if parts == [] then [] else [Styled(parts[0], first, f)] + StyledFrom(parts[1..], f, false)
  }

  lemma {:induction false} StyledFromAt(parts: seq<string>, f: Format, first: bool, i: nat)
    requires i < |parts|
    ensures |StyledFrom(parts, f, first)| == |parts|
    ensures StyledFrom(parts, f, first)[i] == Styled(parts[i], first && i == 0, f)
  {
    hide Styled;
    if |parts| > 1 { StyledFromAt(parts[1..], f, false, if i > 0 then i - 1 else 0); }
  }

  lemma {:induction false} StyledFromAll(parts: seq<string>, f: Format)
    ensures StyledFrom(parts, f, true) == StyledAll(parts, f)
  {
    hide Styled;
    forall i | 0 <= i < |parts|
      ensures |StyledFrom(parts, f, true)| == |parts|
      ensures StyledFrom(parts, f, true)[i] == StyledAll(parts, f)[i]
    { StyledFromAt(parts, f, true, i); }
  }

  lemma StyledKeeps(w: string, first: bool, f: Format)
    requires IsWord(w)
    ensures IsWord(Styled(w, first, f)) && ToLower(Styled(w, first, f)) == ToLower(w)
  {
    LowerIsWord(w);
    LowerTwice(w);
    var t := Title(w);
    assert forall i :: 0 <= i < |w| ==> w[i] in w;
    assert |t| == |w| && forall i :: 0 < i < |w| ==> t[i] == w[i];
    assert ToLower(t) == ToLower(w);
    assert IsWord(t);
  }

  lemma {:induction false} StyleKeeps(parts: seq<string>, f: Format, first: bool)
    requires AreWords(parts)
    ensures AreWords(StyledFrom(parts, f, first))
    ensures ToLower(Flat(StyledFrom(parts, f, first))) == ToLower(Flat(parts))
  {
    hide Styled, ToLower, IsWord;
    if parts != [] {
      var w, rest := parts[0], StyledFrom(parts[1..], f, false);
      assert w in parts;
      StyledKeeps(w, first, f);
      StyleKeeps(parts[1..], f, false);
      assert ([Styled(w, first, f)] + rest)[1..] == rest;
      LowerConcat(Styled(w, first, f), Flat(rest));
      LowerConcat(w, Flat(parts[1..]));
    }
  }

  lemma {:induction false} AlnumConcat(a: string, b: string)
    ensures Alnum(a + b) == Alnum(a) + Alnum(b)
  {
    if a == "" {
      assert a + b == b;
    } else {
      assert (a + b)[1..] == a[1..] + b;
      AlnumConcat(a[1..], b);
      Regroup(if IsAlnum(a[0]) then [a[0]] else "", Alnum(a[1..]), Alnum(b));
    }
  }

  lemma {:induction false} AlnumWord(w: string)
    requires forall c <- w :: IsAlnum(c)
    ensures Alnum(w) == w
  {
    if w != "" {
      AlnumWord(w[1..]);
      assert [w[0]] + w[1..] == w;
    }
  }

  lemma {:induction false} JoinKeeps(ws: seq<string>, sep: string)
    requires AreWords(ws) && Alnum(sep) == ""
    ensures Alnum(Join(ws, sep)) == Flat(ws)
  {
    hide Alnum;
    if ws == [] {
      AlnumWord("");
    } else {
      assert ws[0] in ws;
      AlnumWord(ws[0]);
      if |ws| == 1 {
        assert ws[1..] == [] && Flat(ws) == ws[0] + "";
      } else {
        JoinKeeps(ws[1..], sep);
        AlnumConcat(sep, Join(ws[1..], sep));
        AlnumConcat(ws[0], sep + Join(ws[1..], sep));
      }
    }
  }

  // ----- Snake case is a fixed point -----

  predicate IsLowerWord(w: string) {
    w != "" && forall c <- w :: IsLower(c) || IsDigit(c)
  }

  predicate AreLowerWords(ws: seq<string>) {
    forall w <- ws :: IsLowerWord(w)
  }

  lemma RecordedLower(w: string)
    requires IsLowerWord(w)
    ensures Recorded(w) == [w]
  {
    forall i | 0 <= i < |w| ensures !IsUpper(w[i]) { assert w[i] in w; }
    assert LastUpper(w) == -1 && w[0] in w;
    assert ToLower(w) == w;
  }

  lemma {:induction false} ScanLowerWord(w: string, rest: string, last: nat, run: string)
    requires IsLowerWord(w) && (last == OTHER || last == LOWER)
    ensures Scan(w + rest, last, run) == Scan(rest, LOWER, run + w)
    decreases |w|
  {
    hide Recorded;
    assert w[0] in w;
    assert (w + rest)[1..] == w[1..] + rest;
    assert Scan(w + rest, last, run) == Scan(w[1..] + rest, LOWER, run + [w[0]]);
    if |w| == 1 {
      assert w[1..] + rest == rest && [w[0]] == w;
    } else {
      ScanLowerWord(w[1..], rest, LOWER, run + [w[0]]);
      assert run + [w[0]] + w[1..] == run + w;
    }
  }

  lemma {:induction false} ScanJoined(ws: seq<string>, sep: char, last: nat)
    requires AreLowerWords(ws) && ws != [] && !IsAlnum(sep) && (last == OTHER || last == LOWER)
    ensures Scan(Join(ws, [sep]), last, "") == ws
    decreases |ws|
  {
    hide Recorded;
    var w := ws[0];
    assert w in ws;
    RecordedLower(w);
    if |ws| == 1 {
      ScanLowerWord(w, "", last, "");
      assert w + "" == w && "" + w == w;
      assert ws == [w];
    } else {
      var tail := Join(ws[1..], [sep]);
      ScanLowerWord(w, [sep] + tail, last, "");
      assert ([sep] + tail)[1..] == tail && "" + w == w;
      ScanJoined(ws[1..], sep, OTHER);
      assert [w] + ws[1..] == ws;
    }
  }

  /** Lower-case words joined by any separator parse back to themselves. */
  lemma {:induction false} ParseJoined(ws: seq<string>, sep: char)
    requires AreLowerWords(ws) && !IsAlnum(sep)
    ensures Parse(Join(ws, [sep])) == ws
  {
    if ws != [] {
      assert ws[0] in ws && ws[0][0] in ws[0];
      assert Join(ws, [sep]) != "" && Join(ws, [sep])[0] == ws[0][0];
      ScanJoined(ws, sep, LOWER);
    }
  }

  function Words(s: string): (ws: seq<string>)
    ensures AreLowerWords(ws)
  {
    PartsAreWords(s);
    LowerAllIsLower(Parse(s));
    LowerAll(Parse(s))
  }

  function LowerAll(ws: seq<string>): (r: seq<string>)
    ensures |r| == |ws| && forall i :: 0 <= i < |ws| ==> r[i] == ToLower(ws[i])
  {
    seq(|ws|, i requires 0 <= i < |ws| => ToLower(ws[i]))
  }

  lemma LowerAllIsLower(ws: seq<string>)
    requires AreWords(ws)
    ensures AreLowerWords(LowerAll(ws))
  {
    forall i | 0 <= i < |ws| ensures IsLowerWord(LowerAll(ws)[i]) {
      assert ws[i] in ws;
      LowerIsWord(ws[i]);
    }
  }

  lemma LowerAllFixed(ws: seq<string>)
    requires AreLowerWords(ws)
    ensures LowerAll(ws) == ws
  {
    forall i | 0 <= i < |ws| ensures ToLower(ws[i]) == ws[i] {
      assert ws[i] in ws;
      assert forall k :: 0 <= k < |ws[i]| ==> ws[i][k] in ws[i];
    }
  }

  lemma ConvertedIsJoin(s: string)
    ensures Converted(s, SnakeCase) == Join(Words(s), "_")
    ensures Converted(s, KebabCase) == Join(Words(s), "-")
  {
    assert StyledAll(Parse(s), SnakeCase) == Words(s);
    assert StyledAll(Parse(s), KebabCase) == Words(s);
  }

  /** Converting to snake case or kebab case keeps the words, so a later conversion to snake case gives
      what the original identifier gives: snake-casing is idempotent, and a kebab step before it is invisible. */
  lemma SnakeIsStable(s: string)
    ensures Converted(Converted(s, SnakeCase), SnakeCase) == Converted(s, SnakeCase)
    ensures Converted(Converted(s, KebabCase), SnakeCase) == Converted(s, SnakeCase)
    ensures Converted(Converted(s, SnakeCase), KebabCase) == Converted(s, KebabCase)
  {
    hide Parse, Join, Words, Converted;
    var ws := Words(s);
    ConvertedIsJoin(s);
    forall sep | sep == '_' || sep == '-' ensures Words(Join(ws, [sep])) == ws { WordsOfJoin(ws, sep); }
    ConvertedIsJoin(Join(ws, "_"));
    ConvertedIsJoin(Join(ws, "-"));
    assert ['_'] == "_" && ['-'] == "-";
  }

  lemma {:induction false} WordsOfJoin(ws: seq<string>, sep: char)
    requires AreLowerWords(ws) && !IsAlnum(sep)
    ensures Words(Join(ws, [sep])) == ws
  {
    ParseJoined(ws, sep);
    LowerAllFixed(ws);
  }

  // ----- Screaming snake case is not -----

  predicate IsUpperWord(w: string) {
    w != "" && forall c <- w :: IsUpper(c) || IsDigit(c)
  }

  function DigitCount(u: string): (k: nat)
    ensures k <= |u| && forall i :: 0 <= i < k ==> IsDigit(u[i])
    ensures k < |u| ==> !IsDigit(u[k])
  {
    if u == "" || !IsDigit(u[0]) then 0 else 1 + DigitCount(u[1..])
  }

  /** What an upper-case word between separators parses to: leading digits come off as a part of their own. */
  function Pieces(u: string): seq<string> {
    var k := DigitCount(u);
    if k == |u| then [u] else (if k > 0 then [u[..k]] else []) + Recorded(u[k..])
  }

  function AllPieces(us: seq<string>): seq<string> {
    if us == [] then [] else Pieces(us[0]) + AllPieces(us[1..])
  }

  lemma {:induction false} ScanUpperRun(w: string, rest: string, run: string)
    requires forall c <- w :: IsUpper(c) || IsDigit(c)
    ensures Scan(w + rest, UPPER, run) == Scan(rest, UPPER, run + w)
    decreases |w|
  {
    hide Recorded;
    if w == "" {
      assert w + rest == rest && run + w == run;
    } else {
      assert (w + rest)[1..] == w[1..] + rest && w[0] in w;
      ScanUpperRun(w[1..], rest, run + [w[0]]);
      assert run + [w[0]] + w[1..] == run + w;
    }
  }

  /** An upper-case run started after `last` by its letter, then the rest of the input. */
  lemma {:induction false} ScanUpperStart(w: string, rest: string, last: nat, run: string)
    requires IsUpperWord(w) && IsUpper(w[0]) && last <= LOWER && (last != LOWER ==> run == "")
    ensures Scan(w + rest, last, run) == (if last == LOWER then Recorded(run) else []) + Scan(rest, UPPER, w)
  {
    hide Recorded;
    assert (w + rest)[1..] == w[1..] + rest;
    ScanUpperRun(w[1..], rest, [w[0]]);
    assert [w[0]] + w[1..] == w && "" + [w[0]] == [w[0]];
    assert [] + Scan(rest, UPPER, w) == Scan(rest, UPPER, w);
  }

  lemma {:induction false} ScanAfterWord(rest: string, last: nat, run: string, sep: char)
    requires !IsAlnum(sep) && last > OTHER && (rest != "" ==> rest[0] == sep)
    ensures Scan(rest, last, run) == Recorded(run) + (if rest == "" then [] else Scan(rest[1..], OTHER, ""))
  {
    hide Recorded;
    if rest == "" { assert Recorded(run) + [] == Recorded(run); }
  }

  lemma {:induction false} ScanUpperWord(u: string, rest: string, last: nat, sep: char)
    requires IsUpperWord(u) && !IsAlnum(sep) && (rest != "" ==> rest[0] == sep)
    requires last == OTHER || last == TypeOf(u[0], OTHER)
    ensures Scan(u + rest, last, "") == Pieces(u) + (if rest == "" then [] else Scan(rest[1..], OTHER, ""))
  {
    hide Scan, Recorded, LastUpper;
    var k := DigitCount(u);
    assert u[0] in u;
    var d, w := u[..k], u[k..];
    var end := if rest == "" then [] else Scan(rest[1..], OTHER, "");
    if k > 0 {
      assert IsLowerWord(d);
      RecordedLower(d);
      ScanLowerWord(d, w + rest, last, "");
      assert d + (w + rest) == u + rest && "" + d == d;
    } else {
      assert d == "" && w == u;
    }
    if k == |u| {
      assert w + rest == rest && d == u;
      ScanAfterWord(rest, LOWER, d, sep);
    } else {
      assert forall c <- w :: c in u;
      assert w[0] == u[k] && u[k] in u;
      ScanUpperStart(w, rest, if k > 0 then LOWER else last, d);
      ScanAfterWord(rest, UPPER, w, sep);
      if k > 0 {
        assert [d] + (Recorded(w) + end) == ([d] + Recorded(w)) + end;
      } else {
        assert [] + (Recorded(w) + end) == ([] + Recorded(w)) + end;
      }
    }
  }

  lemma {:induction false} ScanUpperJoined(us: seq<string>, sep: char, last: nat)
    requires us != [] && (forall u <- us :: IsUpperWord(u)) && !IsAlnum(sep)
    requires last == OTHER || (us[0] != "" && last == TypeOf(us[0][0], OTHER))
    ensures Scan(Join(us, [sep]), last, "") == AllPieces(us)
    decreases |us|
  {
    hide Scan, Pieces, TypeOf;
    var u := us[0];
    assert u in us;
    if |us| == 1 {
      ScanUpperWord(u, "", last, sep);
      assert u + "" == u && us[1..] == [];
      assert AllPieces(us) == Pieces(u) + [];
    } else {
      var tail := Join(us[1..], [sep]);
      ScanUpperWord(u, [sep] + tail, last, sep);
      assert ([sep] + tail)[1..] == tail && us[1..][0] in us[1..];
      ScanUpperJoined(us[1..], sep, OTHER);
    }
  }

  /** Upper-casing loses nothing of the word: it is all digits, or it starts with a letter and
      either ends with one or has no other. */
  predicate Survives(w: string)
    requires w != ""
  {
    (forall c <- w :: IsDigit(c)) ||
    (IsLower(w[0]) && (IsLower(w[|w| - 1]) || forall i :: 0 < i < |w| ==> IsDigit(w[i])))
  }

  /** u is w with its letters in upper case. */
  predicate Mirrors(w: string, u: string) {
    |u| == |w| && forall i :: 0 <= i < |w| ==>
      IsUpper(u[i]) == IsLower(w[i]) && IsDigit(u[i]) == IsDigit(w[i]) == !IsLower(w[i]) && LowerChar(u[i]) == w[i]
  }

  lemma UpperMirrors(w: string)
    requires IsLowerWord(w)
    ensures Mirrors(w, ToUpper(w)) && IsUpperWord(ToUpper(w)) && ToLower(ToUpper(w)) == w
  {
    forall i | 0 <= i < |w| ensures IsLower(w[i]) || IsDigit(w[i]) { assert w[i] in w; }
  }

  lemma SurvivesAt(w: string)
    requires w != ""
    ensures Survives(w) <==>
            (forall i :: 0 <= i < |w| ==> IsDigit(w[i])) ||
            (IsLower(w[0]) && (IsLower(w[|w| - 1]) || forall i :: 0 < i < |w| ==> IsDigit(w[i])))
  {
    assert (forall c <- w :: IsDigit(c)) ==> forall i :: 0 <= i < |w| ==> w[i] in w;
  }

  lemma UpperPieces(w: string)
    requires IsLowerWord(w)
    ensures |Pieces(ToUpper(w))| >= 1
    ensures |Pieces(ToUpper(w))| == 1 <==> Survives(w)
    ensures Survives(w) ==> LowerAll(Pieces(ToUpper(w))) == [w]
  {
    hide Recorded, Survives;
    var u := ToUpper(w);
    UpperMirrors(w);
    SurvivesAt(w);
    var k := DigitCount(u);
    if k < |u| {
      assert IsLower(w[k]);
      RecordedUpper(u[k..]);
      if k > 0 {
        assert IsDigit(w[0]) && !Survives(w);
      } else {
        assert u[k..] == u && [] + Recorded(u) == Recorded(u);
        UpperShape(w, u);
      }
    }
  }

  lemma {:induction false} RecordedUpper(u: string)
    requires u != ""
    ensures |Recorded(u)| >= 1
    ensures |Recorded(u)| == 1 ==> ToLower(Recorded(u)[0]) == ToLower(u)
    ensures |Recorded(u)| == 1 <==> OnlyUpper(u) || LastUpper(u) <= 0 || LastUpper(u) == |u| - 1
  {
    LowerTwice(u);
  }

  lemma {:induction false} UpperShape(w: string, u: string)
    requires w != "" && Mirrors(w, u) && IsLower(w[0])
    ensures (OnlyUpper(u) || LastUpper(u) <= 0 || LastUpper(u) == |u| - 1)
            <==> (IsLower(w[|w| - 1]) || forall i :: 0 < i < |w| ==> IsDigit(w[i]))
  {
    var k := LastUpper(u);
    assert u[0] in u && u[|u| - 1] in u;
    assert k >= 0;
    if k > 0 { assert IsLower(w[k]); }
  }

  function UpperAll(ws: seq<string>): (r: seq<string>)
    ensures |r| == |ws| && forall i :: 0 <= i < |ws| ==> r[i] == ToUpper(ws[i])
  {
    seq(|ws|, i requires 0 <= i < |ws| => ToUpper(ws[i]))
  }

  lemma LowerAllConcat(a: seq<string>, b: seq<string>)
    ensures LowerAll(a + b) == LowerAll(a) + LowerAll(b)
  {
    hide ToLower;
  }

  /** As many pieces as words just when every word survives, and then they are the words. */
  lemma {:induction false} CountPieces(ws: seq<string>)
    requires AreLowerWords(ws)
    ensures |AllPieces(UpperAll(ws))| >= |ws|
    ensures |AllPieces(UpperAll(ws))| == |ws| <==> forall w <- ws :: Survives(w)
    ensures (forall w <- ws :: Survives(w)) ==> LowerAll(AllPieces(UpperAll(ws))) == ws
  {
    hide Survives, Pieces, ToUpper, ToLower, IsLowerWord;
    if ws != [] {
      var w, tail := ws[0], ws[1..];
      assert w in ws && forall v <- tail :: v in ws;
      UpperPieces(w);
      CountPieces(tail);
      assert UpperAll(ws)[1..] == UpperAll(tail);
      assert forall v <- ws :: v == w || v in tail;
      LowerAllConcat(Pieces(ToUpper(w)), AllPieces(UpperAll(tail)));
      assert [w] + tail == ws;
    }
  }

  lemma {:induction false} PiecesAreWords(ws: seq<string>)
    requires AreLowerWords(ws)
    ensures AreWords(AllPieces(UpperAll(ws)))
  {
    hide Recorded, ToUpper;
    if ws != [] {
      assert ws[0] in ws;
      var u := ToUpper(ws[0]);
      UpperMirrors(ws[0]);
      var k := DigitCount(u);
      assert forall c <- u[k..] :: c in u;
      assert forall c <- u[..k] :: c in u;
      RecordedAreWords(u[k..]);
      PiecesAreWords(ws[1..]);
      assert UpperAll(ws)[1..] == UpperAll(ws[1..]);
    }
  }

  lemma ScreamingIsJoin(s: string)
    ensures Converted(s, ScreamingSnakeCase) == Join(UpperAll(Words(s)), "_")
  {
    PartsAreWords(s);
    var ps := Parse(s);
    forall i | 0 <= i < |ps| ensures ToUpper(ps[i]) == ToUpper(ToLower(ps[i])) {
      assert forall j :: 0 <= j < |ps[i]| ==> UpperChar(LowerChar(ps[i][j])) == UpperChar(ps[i][j]);
    }
    assert StyledAll(ps, ScreamingSnakeCase) == UpperAll(Words(s));
  }

  lemma ParseUpperJoined(ws: seq<string>)
    requires AreLowerWords(ws)
    ensures Parse(Join(UpperAll(ws), "_")) == AllPieces(UpperAll(ws))
  {
    hide Scan, ToUpper, Pieces;
    var us := UpperAll(ws);
    forall i | 0 <= i < |us| ensures IsUpperWord(us[i]) {
      assert ws[i] in ws;
      UpperMirrors(ws[i]);
    }
    if us != [] {
      assert Join(us, "_") != "" && Join(us, "_")[0] == us[0][0];
      ScanUpperJoined(us, '_', TypeOf(us[0][0], OTHER));
      assert ['_'] == "_";
    }
  }

  /** Going through screaming snake case gives the same snake case exactly when every word of the
      identifier survives upper-casing. */
  lemma ScreamingIsStableIff(s: string)
    ensures Converted(Converted(s, ScreamingSnakeCase), SnakeCase) == Converted(s, SnakeCase)
            <==> forall w <- Words(s) :: Survives(w)
  {
    hide Parse, Join, Survives, Pieces, AllPieces, Converted, ToUpper;
    var ws := Words(s);
    var ps := AllPieces(UpperAll(ws));
    ScreamingIsJoin(s);
    ParseUpperJoined(ws);
    ConvertedIsJoin(s);
    ConvertedIsJoin(Join(UpperAll(ws), "_"));
    PiecesAreWords(ws);
    LowerAllIsLower(ps);
    CountPieces(ws);
    ParseJoined(ws, '_');
    ParseJoined(LowerAll(ps), '_');
    assert ['_'] == "_";
  }

  lemma DigitSplitsTheWord()
    ensures Converted(Converted("ab2", ScreamingSnakeCase), SnakeCase) != Converted("ab2", SnakeCase)
  {
    var w := "ab2";
    assert w[0] == 'a' && w[1] == 'b' && w[2] == '2';
    SurvivesAt(w);
    assert !IsDigit(w[1]) && !IsLower(w[|w| - 1]);
    assert Join([w], "_") == w;
    WordsOfJoin([w], '_');
    assert Words(w) == [w] && w in Words(w);
    ScreamingIsStableIff(w);
  }
}
