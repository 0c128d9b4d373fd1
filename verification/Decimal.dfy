/** Decimal numbers as strconv reads and writes them. */
module Decimal {
  import opened Common

  predicate IsDigit(c: char) { '0' <= c <= '9' }

  predicate AllDigits(s: string) {
    s != "" && forall c <- s :: IsDigit(c)
  }

  function DigitsValue(s: string): int {
    if s == "" then 0 else 10 * DigitsValue(s[..|s| - 1]) + (s[|s| - 1] as int - '0' as int)
  }

  /** strconv.Atoi for 64-bit integers: an optional sign, then digits, in range. */
  function Atoi(s: string): Option<int> {
    var neg := s != "" && s[0] == '-';
    var d := if s != "" && (s[0] == '-' || s[0] == '+') then s[1..] else s;
    if !AllDigits(d) then None
    else
      var v := if neg then -DigitsValue(d) else DigitsValue(d);
      if -0x8000_0000_0000_0000 <= v < 0x8000_0000_0000_0000 then Some(v) else None
  }

  function Itoa(n: nat): (s: string)
    ensures AllDigits(s)
  {
    if n < 10 then [('0' as int + n) as char] else Itoa(n / 10) + [('0' as int + n % 10) as char]
  }

  lemma {:induction false} ItoaValue(n: nat)
    ensures DigitsValue(Itoa(n)) == n
  {
    if n < 10 {
      assert DigitsValue(Itoa(n)[..0]) == 0;
    } else {
      ItoaValue(n / 10);
      var s := Itoa(n);
      assert s[..|s| - 1] == Itoa(n / 10);
    }
  }

  lemma {:induction false} AtoiItoa(n: nat)
    requires n < 0x8000_0000_0000_0000
    ensures Atoi(Itoa(n)) == Some(n)
  {
    hide DigitsValue, Itoa;
    ItoaValue(n);
    var s := Itoa(n);
    assert s[0] in s;
  }

  /** A number has no comma. */
  lemma CommaIsNoNumber(s: string)
    ensures ',' in s ==> Atoi(s) == None
  {
    if s != "" { assert s == [s[0]] + s[1..]; }
  }

  lemma {:induction false} ItoaInjective(m: nat, n: nat)
    ensures Itoa(m) == Itoa(n) ==> m == n
  {
    ItoaValue(m);
    ItoaValue(n);
  }

  /** The digits are decimal, the most significant first. */
  lemma {:induction false} DecimalDigits(n: nat, d: nat)
    requires d < 10
    ensures Itoa(d) == ["0123456789"[d]]
    ensures n > 0 ==> Itoa(10 * n + d) == Itoa(n) + ["0123456789"[d]]
  {
    assert n > 0 ==> (10 * n + d) / 10 == n && (10 * n + d) % 10 == d;
  }

  /** A sign, and digits that count ten times as much as those behind them. */
  lemma {:induction false} AtoiReads(n: nat, d: nat, s: string)
    requires d < 10 && 10 * n + d < 0x8000_0000_0000_0000
    requires AllDigits(s) && Atoi(s) == Some(n)
    ensures Atoi(s + ["0123456789"[d]]) == Some(10 * n + d)
    ensures Atoi("-" + s) == Some(0 - n) && Atoi("+" + s) == Some(n)
  {
    var c := "0123456789"[d];
    var t := s + [c];
    assert s[0] in s && t[..|t| - 1] == s && t[0] == s[0];
    assert AllDigits(t);
    assert ("-" + s)[1..] == s && ("+" + s)[1..] == s;
  }
}
