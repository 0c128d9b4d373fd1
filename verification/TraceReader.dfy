/** Reading numbers and byte strings from a trace stream (pkg/traceparser/binreader.go). */
module TraceReader {
  import opened Common

  datatype ReadError = EOF | UnexpectedEOF

  // ----- Machine words, bit by bit -----

  function Pow2(n: nat): (r: nat)
    ensures r > 0
  {
    if n == 0 then 1 else 2 * Pow2(n - 1)
  }

  /** The low n bits of x. */
  function Low(n: nat, x: nat): (r: nat)
    ensures r < Pow2(n)
  {
    if n == 0 then 0 else x % 2 + 2 * Low(n - 1, x / 2)
  }

  /** x with its low n bits dropped. */
  function High(n: nat, x: nat): nat {
    if n == 0 then x else High(n - 1, x / 2)
  }

  /** x shifted left by i, without truncation. */
  function Shl(x: nat, i: nat): nat {
    if i == 0 then x else 2 * Shl(x, i - 1)
  }

  function BitOr(a: nat, b: nat): nat
    decreases a + b
  {
    if a == 0 && b == 0 then 0
    else (if a % 2 == 1 || b % 2 == 1 then 1 else 0) + 2 * BitOr(a / 2, b / 2)
  }

  /** Low is the remainder by 2^n: what it drops is a multiple of 2^n. */
  lemma {:induction false} LowSplits(n: nat, x: nat)
    ensures x == Low(n, x) + Shl(High(n, x), n)
  {
    if n > 0 { LowSplits(n - 1, x / 2); }
  }

  lemma {:induction false} LowIsWhole(n: nat, x: nat)
    requires x < Pow2(n)
    ensures Low(n, x) == x
  {
    if n > 0 { LowIsWhole(n - 1, x / 2); }
  }

  lemma {:induction false} BitOrZero(b: nat)
    ensures BitOr(0, b) == b
  {
    if b > 0 { BitOrZero(b / 2); }
  }

  lemma BitOrStep(d: nat, p: nat, q: nat)
    requires d < 2
    ensures BitOr(d + 2 * p, 2 * q) == d + 2 * BitOr(p, q)
  {
    var a, b := d + 2 * p, 2 * q;
    assert a / 2 == p && a % 2 == d && b / 2 == q && b % 2 == 0;
  }

  lemma LowStep(n: nat, d: nat, p: nat)
    requires d < 2 && n > 0
    ensures Low(n, d + 2 * p) == d + 2 * Low(n - 1, p)
  {
    assert (d + 2 * p) / 2 == p && (d + 2 * p) % 2 == d;
  }

  lemma OrShiftBase(n: nat, u: nat, x: nat, i: nat)
    requires u < Pow2(i) && (n == 0 || i == 0)
    ensures BitOr(Low(n, u), Low(n, Shl(x, i))) == Low(n, u + Shl(x, i))
  {
    if n > 0 {
      LowIsWhole(n, 0) by { assert 0 < Pow2(n); }
      BitOrZero(Low(n, x));
    }
  }

  /** In an n-bit word, "or"-ing x shifted by i onto a value below 2^i adds it, whatever the shift loses. */
  lemma {:induction false} OrShiftAdds(n: nat, u: nat, x: nat, i: nat)
    requires u < Pow2(i)
    ensures BitOr(Low(n, u), Low(n, Shl(x, i))) == Low(n, u + Shl(x, i))
    decreases n
  {
    hide Low, BitOr;
    if n == 0 || i == 0 {
      OrShiftBase(n, u, x, i);
    } else {
      var d, p, q := u % 2, u / 2, Shl(x, i - 1);
      OrShiftAdds(n - 1, p, x, i - 1);
      LowStep(n, d, p);
      LowStep(n, 0, q);
      LowStep(n, d, p + q);
      BitOrStep(d, Low(n - 1, p), Low(n - 1, q));
      assert u == d + 2 * p && u + Shl(x, i) == d + 2 * (p + q);
    }
  }

  // ----- Base-128 groups -----

  /** Length of the varint at the front: up to and including the first byte without the continuation bit. */
  function VarintLen(s: seq<byte>): (n: Option<nat>)
    ensures n.Some? ==> 0 < n.value <= |s| && s[n.value - 1] < 128 && forall i :: 0 <= i < n.value - 1 ==> s[i] >= 128
    ensures n.None? ==> forall i :: 0 <= i < |s| ==> s[i] >= 128
  {
    if s == [] then None
    else if s[0] < 128 then Some(1)
    else match VarintLen(s[1..])
      case None => None
      case Some(k) => Some(k + 1)
  }

  /** The number written in base 128, least significant group first. */
  function Base128(s: seq<byte>): nat {
    if s == [] then 0 else s[0] % 128 + 128 * Base128(s[1..])
  }

  lemma ShlSeven(x: nat, k: nat)
    ensures Shl(x, k + 7) == 128 * Shl(x, k)
  {
    assert Shl(x, k + 1) == 2 * Shl(x, k);
    assert Shl(x, k + 2) == 2 * Shl(x, k + 1);
    assert Shl(x, k + 3) == 2 * Shl(x, k + 2);
    assert Shl(x, k + 4) == 2 * Shl(x, k + 3);
    assert Shl(x, k + 5) == 2 * Shl(x, k + 4);
    assert Shl(x, k + 6) == 2 * Shl(x, k + 5);
    assert Shl(x, k + 7) == 2 * Shl(x, k + 6);
  }

  lemma {:induction false} Base128Snoc(s: seq<byte>, b: byte)
    ensures Base128(s + [b]) == Base128(s) + Shl(b % 128, 7 * |s|)
  {
    if s == [] {
      assert s + [b] == [b] && Base128([b][1..]) == 0;
    } else {
      assert (s + [b])[1..] == s[1..] + [b];
      Base128Snoc(s[1..], b);
      ShlSeven(b % 128, 7 * |s[1..]|);
    }
  }

  lemma {:induction false} Base128Bound(s: seq<byte>)
    ensures Base128(s) < Pow2(7 * |s|)
  {
    if s != [] {
      Base128Bound(s[1..]);
      Pow2Seven(7 * |s[1..]|);
    }
  }

  lemma Pow2Seven(k: nat)
    ensures Pow2(k + 7) == 128 * Pow2(k)
  {
    assert Pow2(k + 1) == 2 * Pow2(k);
    assert Pow2(k + 2) == 2 * Pow2(k + 1);
    assert Pow2(k + 3) == 2 * Pow2(k + 2);
    assert Pow2(k + 4) == 2 * Pow2(k + 3);
    assert Pow2(k + 5) == 2 * Pow2(k + 4);
    assert Pow2(k + 6) == 2 * Pow2(k + 5);
    assert Pow2(k + 7) == 2 * Pow2(k + 6);
  }

  /** One round of the decoding loop takes in the next group, modulo 2^64. */
  lemma {:induction false} OneRound(s: seq<byte>, b: byte)
    ensures BitOr(Low(64, Base128(s)), Low(64, Shl(b % 128, 7 * |s|))) == Low(64, Base128(s + [b]))
  {
    hide Low, BitOr, Shl, Pow2, Base128;
    Base128Bound(s);
    Base128Snoc(s, b);
    OrShiftAdds(64, Base128(s), b % 128, 7 * |s|);
  }

  /** What UVarint reads at the front of s: the number modulo 2^64, and what is left. */
  function ReadUVarint(s: seq<byte>): Option<(nat, seq<byte>)> {
    match VarintLen(s)
    case None => None
    case Some(n) => Some((Low(64, Base128(s[..n])), s[n..]))
  }

  // ----- Encodings -----

  /** The encoder's side: 7 bits at a time, continuation bit on all groups but the last. */
  function Encode(v: nat): seq<byte> {
    if v < 128 then [v] else [v % 128 + 128] + Encode(v / 128)
  }

  function Concat(vs: seq<nat>): seq<byte> {
    if vs == [] then [] else Encode(vs[0]) + Concat(vs[1..])
  }

  /** Reading n varints one after the other. */
  function ReadMany(n: nat, s: seq<byte>): Option<(seq<nat>, seq<byte>)> {
    if n == 0 then Some(([], s))
    else match ReadUVarint(s)
      case None => None
      case Some((v, rest)) =>
        match ReadMany(n - 1, rest)
        case None => None
        case Some((vs, end)) => Some(([v] + vs, end))
  }

  lemma {:induction false} GroupInFront(b: byte, t: seq<byte>, suffix: seq<byte>)
    requires b >= 128 && VarintLen(t + suffix) == Some(|t|)
    ensures VarintLen([b] + t + suffix) == Some(|t| + 1)
    ensures Base128([b] + t) == b % 128 + 128 * Base128(t)
  {
    assert ([b] + t)[1..] == t;
    assert ([b] + t + suffix)[1..] == t + suffix;
  }

  lemma {:induction false} EncodeIsOneVarint(v: nat, suffix: seq<byte>)
    ensures VarintLen(Encode(v) + suffix) == Some(|Encode(v)|)
    ensures Base128(Encode(v)) == v
  {
    if v < 128 {
      assert Base128([v][1..]) == 0;
    } else {
      var t := Encode(v / 128);
      EncodeIsOneVarint(v / 128, suffix);
      GroupInFront(v % 128 + 128, t, suffix);
    }
  }

  /** Decoding undoes encoding for every 64-bit value, and leaves exactly what follows. */
  lemma {:induction false} UVarintRoundTrip(v: nat, suffix: seq<byte>)
    requires v < Pow2(64)
    ensures ReadUVarint(Encode(v) + suffix) == Some((v, suffix))
  {
    hide Low, Base128, Pow2, VarintLen, Encode;
    var e := Encode(v);
    EncodeIsOneVarint(v, suffix);
    assert (e + suffix)[..|e|] == e && (e + suffix)[|e|..] == suffix;
    LowIsWhole(64, v);
  }

  /** Any series of 64-bit values written one after the other is read back in order. */
  lemma {:induction false} StreamRoundTrip(vs: seq<nat>, suffix: seq<byte>)
    requires forall v <- vs :: v < Pow2(64)
    ensures ReadMany(|vs|, Concat(vs) + suffix) == Some((vs, suffix))
  {
    hide ReadUVarint;
    if vs == [] {
      assert Concat(vs) + suffix == suffix;
    } else {
      var rest := Concat(vs[1..]) + suffix;
      assert Concat(vs) + suffix == Encode(vs[0]) + rest;
      assert vs[0] in vs && forall v <- vs[1..] :: v in vs;
      UVarintRoundTrip(vs[0], rest);
      StreamRoundTrip(vs[1..], suffix);
      assert [vs[0]] + vs[1..] == vs;
    }
  }

  // ----- Zigzag -----

  /** Even words are the non-negative numbers, odd ones the complement of their half. */
  function Signed(u: nat): int {
    if u % 2 == 0 then u / 2 else -((u + 1) / 2)
  }

  function ZigZag(v: int): nat {
    if v >= 0 then 2 * v else 2 * (-v) - 1
  }

  /** Each n-bit word stands for one n-bit signed number and the other way round. */
  lemma ZigZagBijection(n: nat, u: nat, v: int)
    requires n > 0 && u < Pow2(n) && v < Pow2(n - 1) && -v <= Pow2(n - 1)
    ensures Signed(u) < Pow2(n - 1) && -Signed(u) <= Pow2(n - 1) && ZigZag(Signed(u)) == u
    ensures ZigZag(v) < Pow2(n) && Signed(ZigZag(v)) == v
  {
    assert Pow2(n) == 2 * Pow2(n - 1);
  }

  // ----- Fixed-width words -----

  /** Little-endian value of a byte sequence. */
  function LittleEndian(b: seq<byte>): (r: nat)
    ensures r < Pow2(8 * |b|)
  {
    if b == [] then 0
    else
      var r := LittleEndian(b[1..]);
      Pow2Eight(8 * |b[1..]|);
      assert 8 * |b| == 8 * |b[1..]| + 8;
      b[0] + 256 * r
  }

  lemma Pow2Eight(k: nat)
    ensures Pow2(k + 8) == 256 * Pow2(k)
  {
    Pow2Seven(k);
    assert Pow2(k + 8) == 2 * Pow2(k + 7);
  }

  function ToLittleEndian(n: nat, v: nat): (b: seq<byte>)
    ensures |b| == n
  {
    if n == 0 then [] else [v % 256] + ToLittleEndian(n - 1, v / 256)
  }

  lemma {:induction false} LittleEndianRoundTrip(n: nat, v: nat)
    requires v < Pow2(8 * n)
    ensures LittleEndian(ToLittleEndian(n, v)) == v
  {
    if n > 0 {
      Pow2Eight(8 * (n - 1));
      LittleEndianRoundTrip(n - 1, v / 256);
      var t := ToLittleEndian(n - 1, v / 256);
      var b: byte := v % 256;
      assert ([b] + t)[1..] == t;
    }
  }

  /** n bytes from the front, zeros where the data ran out (the buffer starts zeroed). */
  function Front(n: nat, s: seq<byte>): (b: seq<byte>)
    ensures |b| == n
    ensures forall i :: 0 <= i < n ==> b[i] == if i < |s| then s[i] else 0
  {
    if |s| >= n then s[..n] else s + seq(n - |s|, _ => 0)
  }

  // ----- The reader -----

  class Reader {
    /** What the underlying buffer still holds. */
    var data: seq<byte>
    var bytesRead: nat
    var err: Option<ReadError>

    constructor (s: seq<byte>)
      ensures data == s && bytesRead == 0 && err == None
    {
      data, bytesRead, err := s, 0, None;
    }

    /** n bytes have gone from the front, all counted. */
    twostate predicate Consumed(n: nat)
      reads this
    {
      n <= |old(data)| && data == old(data)[n..] && bytesRead == old(bytesRead) + n
    }

    /** Only the first error sticks. */
    method SetErr(e: ReadError)
      modifies this`err
      ensures err == if old(err).None? then Some(e) else old(err)
    {
      if err.None? { err := Some(e); }
    }

    method UVarint() returns (u: nat)
      modifies this
      ensures match ReadUVarint(old(data))
              case Some((v, rest)) =>
                u == v && data == rest && Consumed(VarintLen(old(data)).value) && err == old(err)
              case None =>
                u == 0 && Consumed(|old(data)|) && err == if old(err).None? then Some(EOF) else old(err)
    {
      hide Low, BitOr, Shl, Base128, Pow2, VarintLen, ReadUVarint;
      ghost var input := data;
      ghost var k := 0;
      var i: nat := 0;
      u := 0;
      LowOfEmpty();
      while true
        invariant k <= |input| && data == input[k..] && i == 7 * k
        invariant bytesRead == old(bytesRead) + k && err == old(err)
        invariant u == Low(64, Base128(input[..k]))
        invariant forall j :: 0 <= j < k ==> input[j] >= 128
        decreases |data|
      {
        if data == [] {
          NoLastByte(input);
          SetErr(EOF);
          u := 0;
          return;
        }
        var b := data[0];
        data, bytesRead := data[1..], bytesRead + 1;
        OneRound(input[..k], b);
        u := BitOr(u, Low(64, Shl(b % 128, i)));
        k := k + 1;
        assert input[..k - 1] + [b] == input[..k];
        if b < 128 {
          ReadsUpTo(input, k);
          return;
        }
        i := i + 7;
      }
    }

    method Varint() returns (v: int)
      modifies this
      ensures match ReadUVarint(old(data))
              case Some((w, rest)) =>
                v == Signed(w) && data == rest && Consumed(VarintLen(old(data)).value) && err == old(err)
              case None =>
                v == 0 && Consumed(|old(data)|) && err == if old(err).None? then Some(EOF) else old(err)
    {
      hide ReadUVarint, VarintLen;
      var u := UVarint();
      v := Signed(u);
    }

    /** Fills a buffer of n zero bytes: a short stream leaves zeros at its end and records the error. */
    method Bytes(n: nat) returns (b: seq<byte>)
      modifies this
      ensures b == Front(n, old(data))
      ensures Consumed(if n <= |old(data)| then n else |old(data)|)
      ensures err == if n <= |old(data)| || old(err).Some? then old(err)
                     else if old(data) == [] then Some(EOF) else Some(UnexpectedEOF)
    {
      if n <= |data| {
        b := data[..n];
        data, bytesRead := data[n..], bytesRead + n;
      } else {
        b := data + seq(n - |data|, _ => 0);
        var empty := data == [];
        data, bytesRead := [], bytesRead + |data|;
        SetErr(if empty then EOF else UnexpectedEOF);
      }
    }

    /** Int32 (n == 4) and Int64 (n == 8): a little-endian word read as zigzag. */
    method FixedInt(n: nat) returns (v: int)
      modifies this
      ensures v == Signed(LittleEndian(Front(n, old(data))))
      ensures Consumed(if n <= |old(data)| then n else |old(data)|)
      ensures err == if n <= |old(data)| || old(err).Some? then old(err)
                     else if old(data) == [] then Some(EOF) else Some(UnexpectedEOF)
    {
      var b := Bytes(n);
      var u := LittleEndian(b);
      v := Signed(u);
    }

    /** A byte string: its length as a varint, then its bytes. A length of 2^63 or more panics (ok is false). */
    method ByteString() returns (ok: bool, b: seq<byte>)
      modifies this
      ensures match ReadUVarint(old(data))
              case None => ok && b == [] && Consumed(|old(data)|)
              case Some((size, rest)) =>
                ok == (size < Pow2(63)) &&
                (ok ==> b == Front(size, rest) && data == rest[if size <= |rest| then size else |rest|..]) &&
                (ok ==> bytesRead == old(bytesRead) + |old(data)| - |data|) &&
                (ok && size <= |rest| ==> err == old(err))
    {
      hide VarintLen, Low, Base128;
      var size := UVarint();
      ok, b := size < Pow2(63), [];
      if size > 0 && ok { b := Bytes(size); }
    }
  }

  lemma LowOfEmpty()
    ensures Low(64, Base128([])) == 0 && Base128([]) == 0
  {
    LowIsWhole(64, 0) by { assert 0 < Pow2(64); }
  }

  lemma {:induction false} NoLastByte(s: seq<byte>)
    requires forall k :: 0 <= k < |s| ==> s[k] >= 128
    ensures VarintLen(s) == None && ReadUVarint(s) == None
  {
    if s != [] { NoLastByte(s[1..]); }
  }

  lemma {:induction false} LastByte(s: seq<byte>, b: byte, rest: seq<byte>)
    requires b < 128 && forall k :: 0 <= k < |s| ==> s[k] >= 128
    ensures VarintLen(s + [b] + rest) == Some(|s| + 1)
  {
    if s != [] {
      LastByte(s[1..], b, rest);
      assert (s + [b] + rest)[1..] == s[1..] + [b] + rest;
    }
  }

  lemma {:induction false} ReadsUpTo(s: seq<byte>, n: nat)
    requires 0 < n <= |s| && s[n - 1] < 128 && forall k :: 0 <= k < n - 1 ==> s[k] >= 128
    ensures VarintLen(s) == Some(n)
    ensures ReadUVarint(s) == Some((Low(64, Base128(s[..n])), s[n..]))
  {
    hide Low, Base128, VarintLen;
    assert s == s[..n - 1] + [s[n - 1]] + s[n..];
    LastByte(s[..n - 1], s[n - 1], s[n..]);
  }

  /** A byte string written as length and bytes is read back whole, whatever follows it. */
  method ByteStringRoundTrip(b: seq<byte>, suffix: seq<byte>) returns (r: seq<byte>, rest: seq<byte>)
    requires |b| < Pow2(63)
    ensures r == b && rest == suffix
  {
    hide Low, Base128, VarintLen, Encode, ReadUVarint;
    assert |b| < Pow2(64) by { assert Pow2(64) == 2 * Pow2(63); }
    UVarintRoundTrip(|b|, b + suffix);
    assert Encode(|b|) + (b + suffix) == Encode(|b|) + b + suffix;
    assert (b + suffix)[..|b|] == b && (b + suffix)[|b|..] == suffix;
    var tr := new Reader(Encode(|b|) + b + suffix);
    var ok;
    ok, r := tr.ByteString();
    rest := tr.data;
  }
}
