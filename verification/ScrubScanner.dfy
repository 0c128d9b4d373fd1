/** The JSON tokenizer of pkg/scrub/scanner.go.

    The first half is a specification: what one scan step yields, as a function of the input, the
    reading position and the stack of open brackets.  The second half is the scanner itself, with its
    one-byte pushback slot, proved against that specification for every byte string. */
module ScrubScanner {
  import opened Common

  const NUL: byte := 0
  const TAB: byte := 9
  const LF: byte := 10
  const CR: byte := 13
  const SPACE: byte := 32
  const QUOTE: byte := 34
  const COMMA: byte := 44
  const COLON: byte := 58
  const LBRACKET: byte := 91
  const BACKSLASH: byte := 92
  const RBRACKET: byte := 93
  const LBRACE: byte := 123
  const RBRACE: byte := 125

  predicate IsWs(b: byte) {
    b == SPACE || b == TAB || b == LF || b == CR
  }

  /** Bytes that end a bare literal and are pushed back for the next token. */
  predicate IsDelimiter(b: byte) {
    IsWs(b) || b == QUOTE || b == COMMA || b == COLON || b == LBRACE || b == LBRACKET || b == RBRACKET || b == RBRACE
  }

  /** The bytes with a meaning are those of section 2 of RFC 8259. */
  lemma BytesAreJson(b: byte)
    ensures IsWs(b) <==> b in {' ' as int, '\t' as int, '\n' as int, '\r' as int}
    ensures [QUOTE, COMMA, COLON, BACKSLASH] == ['"' as int, ',' as int, ':' as int, '\\' as int]
    ensures [LBRACE, RBRACE, LBRACKET, RBRACKET] == ['{' as int, '}' as int, '[' as int, ']' as int]
    ensures IsDelimiter(b) <==> IsWs(b) || b in {QUOTE, COMMA, COLON, LBRACE, RBRACE, LBRACKET, RBRACKET}
  {
  }

  datatype Token = Unknown | ObjectBegin | ObjectEnd | ArrayBegin | ArrayEnd | Literal

  datatype Item = Item(from: nat, to: nat, tok: Token, isMapKey: bool)

  const NoItem := Item(0, 0, Unknown, false)

  datatype ScanState = ScanState(tok: Token, isKey: bool)

  // ----- Specification -----

  /** First position at or after p that does not hold whitespace. */
  function SkipWs(s: seq<byte>, p: nat): (q: nat)
    requires p <= |s|
    ensures p <= q <= |s|
    ensures q < |s| ==> !IsWs(s[q])
    ensures forall k :: p <= k < q ==> IsWs(s[k])
    decreases |s| - p
  {
    if p < |s| && IsWs(s[p]) then SkipWs(s, p + 1) else p
  }

  /** The next significant byte and the position after it; 0 at the end of the input. */
  function ReadTok(s: seq<byte>, p: nat): (r: (byte, nat))
    requires p <= |s|
  {
    var q := SkipWs(s, p);
    if q == |s| then (NUL, q) else (s[q], q + 1)
  }

  /** Peeking skips whitespace for good, and also swallows a NUL byte. */
  function PeekTok(s: seq<byte>, p: nat): (r: (byte, nat))
    requires p <= |s|
    ensures p <= r.1 <= |s|
  {
    var (b, q) := ReadTok(s, p);
    if b != NUL then (b, q - 1) else (b, q)
  }

  /** Where a quoted string ends when its remaining characters start at p. */
  function StringEnd(s: seq<byte>, p: nat): (e: nat)
    requires p <= |s|
    ensures p <= e <= |s|
    decreases |s| - p
  {
    if p == |s| then p
    else if s[p] == BACKSLASH then (if p + 1 == |s| then |s| else StringEnd(s, p + 2))
    else if s[p] == QUOTE || s[p] == NUL then p + 1
    else if s[p] == LF || s[p] == CR then p
    else StringEnd(s, p + 1)
  }

  /** Where a bare literal ends when its remaining characters start at p. */
  function LiteralEnd(s: seq<byte>, p: nat): (e: nat)
    requires p <= |s|
    ensures p <= e <= |s|
    decreases |s| - p
  {
    if p == |s| || IsDelimiter(s[p]) then p
    else if s[p] == NUL then p + 1
    else LiteralEnd(s, p + 1)
  }

  /** Outcome of scanning one item: the item without its key flag, the separators seen around it, the
      new position, and whether the end of the input was hit without finding a token. */
  datatype Scan1 = Scan1(it: Item, pre: byte, post: byte, p: nat, eof: bool)

  function ScanOne(s: seq<byte>, p: nat, pre: byte): (r: Scan1)
    requires p <= |s|
    ensures p <= r.p <= |s|
    ensures !r.eof ==> p < r.p
    ensures r.eof ==> r.it.tok == Unknown
    ensures r.it.tok != Unknown ==> p <= r.it.from < r.it.to == r.p
    ensures r.it.tok == Unknown ==> r.it == NoItem
    ensures !r.it.isMapKey
    decreases |s| - p
  {
    var (c, p1) := ReadTok(s, p);
    var (post, p2) := PeekTok(s, p1);
    if c == QUOTE then
      var e := StringEnd(s, p2);
      Scan1(Item(p2 - 1, e, Literal, false), pre, post, e, false)
    else if c == LBRACE then Scan1(Item(p2 - 1, p2, ObjectBegin, false), pre, post, p2, false)
    else if c == RBRACE then Scan1(Item(p2 - 1, p2, ObjectEnd, false), pre, post, p2, false)
    else if c == LBRACKET then Scan1(Item(p2 - 1, p2, ArrayBegin, false), pre, post, p2, false)
    else if c == RBRACKET then Scan1(Item(p2 - 1, p2, ArrayEnd, false), pre, post, p2, false)
    else if c == COLON || c == COMMA then ScanOne(s, p2, c)
    else if c == NUL then Scan1(NoItem, pre, post, p2, SkipWs(s, p1) == |s|)
    else
      var e := LiteralEnd(s, p2);
      Scan1(Item(p2 - 1, e, Literal, false), pre, post, e, false)
  }

  predicate Opens(t: Token) { t == ObjectBegin || t == ArrayBegin }
  predicate Closes(t: Token) { t == ObjectEnd || t == ArrayEnd }

  predicate InObject(stack: seq<ScanState>) {
    |stack| > 0 && stack[|stack| - 1].tok == ObjectBegin
  }

  /** The key flag of the innermost object after an item with the given surroundings. */
  function KeyFlag(isKey: bool, tok: Token, pre: byte, post: byte): bool {
    if post == COLON then true
    else if pre == COLON then false
    else if Opens(tok) || tok == Literal then !isKey
    else isKey
  }

  function Flagged(stack: seq<ScanState>, r: Scan1): Item {
    if InObject(stack) then r.it.(isMapKey := KeyFlag(stack[|stack| - 1].isKey, r.it.tok, r.pre, r.post)) else r.it
  }

  /** The stack after the key flag is updated and the item has opened or closed a bracket. */
  function NextStack(stack: seq<ScanState>, r: Scan1): seq<ScanState> {
    var n := |stack|;
    var st := if InObject(stack)
              then stack[n - 1 := stack[n - 1].(isKey := KeyFlag(stack[n - 1].isKey, r.it.tok, r.pre, r.post))]
              else stack;
    if Opens(r.it.tok) then st + [ScanState(r.it.tok, false)]
    else if Closes(r.it.tok) && n > 0 then st[..n - 1]
    else st
  }

  /** All items the scanner reports from position p on, a separator `pre` having just been read. */
  function ItemsFrom(s: seq<byte>, p: nat, stack: seq<ScanState>, pre: byte): (ts: seq<Item>)
    requires p <= |s|
    decreases |s| - p
  {
    var r := ScanOne(s, p, pre);
    if r.eof then [] else [Flagged(stack, r)] + ItemsFrom(s, r.p, NextStack(stack, r), NUL)
  }

  function Items(s: seq<byte>): seq<Item> {
    ItemsFrom(s, 0, [], NUL)
  }

  /** The known tokens of ts lie between lo and hi, each non-empty and after the one before it. */
  predicate Chained(ts: seq<Item>, lo: nat, hi: nat) {
    if ts == [] then lo <= hi
    else if ts[0].tok == Unknown then Chained(ts[1..], lo, hi)
    else lo <= ts[0].from < ts[0].to && Chained(ts[1..], ts[0].to, hi)
  }

  lemma ChainedWeaken(ts: seq<Item>, lo: nat, lo': nat, hi: nat)
    requires lo' <= lo && Chained(ts, lo, hi)
    ensures Chained(ts, lo', hi)
  {
  }

  /** Whatever the bytes, token spans are non-empty, inside the input, ordered and disjoint. */
  lemma {:induction false} ItemsAreChained(s: seq<byte>, p: nat, stack: seq<ScanState>, pre: byte)
    requires p <= |s|
    ensures Chained(ItemsFrom(s, p, stack, pre), p, |s|)
    decreases |s| - p
  {
    var r := ScanOne(s, p, pre);
    if !r.eof {
      ItemsAreChained(s, r.p, NextStack(stack, r), NUL);
      var ts := ItemsFrom(s, p, stack, pre);
      assert ts[1..] == ItemsFrom(s, r.p, NextStack(stack, r), NUL);
      if r.it.tok == Unknown { ChainedWeaken(ts[1..], r.p, p, |s|); }
    }
  }

  // ----- The scanner -----

  class Scanner {
    const input: seq<byte>
    var readPos: nat       // bytes handed out by the underlying reader
    var it: Item
    var err: bool          // the reader reported io.EOF
    var pos: nat
    var lastRead: byte
    var unreadByte: byte   // pushed-back byte, or 0 if none
    var stack: seq<ScanState>

    ghost predicate Valid()
      reads this
    {
      && pos <= readPos <= |input|
      && (unreadByte == NUL ==> readPos == pos)
      && (unreadByte != NUL ==> readPos == pos + 1 && unreadByte == input[pos])
      && (err ==> pos == |input|)
    }

    /** The byte just read is input[pos - 1] and can be pushed back. */
    ghost predicate CanUnread()
      reads this
    {
      Valid() && !err && unreadByte == NUL && 0 < pos && lastRead == input[pos - 1] && lastRead != NUL
    }

    constructor (input: seq<byte>)
      ensures Valid() && this.input == input && pos == 0 && stack == []
    {
      this.input := input;
      readPos, pos, it, err := 0, 0, NoItem, false;
      lastRead, unreadByte, stack := NUL, NUL, [];
    }

    method ReadByte() returns (b: byte)
      requires Valid()
      modifies this
      ensures Valid() && stack == old(stack) && it == old(it)
      ensures old(pos) == |input| ==> b == NUL && pos == |input| && err
      ensures old(pos) < |input| ==> b == input[old(pos)] && pos == old(pos) + 1 && !err
      ensures b != NUL ==> CanUnread()
    {
      if unreadByte != NUL {
        b := unreadByte;
        lastRead, unreadByte, pos := b, NUL, pos + 1;
        return;
      }
      if err { return NUL; }
      if readPos == |input| {
        err := true;
        b := NUL;
      } else {
        b := input[readPos];
        readPos, lastRead, pos := readPos + 1, b, pos + 1;
      }
    }

    /** The precondition is what keeps the "cannot unread multiple bytes in a row" panic out of reach. */
    method Unread()
      requires CanUnread()
      modifies this
      ensures Valid() && pos == old(pos) - 1 && err == old(err) && stack == old(stack) && it == old(it)
    {
      unreadByte := lastRead;
      pos := pos - 1;
    }

    method ReadToken() returns (b: byte)
      requires Valid()
      modifies this
      ensures Valid() && stack == old(stack) && it == old(it)
      ensures (b, pos) == ReadTok(input, old(pos))
      ensures err == (SkipWs(input, old(pos)) == |input|)
      ensures b != NUL ==> CanUnread()
    {
      b := ReadByte();
      while IsWs(b)
        invariant Valid() && stack == old(stack) && it == old(it)
        invariant b != NUL ==> CanUnread()
        invariant old(pos) <= pos
        invariant err ==> b == NUL && SkipWs(input, old(pos)) == |input|
        invariant !err ==> old(pos) < pos && b == input[pos - 1] && SkipWs(input, old(pos)) == SkipWs(input, pos - 1)
        decreases |input| - pos, b
      {
        b := ReadByte();
      }
    }

    method PeekToken() returns (b: byte)
      requires Valid()
      modifies this
      ensures Valid() && stack == old(stack) && it == old(it)
      ensures (b, pos) == PeekTok(input, old(pos))
      ensures err == (SkipWs(input, old(pos)) == |input|)
    {
      b := ReadToken();
      if b != NUL { Unread(); }
    }

    method ScanString() returns (r: Item)
      requires Valid() && 0 < pos
      modifies this
      ensures Valid() && stack == old(stack)
      ensures pos == StringEnd(input, old(pos)) && r == Item(old(pos) - 1, pos, Literal, false)
    {
      var from := pos - 1;
      while true
        invariant Valid() && stack == old(stack) && from == old(pos) - 1
        invariant StringEnd(input, pos) == StringEnd(input, old(pos))
        decreases |input| - pos
      {
        ghost var p := pos;
        var b := ReadByte();
        if b == BACKSLASH {
          var _ := ReadByte();
          continue;
        }
        if b == QUOTE || b == NUL {
          return Item(from, pos, Literal, false);
        } else if b == LF || b == CR {
          Unread();
          return Item(from, pos, Literal, false);
        }
      }
    }

    method ScanLiteral() returns (r: Item)
      requires Valid() && 0 < pos
      modifies this
      ensures Valid() && stack == old(stack)
      ensures pos == LiteralEnd(input, old(pos)) && r == Item(old(pos) - 1, pos, Literal, false)
    {
      var from := pos - 1;
      while true
        invariant Valid() && stack == old(stack) && from == old(pos) - 1
        invariant LiteralEnd(input, pos) == LiteralEnd(input, old(pos))
        decreases |input| - pos
      {
        var b := ReadByte();
        if b == NUL {
          return Item(from, pos, Literal, false);
        } else if IsDelimiter(b) {
          Unread();
          return Item(from, pos, Literal, false);
        }
      }
    }

    method ScanOneItem() returns (r: Item, pre: byte, post: byte)
      requires Valid()
      modifies this
      ensures Valid() && stack == old(stack)
      ensures var one := ScanOne(input, old(pos), NUL);
              (r, pre, post, pos) == (one.it, one.pre, one.post, one.p) && (r.tok == Unknown ==> err == one.eof)
    {
      hide StringEnd, LiteralEnd, SkipWs;
      pre := NUL;
      while true
        invariant Valid() && stack == old(stack)
        invariant ScanOne(input, pos, pre) == ScanOne(input, old(pos), NUL)
        decreases |input| - pos
      {
        var c := ReadToken();
        post := PeekToken();
        if c == QUOTE {
          r := ScanString();
          return;
        } else if c == LBRACE {
          return Item(pos - 1, pos, ObjectBegin, false), pre, post;
        } else if c == RBRACE {
          return Item(pos - 1, pos, ObjectEnd, false), pre, post;
        } else if c == LBRACKET {
          return Item(pos - 1, pos, ArrayBegin, false), pre, post;
        } else if c == RBRACKET {
          return Item(pos - 1, pos, ArrayEnd, false), pre, post;
        } else if c == COLON || c == COMMA {
          pre := c;
        } else if c == NUL {
          return NoItem, pre, post;
        } else {
          r := ScanLiteral();
          return;
        }
      }
    }

    method ScanItem() returns (r: Item)
      requires Valid()
      modifies this
      ensures Valid()
      ensures var one := ScanOne(input, old(pos), NUL);
              r == Flagged(old(stack), one) && pos == one.p && stack == NextStack(old(stack), one)
              && (r.tok == Unknown ==> err == one.eof)
    {
      hide ScanOne;
      var pre, post;
      r, pre, post := ScanOneItem();
      var n := |stack|;
      if n > 0 && stack[n - 1].tok == ObjectBegin {
        var isKey := stack[n - 1].isKey;
        if Opens(r.tok) || r.tok == Literal { isKey := !isKey; }
        if post == COLON {
          isKey := true;
        } else if pre == COLON {
          isKey := false;
        }
        stack := stack[n - 1 := stack[n - 1].(isKey := isKey)];
        r := r.(isMapKey := isKey);
      }
      if Opens(r.tok) {
        stack := stack + [ScanState(r.tok, false)];
      } else if Closes(r.tok) && n > 0 {
        stack := stack[..n - 1];
      }
    }

    /** Next reports exactly the items of ItemsFrom, one at a time, and false once they are used up. */
    method Next() returns (more: bool)
      requires Valid()
      modifies this
      ensures Valid()
      ensures var todo := ItemsFrom(input, old(pos), old(stack), NUL);
              more == (todo != []) &&
              (more ==> it == todo[0] && ItemsFrom(input, pos, stack, NUL) == todo[1..]) &&
              (!more ==> ItemsFrom(input, pos, stack, NUL) == [])
    {
      hide ScanOne;
      it := ScanItem();
      more := !err || it.tok != Unknown;
    }
  }
}
