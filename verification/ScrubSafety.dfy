/** What holds of the scrubber on every byte string, well-formed or not: the reported bounds can always
    be spliced, the splice has the precomputed length, and exactly which inputs make it spin. */
module ScrubSafety {
  import opened Common
  import opened ScrubScanner
  import opened ScrubPaths
  import opened ScrubStream

  /** Non-empty bounds between lo and hi, in order and disjoint. */
  predicate Ordered(bs: seq<Bounds>, lo: nat, hi: nat) {
    if bs == [] then lo <= hi
    else lo <= bs[0].from < bs[0].to && Ordered(bs[1..], bs[0].to, hi)
  }

  lemma {:induction false} OrderedConcat(a: seq<Bounds>, b: seq<Bounds>, lo: nat, mid: nat, hi: nat)
    requires Ordered(a, lo, mid) && Ordered(b, mid, hi)
    ensures Ordered(a + b, lo, hi)
  {
    if a == [] {
      assert a + b == b;
      if b == [] {} else { assert lo <= b[0].from; }
    } else {
      assert (a + b)[1..] == a[1..] + b;
      OrderedConcat(a[1..], b, a[0].to, mid, hi);
    }
  }

  lemma ChainedOrder(ts: seq<Item>, lo: nat, hi: nat)
    requires Chained(ts, lo, hi)
    ensures lo <= hi
  {
  }

  /** Skipping ends after an item that starts no earlier than where skipping began. */
  lemma {:induction false} SkipChained(ts: seq<Item>, depth: int, lo: nat, hi: nat)
    requires Chained(ts, lo, hi) && SkipFrom(ts, depth).Skipped?
    requires ts[0].tok != Unknown || depth > 0
    ensures var k := SkipFrom(ts, depth); lo < k.end && Chained(k.rest, k.end, hi)
  {
    if depth + Delta(ts[0].tok) > 0 {
      SkipChained(ts[1..], depth + Delta(ts[0].tok), if ts[0].tok == Unknown then lo else ts[0].to, hi);
    }
  }

  /** mid separates what a walk reports from the items it leaves. */
  ghost predicate Splits(w: Walk, lo: nat, mid: nat, hi: nat) {
    w.Walked? ==> Ordered(w.out, lo, mid) && Chained(w.rest, mid, hi)
  }

  lemma {:induction false} WalkValueOrdered(input: seq<byte>, ts: seq<Item>, nodes: seq<Node>, lo: nat,
                                            hi: nat) returns (mid: nat)
    requires !AtEnd(ts) && Chained(ts, lo, hi)
    ensures Splits(WalkValue(input, ts, nodes), lo, mid, hi)
    decreases |ts|, 0
  {
    mid := lo;
    if ScrubNow(nodes) || nodes == [] {
      if SkipFrom(ts, 0).Skipped? {
        SkipChained(ts, 0, ts[0].from, hi);
        mid := SkipFrom(ts, 0).end;
      }
    } else if ts[0].tok == ObjectBegin {
      ChainedWeaken(ts[1..], ts[0].to, lo, hi);
      mid := WalkObjectOrdered(input, ts[1..], nodes, lo, hi);
    } else if ts[0].tok == ArrayBegin {
      ChainedWeaken(ts[1..], ts[0].to, lo, hi);
      mid := WalkArrayOrdered(input, ts[1..], nodes, lo, hi);
    } else {
      ChainedWeaken(ts[1..], ts[0].to, lo, hi);
    }
  }

  lemma {:induction false} WalkArrayOrdered(input: seq<byte>, ts: seq<Item>, nodes: seq<Node>, lo: nat,
                                            hi: nat) returns (mid: nat)
    requires Chained(ts, lo, hi)
    ensures Splits(WalkArray(input, ts, nodes), lo, mid, hi)
    decreases |ts|, 1
  {
    mid := lo;
    if AtEnd(ts) {
    } else if ts[0].tok == ArrayEnd {
      ChainedWeaken(ts[1..], ts[0].to, lo, hi);
    } else {
      var m := WalkValueOrdered(input, ts, nodes, lo, hi);
      var v := WalkValue(input, ts, nodes);
      if v.Walked? {
        mid := WalkArrayOrdered(input, v.rest, nodes, m, hi);
        var w := WalkArray(input, v.rest, nodes);
        if w.Walked? { OrderedConcat(v.out, w.out, lo, m, mid); }
      }
    }
  }

  lemma {:induction false} WalkObjectOrdered(input: seq<byte>, ts: seq<Item>, nodes: seq<Node>, lo: nat,
                                             hi: nat) returns (mid: nat)
    requires Chained(ts, lo, hi)
    ensures Splits(WalkObject(input, ts, nodes), lo, mid, hi)
    decreases |ts|, 2
  {
    mid := lo;
    if AtEnd(ts) {
    } else if ts[0].tok == ObjectEnd {
      ChainedWeaken(ts[1..], ts[0].to, lo, hi);
    } else {
      var m := WalkMemberOrdered(input, ts, nodes, lo, hi);
      var v := WalkMember(input, ts, nodes);
      if v.Walked? {
        mid := WalkObjectOrdered(input, v.rest, nodes, m, hi);
        var w := WalkObject(input, v.rest, nodes);
        if w.Walked? { OrderedConcat(v.out, w.out, lo, m, mid); }
      }
    }
  }

  lemma {:induction false} WalkMemberOrdered(input: seq<byte>, ts: seq<Item>, nodes: seq<Node>, lo: nat,
                                             hi: nat) returns (mid: nat)
    requires !AtEnd(ts) && Chained(ts, lo, hi)
    ensures Splits(WalkMember(input, ts, nodes), lo, mid, hi)
    decreases |ts|, 1
  {
    var curr, value := CurrNodes(nodes, ts[0]), ValueNodes(input, nodes, ts[0]);
    mid := WalkValueOrdered(input, ts, curr, lo, hi);
    var k := WalkValue(input, ts, curr);
    if k.Walked? && IsMapValue(k.rest) {
      var m := mid;
      mid := WalkValueOrdered(input, k.rest, value, m, hi);
      var v := WalkValue(input, k.rest, value);
      if v.Walked? { OrderedConcat(k.out, v.out, lo, m, mid); }
    }
  }

  lemma {:induction false} WalkAllOrdered(input: seq<byte>, ts: seq<Item>, nodes: seq<Node>, lo: nat, hi: nat)
    requires Chained(ts, lo, hi)
    ensures var w := WalkAll(input, ts, nodes); w.Walked? ==> Ordered(w.out, lo, hi)
    decreases |ts|
  {
    if AtEnd(ts) {
      ChainedOrder(ts, lo, hi);
    } else {
      var m := WalkValueOrdered(input, ts, nodes, lo, hi);
      var v := WalkValue(input, ts, nodes);
      if v.Walked? {
        WalkAllOrdered(input, v.rest, nodes, m, hi);
        var w := WalkAll(input, v.rest, nodes);
        if w.Walked? { OrderedConcat(v.out, w.out, lo, m, hi); }
      }
    }
  }

  /** For every input and every list of paths, the bounds are non-empty, inside the input, strictly
      ordered and disjoint. */
  lemma {:induction false} BoundsAreOrdered(input: seq<byte>, paths: seq<Path>)
    ensures Indices(input, paths).Found? ==> Ordered(Indices(input, paths).bounds, 0, |input|)
  {
    ItemsAreChained(input, 0, [], NUL);
    WalkAllOrdered(input, Items(input), GroupNodes(paths), 0, |input|);
  }

  // ----- Splicing -----

  /** The stretch from lo to hi with every one of the bounds in it replaced. */
  function Splice(input: seq<byte>, bs: seq<Bounds>, replacement: seq<byte>, lo: nat, hi: nat): (r: seq<byte>)
    requires Ordered(bs, lo, hi) && hi <= |input|
  {
    OrderedFits(bs, lo, hi);
    if bs == [] then input[lo..hi]
    else
      OrderedFits(bs[1..], bs[0].to, hi);
      input[lo..bs[0].from] + replacement + Splice(input, bs[1..], replacement, bs[0].to, hi)
  }

  lemma {:induction false} SpliceFirst(input: seq<byte>, bs: seq<Bounds>, replacement: seq<byte>, lo: nat, hi: nat)
    requires bs != [] && Ordered(bs, lo, hi) && hi <= |input|
    ensures lo <= bs[0].from <= bs[0].to <= hi && Ordered(bs[1..], bs[0].to, hi)
    ensures Splice(input, bs, replacement, lo, hi)
            == input[lo..bs[0].from] + replacement + Splice(input, bs[1..], replacement, bs[0].to, hi)
  {
    OrderedFits(bs[1..], bs[0].to, hi);
  }

  /** A stretch may be started earlier, at text that is kept. */
  lemma {:induction false} SpliceEarlier(input: seq<byte>, bs: seq<Bounds>, replacement: seq<byte>,
                                         lo: nat, mid: nat, hi: nat)
    requires lo <= mid && Ordered(bs, mid, hi) && Ordered(bs, lo, hi) && hi <= |input|
    ensures mid <= hi
    ensures Splice(input, bs, replacement, lo, hi) == input[lo..mid] + Splice(input, bs, replacement, mid, hi)
  {
    OrderedFits(bs, mid, hi);
    if bs == [] {
      assert input[lo..hi] == input[lo..mid] + input[mid..hi];
    } else {
      hide Splice, Ordered;
      SpliceFirst(input, bs, replacement, lo, hi);
      SpliceFirst(input, bs, replacement, mid, hi);
      assert input[lo..bs[0].from] == input[lo..mid] + input[mid..bs[0].from];
    }
  }

  /** Splicing two neighbouring stretches one after the other splices both. */
  lemma {:induction false} SpliceConcat(input: seq<byte>, a: seq<Bounds>, b: seq<Bounds>, replacement: seq<byte>,
                                        lo: nat, mid: nat, hi: nat)
    requires Ordered(a, lo, mid) && Ordered(b, mid, hi) && hi <= |input|
    ensures Ordered(a + b, lo, hi)
    ensures mid <= |input| && Splice(input, a + b, replacement, lo, hi)
                           == Splice(input, a, replacement, lo, mid) + Splice(input, b, replacement, mid, hi)
    decreases |a|
  {
    OrderedConcat(a, b, lo, mid, hi);
    OrderedFits(a, lo, mid);
    OrderedFits(b, mid, hi);
    if a == [] {
      assert a + b == b;
      SpliceEarlier(input, b, replacement, lo, mid, hi);
    } else {
      SpliceConcatStep(input, a, b, replacement, lo, mid, hi);
    }
  }

  lemma {:induction false} SpliceConcatStep(input: seq<byte>, a: seq<Bounds>, b: seq<Bounds>, replacement: seq<byte>,
                                            lo: nat, mid: nat, hi: nat)
    requires a != [] && Ordered(a, lo, mid) && Ordered(b, mid, hi) && Ordered(a + b, lo, hi)
    requires mid <= hi <= |input|
    ensures Splice(input, a + b, replacement, lo, hi)
            == Splice(input, a, replacement, lo, mid) + Splice(input, b, replacement, mid, hi)
    decreases |a|, 0
  {
    hide Splice, Ordered;
    SpliceFirst(input, a, replacement, lo, mid);
    SpliceFirst(input, a + b, replacement, lo, hi);
    assert (a + b)[0] == a[0] && (a + b)[1..] == a[1..] + b;
    SpliceConcat(input, a[1..], b, replacement, a[0].to, mid, hi);
  }

  lemma OrderedFits(bs: seq<Bounds>, lo: nat, hi: nat)
    requires Ordered(bs, lo, hi)
    ensures lo <= hi
  {
  }

  /** Length of the result as the source computes it up front. */
  function NewLen(len: int, bs: seq<Bounds>, replacementLen: nat): int
    decreases |bs|
  {
    if bs == [] then len
    else NewLen(len - (bs[0].to - bs[0].from) + replacementLen, bs[1..], replacementLen)
  }

  lemma {:induction false} NewLenIsSpliceLen(input: seq<byte>, bs: seq<Bounds>, replacement: seq<byte>, at: nat,
                                             len: int)
    requires Ordered(bs, at, |input|) && at <= |input|
    ensures NewLen(len, bs, |replacement|) == len - (|input| - at) + |Splice(input, bs, replacement, at, |input|)|
  {
    if bs != [] {
      OrderedFits(bs[1..], bs[0].to, |input|);
      NewLenIsSpliceLen(input, bs[1..], replacement, bs[0].to, len - (bs[0].to - bs[0].from) + |replacement|);
    }
  }

  /** Copies as much of src into dst[at..] as fits, as Go's copy does. */
  method Copy(dst: array<byte>, at: nat, src: seq<byte>) returns (n: nat)
    requires at <= dst.Length
    modifies dst
    ensures n == if |src| <= dst.Length - at then |src| else dst.Length - at
    ensures dst[..] == old(dst[..at]) + src[..n] + old(dst[at + n..])
  {
    n := if |src| <= dst.Length - at then |src| else dst.Length - at;
    for i := 0 to n
      invariant dst[..at] == old(dst[..at])
      invariant dst[at..at + i] == src[..i]
      invariant dst[at + i..] == old(dst[at + i..])
    {
      dst[at + i] := src[i];
    }
    assert dst[..] == dst[..at] + dst[at..at + n] + dst[at + n..];
  }

  /** The buffer of the precomputed length is filled exactly: no copy is cut short, no byte is left over. */
  method ScrubBytes(input: seq<byte>, indices: seq<Bounds>, replaceWith: seq<byte>) returns (scrubbed: seq<byte>)
    requires Ordered(indices, 0, |input|)
    ensures scrubbed == Splice(input, indices, replaceWith, 0, |input|)
  {
    if |indices| == 0 { return input; }
    var newLen := |input|;
    for i := 0 to |indices|
      invariant NewLen(newLen, indices[i..], |replaceWith|) == NewLen(|input|, indices, |replaceWith|)
    {
      assert indices[i..][1..] == indices[i + 1..];
      newLen := newLen - (indices[i].to - indices[i].from) + |replaceWith|;
    }
    NewLenIsSpliceLen(input, indices, replaceWith, 0, |input|);
    var buf := new byte[newLen];
    var prevEnd: nat, dst: nat, i: nat := 0, 0, 0;
    ghost var full := Splice(input, indices, replaceWith, 0, |input|);
    while i < |indices|
      invariant i <= |indices| && prevEnd <= |input| && dst <= newLen
      invariant Ordered(indices[i..], prevEnd, |input|)
      invariant buf[..dst] + Splice(input, indices[i..], replaceWith, prevEnd, |input|) == full
    {
      assert indices[i..][1..] == indices[i + 1..];
      OrderedFits(indices[i + 1..], indices[i].to, |input|);
      dst := CopyPiece(buf, dst, input[prevEnd..indices[i].from], replaceWith,
                       Splice(input, indices[i + 1..], replaceWith, indices[i].to, |input|));
      prevEnd := indices[i].to;
      i := i + 1;
    }
    var n := Copy(buf, dst, input[prevEnd..]);
    scrubbed := buf[..];
  }

  /** Copies a gap and the replacement behind it; `tail` is what must still fit afterwards. */
  method CopyPiece(buf: array<byte>, at: nat, gap: seq<byte>, replacement: seq<byte>,
                   ghost tail: seq<byte>) returns (end: nat)
    requires at + |gap| + |replacement| + |tail| == buf.Length
    modifies buf
    ensures end == at + |gap| + |replacement|
    ensures buf[..end] + tail == old(buf[..at]) + (gap + replacement + tail)
  {
    var n := Copy(buf, at, gap);
    assert buf[..at + n] == old(buf[..at]) + gap;
    var m := Copy(buf, at + n, replacement);
    assert buf[..at + n + m] == old(buf[..at]) + gap + replacement;
    end := at + n + m;
  }

  datatype Result = Hangs | Scrubbed(data: seq<byte>)

  /** What scrub.JSON returns, or that it never does. */
  function JSONResult(input: seq<byte>, paths: seq<Path>, replaceWith: seq<byte>): Result {
    BoundsAreOrdered(input, paths);
    match Indices(input, paths)
    case Never => Hangs
    case Found(bounds) => Scrubbed(Splice(input, bounds, replaceWith, 0, |input|))
  }

  method JSON(input: seq<byte>, paths: seq<Path>, replaceWith: seq<byte>) returns (r: Result)
    ensures r == JSONResult(input, paths, replaceWith)
  {
    BoundsAreOrdered(input, paths);
    var indices := JSONIndices(input, paths);
    if indices.Never? { return Hangs; }
    var data := ScrubBytes(input, indices.bounds, replaceWith);
    r := Scrubbed(data);
  }

  // ----- Termination -----

  /** Every opening bracket is closed again later, counting both kinds of bracket alike. */
  predicate AllClosed(ts: seq<Item>) {
    ts == [] || ((Opens(ts[0].tok) ==> SkipFrom(ts, 0).Skipped?) && AllClosed(ts[1..]))
  }

  lemma {:induction false} SkipLeavesClosed(ts: seq<Item>, depth: int)
    requires AllClosed(ts) && SkipFrom(ts, depth).Skipped?
    ensures AllClosed(SkipFrom(ts, depth).rest)
  {
    if depth + Delta(ts[0].tok) > 0 { SkipLeavesClosed(ts[1..], depth + Delta(ts[0].tok)); }
  }

  /** ts is a stretch with closed brackets followed by `end`. */
  predicate ClosedBefore(ts: seq<Item>, end: seq<Item>) {
    |end| <= |ts| && ts[|ts| - |end|..] == end && AllClosed(ts[..|ts| - |end|])
  }

  predicate WalkedClosed(w: Walk, end: seq<Item>) {
    w.Walked? && ClosedBefore(w.rest, end)
  }

  lemma {:induction false} SkipBefore(ts: seq<Item>, end: seq<Item>, depth: int)
    requires SkipFrom(ts, depth).Skipped?
    ensures var k := SkipFrom(ts, depth); SkipFrom(ts + end, depth) == Skipped(k.rest + end, k.end)
  {
    assert (ts + end)[1..] == ts[1..] + end;
    if depth + Delta(ts[0].tok) > 0 { SkipBefore(ts[1..], end, depth + Delta(ts[0].tok)); }
  }

  lemma {:induction false} ClosedSkip(ts: seq<Item>, end: seq<Item>)
    requires ClosedBefore(ts, end) && |end| < |ts|
    ensures SkipFrom(ts, 0).Skipped? && ClosedBefore(SkipFrom(ts, 0).rest, end)
  {
    var pre := ts[..|ts| - |end|];
    assert ts == pre + end;
    SkipLeavesClosed(pre, 0);
    SkipBefore(pre, end, 0);
    var rest := SkipFrom(pre, 0).rest;
    assert (rest + end)[..|rest|] == rest && (rest + end)[|rest|..] == end;
  }

  lemma {:induction false} ClosedTail(ts: seq<Item>, end: seq<Item>)
    requires ClosedBefore(ts, end) && |end| < |ts|
    ensures ClosedBefore(ts[1..], end)
  {
    var pre := ts[..|ts| - |end|];
    assert ts[1..][..|ts| - 1 - |end|] == pre[1..];
  }

  /** Only skipping passes over an unknown item, so a walk that starts before `end` ends no later. */
  lemma {:induction false} ClosedWalkValue(input: seq<byte>, ts: seq<Item>, nodes: seq<Node>, end: seq<Item>)
    requires ClosedBefore(ts, end) && |end| < |ts| && AtEnd(end)
    ensures WalkedClosed(WalkValue(input, ts, nodes), end)
    decreases |ts|, 0
  {
    hide ClosedBefore;
    ClosedTail(ts, end);
    if ScrubNow(nodes) || nodes == [] {
      ClosedSkip(ts, end);
    } else if ts[0].tok == ObjectBegin {
      ClosedWalkObject(input, ts[1..], nodes, end);
    } else if ts[0].tok == ArrayBegin {
      ClosedWalkArray(input, ts[1..], nodes, end);
    }
  }

  lemma NotYetEnded(ts: seq<Item>, end: seq<Item>)
    requires ClosedBefore(ts, end) && AtEnd(end)
    ensures !AtEnd(ts) || IsMapValue(ts) ==> |end| < |ts|
  {
  }

  lemma {:induction false} ClosedWalkArray(input: seq<byte>, ts: seq<Item>, nodes: seq<Node>, end: seq<Item>)
    requires ClosedBefore(ts, end) && AtEnd(end)
    ensures WalkedClosed(WalkArray(input, ts, nodes), end)
    decreases |ts|, 1
  {
    hide ClosedBefore;
    NotYetEnded(ts, end);
    if !AtEnd(ts) {
      ClosedTail(ts, end);
      if ts[0].tok != ArrayEnd {
        ClosedWalkValue(input, ts, nodes, end);
        ClosedWalkArray(input, WalkValue(input, ts, nodes).rest, nodes, end);
      }
    }
  }

  lemma {:induction false} ClosedWalkObject(input: seq<byte>, ts: seq<Item>, nodes: seq<Node>, end: seq<Item>)
    requires ClosedBefore(ts, end) && AtEnd(end)
    ensures WalkedClosed(WalkObject(input, ts, nodes), end)
    decreases |ts|, 2
  {
    hide ClosedBefore;
    NotYetEnded(ts, end);
    if !AtEnd(ts) {
      ClosedTail(ts, end);
      if ts[0].tok != ObjectEnd {
        var curr, value := CurrNodes(nodes, ts[0]), ValueNodes(input, nodes, ts[0]);
        ClosedWalkValue(input, ts, curr, end);
        var k := WalkValue(input, ts, curr);
        NotYetEnded(k.rest, end);
        if IsMapValue(k.rest) { ClosedWalkValue(input, k.rest, value, end); }
        ClosedWalkObject(input, WalkMember(input, ts, nodes).rest, nodes, end);
      }
    }
  }

  lemma {:induction false} ClosedWalkAll(input: seq<byte>, ts: seq<Item>, nodes: seq<Node>, end: seq<Item>)
    requires ClosedBefore(ts, end) && AtEnd(end)
    ensures WalkAll(input, ts, nodes).Walked?
    decreases |ts|
  {
    hide ClosedBefore;
    NotYetEnded(ts, end);
    if !AtEnd(ts) {
      ClosedWalkValue(input, ts, nodes, end);
      ClosedWalkAll(input, WalkValue(input, ts, nodes).rest, nodes, end);
    }
  }

  lemma {:induction false} SkipShallower(ts: seq<Item>, depth: int, less: int)
    requires less <= depth && SkipFrom(ts, depth).Skipped?
    ensures SkipFrom(ts, less).Skipped?
  {
    if less + Delta(ts[0].tok) > 0 { SkipShallower(ts[1..], depth + Delta(ts[0].tok), less + Delta(ts[0].tok)); }
  }

  /** Brackets inside something that could be skipped are closed. */
  lemma {:induction false} SkippedIsClosed(ts: seq<Item>, depth: nat)
    requires SkipFrom(ts, depth).Skipped? && AllClosed(SkipFrom(ts, depth).rest)
    ensures AllClosed(ts)
  {
    var d := depth + Delta(ts[0].tok);
    if d > 0 {
      SkippedIsClosed(ts[1..], d);
      if Opens(ts[0].tok) { SkipShallower(ts[1..], d, 1); }
    }
  }

  /** The items before the first unknown one (a NUL byte) that stands outside all brackets. */
  function BeforeStop(ts: seq<Item>, depth: nat): (r: seq<Item>)
    ensures r <= ts && AtEnd(ts[|r|..])
  {
    if ts == [] || (ts[0].tok == Unknown && depth == 0) then []
    else
      var more := BeforeStop(ts[1..], if depth + Delta(ts[0].tok) > 0 then depth + Delta(ts[0].tok) else 0);
      assert ts[|more| + 1..] == ts[1..][|more|..];
      [ts[0]] + more
  }

  lemma {:induction false} SkipBeforeStop(ts: seq<Item>, depth: nat)
    requires SkipFrom(ts, depth).Skipped? && (depth > 0 || ts[0].tok != Unknown)
    ensures var k := SkipFrom(ts, depth);
            SkipFrom(BeforeStop(ts, depth), depth) == Skipped(BeforeStop(k.rest, 0), k.end)
  {
    var d := depth + Delta(ts[0].tok);
    var more := BeforeStop(ts[1..], if d > 0 then d else 0);
    assert ([ts[0]] + more)[1..] == more;
    if d > 0 { SkipBeforeStop(ts[1..], d); }
  }

  lemma {:induction false} SkippingAllMeansClosed(input: seq<byte>, ts: seq<Item>)
    requires WalkAll(input, ts, []).Walked?
    ensures AllClosed(BeforeStop(ts, 0))
    decreases |ts|
  {
    if !AtEnd(ts) {
      var k := SkipFrom(ts, 0);
      SkippingAllMeansClosed(input, k.rest);
      SkipBeforeStop(ts, 0);
      SkippedIsClosed(BeforeStop(ts, 0), 0);
    }
  }

  /** Closed brackets up to where the walk stops are enough for scrubbing to end, whatever the paths. */
  lemma {:induction false} ClosedInputsEnd(input: seq<byte>, paths: seq<Path>)
    requires AllClosed(BeforeStop(Items(input), 0))
    ensures Indices(input, paths).Found?
  {
    var ts := Items(input);
    var pre := BeforeStop(ts, 0);
    assert ts[|ts| - |ts[|pre|..]|..] == ts[|pre|..] && ts[..|ts| - |ts[|pre|..]|] == pre;
    ClosedWalkAll(input, ts, GroupNodes(paths), ts[|pre|..]);
  }

  /** For every byte string: scrubbing ends for all lists of paths if and only if every bracket opened before
      a NUL byte outside all brackets, or before the end if there is none, is closed again before that. */
  lemma {:induction false} EndsForAllPathsIffClosed(input: seq<byte>)
    ensures (forall paths :: Indices(input, paths).Found?) <==> AllClosed(BeforeStop(Items(input), 0))
  {
    if AllClosed(BeforeStop(Items(input), 0)) {
      forall paths ensures Indices(input, paths).Found? { ClosedInputsEnd(input, paths); }
    }
    if forall paths :: Indices(input, paths).Found? {
      assert Indices(input, []).Found?;
      SkippingAllMeansClosed(input, Items(input));
    }
  }

  // ----- Inputs without NUL bytes -----

  lemma {:induction false} NulFreeItems(s: seq<byte>, p: nat, stack: seq<ScanState>, pre: byte)
    requires p <= |s| && NUL !in s
    ensures forall t <- ItemsFrom(s, p, stack, pre) :: t.tok != Unknown
    decreases |s| - p
  {
    NulFreeScan(s, p, pre);
    var r := ScanOne(s, p, pre);
    if !r.eof { NulFreeItems(s, r.p, NextStack(stack, r), NUL); }
  }

  lemma {:induction false} NulFreeScan(s: seq<byte>, p: nat, pre: byte)
    requires p <= |s| && NUL !in s
    ensures var r := ScanOne(s, p, pre); r.eof || r.it.tok != Unknown
    decreases |s| - p
  {
    var (c, p1) := ReadTok(s, p);
    if c == COLON || c == COMMA { NulFreeScan(s, PeekTok(s, p1).1, c); }
  }

  lemma {:induction false} NothingStops(ts: seq<Item>, depth: nat)
    requires forall t <- ts :: t.tok != Unknown
    ensures BeforeStop(ts, depth) == ts
  {
    if ts != [] {
      assert ts[0] in ts;
      NothingStops(ts[1..], if depth + Delta(ts[0].tok) > 0 then depth + Delta(ts[0].tok) else 0);
    }
  }

  /** Without NUL bytes all brackets count. */
  lemma {:induction false} NulFreeEndsIffClosed(input: seq<byte>)
    requires NUL !in input
    ensures (forall paths :: Indices(input, paths).Found?) <==> AllClosed(Items(input))
  {
    EndsForAllPathsIffClosed(input);
    NulFreeItems(input, 0, [], NUL);
    NothingStops(Items(input), 0);
  }
}
