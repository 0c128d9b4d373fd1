/** TarVec of pkg/tarstream: a list of data segments read as one stream, with prefix sums, a binary search
    for the segment at the current position, and a cached reader on that segment. */
module TarStream {
  import opened Common

  // ----- Segments (datavec.go) -----

  /** A buffer, padding, or a file whose length is what its FileInfo says. */
  datatype Datavec = MemVec(data: seq<byte>) | PadVec(size: nat) | PathVec(contents: seq<byte>)

  function Zeros(n: nat): (r: seq<byte>)
    ensures |r| == n && forall i :: 0 <= i < n ==> r[i] == 0
  {
    seq(n, _ => 0)
  }

  function Content(v: Datavec): seq<byte> {
    match v
    case MemVec(data) => data
    case PadVec(size) => Zeros(size)
    case PathVec(contents) => contents
  }

  function GetSize(v: Datavec): (n: nat)
    ensures n == |Content(v)|
  {
    match v
    case MemVec(data) => |data|
    case PadVec(size) => size
    case PathVec(contents) => |contents|
  }

  function Min(a: nat, b: nat): nat {
    if a <= b then a else b
  }

  /** Writes zeros, as padReader.ReadAt does. */
  method PadReadAt(size: nat, b: array<byte>, off: nat) returns (n: nat, eof: bool)
    requires off <= size
    modifies b
    ensures n == Min(b.Length, size - off) && eof == (off == size)
    ensures b[..] == Zeros(size)[off..off + n] + old(b[n..])
  {
    var rem := size - off;
    if rem == 0 {
      assert b[..] == old(b[0..]);
      return 0, true;
    }
    n := Min(rem, b.Length);
    for i := 0 to n
      invariant forall k :: 0 <= k < i ==> b[k] == 0
      invariant forall k :: i <= k < b.Length ==> b[k] == old(b[k])
    {
      b[i] := 0;
    }
    assert b[..n] == Zeros(size)[off..off + n] && b[n..] == old(b[n..]);
    assert b[..] == b[..n] + b[n..];
    eof := false;
  }

  /** Copies from a buffer or a file, as bytes.Reader.ReadAt and os.File.ReadAt do. */
  method CopyReadAt(data: seq<byte>, b: array<byte>, off: nat) returns (n: nat, eof: bool)
    requires off <= |data|
    modifies b
    ensures n == Min(b.Length, |data| - off)
    ensures b[..] == data[off..off + n] + old(b[n..])
  {
    n := Min(b.Length, |data| - off);
    eof := n < b.Length;
    for i := 0 to n
      invariant forall k :: 0 <= k < i ==> b[k] == data[off + k]
      invariant forall k :: i <= k < b.Length ==> b[k] == old(b[k])
    {
      b[i] := data[off + i];
    }
    assert b[..n] == data[off..off + n] && b[n..] == old(b[n..]);
    assert b[..] == b[..n] + b[n..];
  }

  method ReadAt(v: Datavec, b: array<byte>, off: nat) returns (n: nat, eof: bool)
    requires off <= |Content(v)|
    modifies b
    ensures n == Min(b.Length, |Content(v)| - off)
    ensures b[..] == Content(v)[off..off + n] + old(b[n..])
  {
    match v
    case PadVec(size) => n, eof := PadReadAt(size, b, off);
    case MemVec(data) => n, eof := CopyReadAt(data, b, off);
    case PathVec(contents) => n, eof := CopyReadAt(contents, b, off);
  }

  // ----- The flat view -----

  function Flat(vecs: seq<Datavec>): seq<byte> {
    if vecs == [] then [] else Content(vecs[0]) + Flat(vecs[1..])
  }

  /** Total size of the first i segments. */
  function Prefix(vecs: seq<Datavec>, i: nat): nat
    requires i <= |vecs|
  {
    if i == 0 then 0 else Prefix(vecs, i - 1) + |Content(vecs[i - 1])|
  }

  lemma PrefixStep(vecs: seq<Datavec>, i: nat)
    requires i <= |vecs|
    ensures Prefix(vecs, 0) == 0
    ensures i < |vecs| ==> Prefix(vecs, i + 1) == Prefix(vecs, i) + |Content(vecs[i])|
  {
  }

  lemma {:induction false} PrefixTail(vecs: seq<Datavec>, i: nat)
    requires 0 < i <= |vecs|
    ensures Prefix(vecs, i) == |Content(vecs[0])| + Prefix(vecs[1..], i - 1)
  {
    if i > 1 { PrefixTail(vecs, i - 1); }
  }

  lemma {:induction false} PrefixMonotone(vecs: seq<Datavec>, i: nat, j: nat)
    requires i <= j <= |vecs|
    ensures Prefix(vecs, i) <= Prefix(vecs, j)
    decreases j
  {
    if i < j { PrefixMonotone(vecs, i, j - 1); }
  }

  lemma {:induction false} FlatSplit(vecs: seq<Datavec>, i: nat)
    requires i <= |vecs|
    ensures Flat(vecs) == Flat(vecs[..i]) + Flat(vecs[i..])
    ensures |Flat(vecs[..i])| == Prefix(vecs, i)
  {
    if i == 0 {
      assert vecs[..0] == [] && vecs[0..] == vecs;
    } else {
      FlatSplit(vecs[1..], i - 1);
      assert vecs[..i][1..] == vecs[1..][..i - 1];
      assert vecs[1..][i - 1..] == vecs[i..];
      PrefixTail(vecs, i);
    }
  }

  /** Segment i occupies the stretch between two prefix sums. */
  lemma SegmentInFlat(vecs: seq<Datavec>, i: nat)
    requires i < |vecs|
    ensures Prefix(vecs, i + 1) <= |Flat(vecs)|
    ensures Flat(vecs)[Prefix(vecs, i)..Prefix(vecs, i + 1)] == Content(vecs[i])
  {
    hide Content;
    var a, c := Flat(vecs[..i]), Flat(vecs[i + 1..]);
    FlatSplit(vecs, i);
    assert vecs[i..][1..] == vecs[i + 1..];
    assert Flat(vecs[i..]) == Content(vecs[i]) + c;
    assert (a + (Content(vecs[i]) + c))[|a|..|a| + |Content(vecs[i])|] == Content(vecs[i]);
  }

  lemma {:induction false} FlatSize(vecs: seq<Datavec>)
    ensures |Flat(vecs)| == Prefix(vecs, |vecs|)
  {
    FlatSplit(vecs, |vecs|);
    assert vecs[..|vecs|] == vecs && vecs[|vecs|..] == [];
  }

  /** The segment that holds the byte at pos: the first one that ends behind it. */
  function Locate(vecs: seq<Datavec>, pos: nat): (i: nat)
    ensures i <= |vecs|
    ensures i < |vecs| ==> Prefix(vecs, i) <= pos < Prefix(vecs, i + 1)
    ensures i == |vecs| <==> Prefix(vecs, |vecs|) <= pos
  {
    LocateFrom(vecs, pos, 0)
  }

  function LocateFrom(vecs: seq<Datavec>, pos: nat, k: nat): (i: nat)
    requires k <= |vecs| && Prefix(vecs, k) <= pos
    ensures k <= i <= |vecs|
    ensures i < |vecs| ==> Prefix(vecs, i) <= pos < Prefix(vecs, i + 1)
    ensures i == |vecs| <==> Prefix(vecs, |vecs|) <= pos
    decreases |vecs| - k
  {
    if k == |vecs| then k
    else if pos < Prefix(vecs, k + 1) then PrefixMonotone(vecs, k + 1, |vecs|); k
    else LocateFrom(vecs, pos, k + 1)
  }

  lemma LocateUnique(vecs: seq<Datavec>, pos: nat, i: nat)
    requires i < |vecs| && Prefix(vecs, i) <= pos < Prefix(vecs, i + 1)
    ensures Locate(vecs, pos) == i
  {
    var l := Locate(vecs, pos);
    PrefixMonotone(vecs, i + 1, |vecs|);
    if l < i { PrefixMonotone(vecs, l + 1, i); }
    if i < l { PrefixMonotone(vecs, i + 1, l); }
  }

  /** The bytes one Read of a buffer of length k delivers at pos: at most up to the end of the segment. */
  function ReadBytes(vecs: seq<Datavec>, pos: nat, k: nat): (r: seq<byte>)
    ensures |r| <= k
  {
    var i := Locate(vecs, pos);
    if i == |vecs| then []
    else
      var off := pos - Prefix(vecs, i);
      Content(vecs[i])[off..off + Min(k, |Content(vecs[i])| - off)]
  }

  /** Reading inside a segment is reading the flat stream; it makes progress until the end is reached. */
  lemma {:induction false} ReadIsFlat(vecs: seq<Datavec>, pos: nat, k: nat)
    ensures var r := ReadBytes(vecs, pos, k);
            && (r == [] <==> k == 0 || pos >= |Flat(vecs)|)
            && (pos < |Flat(vecs)| ==> pos + |r| <= |Flat(vecs)| && r == Flat(vecs)[pos..pos + |r|])
            && (Locate(vecs, pos) == |vecs| <==> pos >= |Flat(vecs)|)
  {
    hide Content, Flat, Prefix, Locate;
    FlatSize(vecs);
    var i := Locate(vecs, pos);
    if i < |vecs| {
      PrefixStep(vecs, i);
      SegmentInFlat(vecs, i);
      var lo, hi, n := Prefix(vecs, i), Prefix(vecs, i + 1), |ReadBytes(vecs, pos, k)|;
      SliceOfSlice(Flat(vecs), lo, hi, pos - lo, pos - lo + n);
    }
  }

  /** A read stops short of what was asked for exactly where a segment ends, and never goes across such a border. */
  lemma {:induction false} ShortReadsEndSegments(vecs: seq<Datavec>, pos: nat, k: nat, j: nat)
    requires pos < |Flat(vecs)| && j <= |vecs|
    ensures var n := |ReadBytes(vecs, pos, k)|;
            && !(pos < Prefix(vecs, j) < pos + n)
            && (n < k ==> exists b: nat :: b <= |vecs| && Prefix(vecs, b) == pos + n)
  {
    hide Content, Flat, Prefix, Locate;
    FlatSize(vecs);
    var i := Locate(vecs, pos);
    PrefixStep(vecs, i);
    if j <= i { PrefixMonotone(vecs, j, i); } else { PrefixMonotone(vecs, i + 1, j); }
    assert |ReadBytes(vecs, pos, k)| < k ==> Prefix(vecs, i + 1) == pos + |ReadBytes(vecs, pos, k)|;
  }

  lemma SliceOfSlice(s: seq<byte>, lo: nat, hi: nat, a: nat, b: nat)
    requires lo <= hi <= |s| && a <= b <= hi - lo
    ensures s[lo..hi][a..b] == s[lo + a..lo + b]
  {
    assert |s[lo..hi][a..b]| == b - a;
    forall i | 0 <= i < b - a ensures s[lo..hi][a..b][i] == s[lo + a..lo + b][i] {}
  }

  // ----- TarVec -----

  datatype Whence = SeekStart | SeekCurrent | SeekEnd | OtherWhence

  datatype CurrReader = CurrReader(idx: nat, size: nat, data: Datavec)

  datatype Error = NoError | EOF | Invalid

  /** Where a seek leads, as a function of the position it starts from and the size it believes in. */
  function SeekTarget(pos: nat, size: nat, offset: int, whence: Whence): Option<nat> {
    var to := match whence
              case SeekStart => offset
              case SeekCurrent => pos + offset
              case SeekEnd => size + offset
              case OtherWhence => -1;
    if to < 0 then None else Some(to)
  }

  /** Prefix sums, computed in one pass. */
  method Offsets(vecs: seq<Datavec>) returns (starts: seq<nat>, ends: seq<nat>, total: nat)
    ensures |starts| == |ends| == |vecs| && total == |Flat(vecs)|
    ensures forall i :: 0 <= i < |vecs| ==> starts[i] == Prefix(vecs, i) && ends[i] == Prefix(vecs, i + 1)
  {
    hide Content, Flat, Prefix;
    PrefixStep(vecs, 0);
    total, starts, ends := 0, [], [];
    for i := 0 to |vecs|
      invariant |starts| == |ends| == i && total == Prefix(vecs, i)
      invariant forall k :: 0 <= k < i ==> starts[k] == Prefix(vecs, k) && ends[k] == Prefix(vecs, k + 1)
    {
      PrefixStep(vecs, i);
      var size := GetSize(vecs[i]);
      starts, ends := starts + [total], ends + [total + size];
      total := total + size;
    }
    FlatSize(vecs);
  }

  /** The binary search of sort.Search for the first end behind pos. */
  method SearchEnds(ends: seq<nat>, pos: nat) returns (i: nat)
    requires forall j, k :: 0 <= j <= k < |ends| ==> ends[j] <= ends[k]
    ensures i <= |ends|
    ensures forall k :: 0 <= k < i ==> ends[k] <= pos
    ensures i < |ends| ==> pos < ends[i]
  {
    i := 0;
    var j := |ends|;
    while i < j
      invariant 0 <= i <= j <= |ends|
      invariant forall k :: 0 <= k < i ==> ends[k] <= pos
      invariant forall k :: j <= k < |ends| ==> pos < ends[k]
    {
      var h := (i + j) / 2;
      if ends[h] > pos { j := h; } else { i := h + 1; }
    }
  }

  class TarVec {
    const vecs: seq<Datavec>
    const starts: seq<nat>
    const ends: seq<nat>
    const size: nat
    var pos: nat
    var curr: Option<CurrReader>

    ghost predicate Valid()
      reads this
    {
      && |starts| == |ends| == |vecs|
      && (forall i :: 0 <= i < |vecs| ==> starts[i] == Prefix(vecs, i) && ends[i] == Prefix(vecs, i + 1))
      && (curr.Some? ==> var c := curr.value;
                         c.idx < |vecs| && c.data == vecs[c.idx] && c.size == |Content(vecs[c.idx])|)
    }

    constructor (vecs: seq<Datavec>)
      ensures Valid() && this.vecs == vecs && size == |Flat(vecs)| && pos == 0
    {
      var s, e, total := Offsets(vecs);
      this.vecs, starts, ends, size, pos, curr := vecs, s, e, total, 0, None;
    }

    /** As the source has it, a clone keeps everything but the size and the cached reader. */
    constructor CloneOf(tv: TarVec)
      requires tv.Valid()
      ensures Valid() && vecs == tv.vecs && pos == tv.pos && size == 0
    {
      vecs, starts, ends, size, pos, curr := tv.vecs, tv.starts, tv.ends, 0, tv.pos, None;
    }

    /** The reader for the current position, cached or newly opened, or EOF exactly behind the last byte. */
    method GetReader() returns (err: Error)
      requires Valid()
      modifies this`curr
      ensures Valid() && err == (if pos < |Flat(vecs)| then NoError else EOF)
      ensures err.NoError? ==> curr.Some? && curr.value.idx == Locate(vecs, pos)
    {
      FlatSize(vecs);
      if curr.Some? {
        var idx := curr.value.idx;
        if pos >= starts[idx] && pos < ends[idx] {
          LocateUnique(vecs, pos, idx);
          return NoError;
        }
        curr := None;
      }
      forall j, k | 0 <= j <= k < |ends| ensures ends[j] <= ends[k] { PrefixMonotone(vecs, j + 1, k + 1); }
      var candidate := SearchEnds(ends, pos);
      if candidate == |ends| {
        assert |vecs| > 0 ==> ends[|vecs| - 1] <= pos;
        return EOF;
      }
      assert candidate > 0 ==> starts[candidate] == ends[candidate - 1];
      LocateUnique(vecs, pos, candidate);
      curr := Some(CurrReader(candidate, GetSize(vecs[candidate]), vecs[candidate]));
      err := NoError;
    }

    /** Read delivers the bytes of the flat stream at the current position; none of the three panics of the
        source can be reached. */
    method Read(b: array<byte>) returns (n: nat, err: Error)
      requires Valid()
      modifies this, b
      ensures Valid()
      ensures n <= b.Length && b[..n] == ReadBytes(vecs, old(pos), b.Length) && b[n..] == old(b[n..])
      ensures pos == old(pos) + n
      ensures err == if old(pos) < |Flat(vecs)| then NoError else EOF
    {
      hide Content, Flat;
      ReadIsFlat(vecs, pos, b.Length);
      err := GetReader();
      if err.EOF? { return 0, err; }
      var cr := curr.value;
      var off := pos - starts[cr.idx];
      var remaining := cr.size - off;
      if remaining < 0 || (remaining == 0 && cr.idx + 1 < |vecs| && cr.size > 0) {
        assert false; // panic
      }
      var eof;
      n, eof := ReadAt(cr.data, b, off);
      if n == 0 && b.Length > 0 {
        assert false; // panic
      }
      assert b[..n] == Content(cr.data)[off..off + n];
      pos := pos + n;
    }

    method Seek(offset: int, whence: Whence) returns (at: nat, err: Error)
      requires Valid()
      modifies this`pos
      ensures Valid()
      ensures match SeekTarget(old(pos), size, offset, whence)
              case None => err.Invalid? && pos == old(pos)
              case Some(to) => err.NoError? && pos == at == to
      ensures SeekAnswer(size, old(pos), offset, whence, if err.NoError? then At(at) else Refused, pos)
    {
      var to := match whence
                case SeekStart => offset
                case SeekCurrent => pos + offset
                case SeekEnd => size + offset
                case OtherWhence => -1;
      if to < 0 { return 0, Invalid; }
      assert CountsFrom(size, pos, whence, to - offset);
      pos := to;
      return pos, NoError;
    }
  }

  // ----- Whole runs -----

  datatype Op = DoRead(len: nat) | DoSeek(offset: int, whence: Whence)

  datatype Answer = Bytes(data: seq<byte>, eof: bool) | At(pos: nat) | Refused

  /** The answers of a TarVec, segment by segment, in the words of the contracts of Read and Seek. */
  function RunTarVec(vecs: seq<Datavec>, size: nat, pos: nat, ops: seq<Op>): seq<Answer>
    decreases |ops|
  {
    if ops == [] then []
    else match ops[0]
      case DoRead(k) =>
        var data := ReadBytes(vecs, pos, k);
        [Bytes(data, Locate(vecs, pos) == |vecs|)] + RunTarVec(vecs, size, pos + |data|, ops[1..])
      case DoSeek(offset, whence) =>
        match SeekTarget(pos, size, offset, whence)
        case None => [Refused] + RunTarVec(vecs, size, pos, ops[1..])
        case Some(to) => [At(to)] + RunTarVec(vecs, size, to, ops[1..])
  }

  /** What an offset counts from in a stream of the given length, read up to pos. */
  predicate CountsFrom(length: nat, pos: nat, whence: Whence, origin: int) {
    || (whence.SeekStart? && origin == 0)
    || (whence.SeekCurrent? && origin == pos)
    || (whence.SeekEnd? && origin == length)
  }

  /** An answer to a seek: the new position, or a refusal exactly if that were negative or the mode is unknown. */
  ghost predicate SeekAnswer(length: nat, pos: nat, offset: int, whence: Whence, answer: Answer, next: nat) {
    if exists origin :: CountsFrom(length, pos, whence, origin) && origin + offset >= 0
    then answer == At(next) && CountsFrom(length, pos, whence, next - offset)
    else answer == Refused && next == pos
  }

  /** Answers that a reader over one flat byte sequence could give: a read yields some of the bytes at the
      position, at least one if asked for any before the end, and reports EOF exactly at the end. */
  ghost predicate FlatAnswers(flat: seq<byte>, pos: nat, ops: seq<Op>, answers: seq<Answer>)
    decreases |ops|
  {
    |answers| == |ops| &&
    (ops != [] ==>
       match ops[0]
       case DoRead(k) =>
         && answers[0].Bytes? && answers[0].eof == (pos >= |flat|)
         && var n := |answers[0].data|;
            && n <= k && (n == 0 <==> k == 0 || pos >= |flat|)
            && (pos < |flat| ==> pos + n <= |flat| && answers[0].data == flat[pos..pos + n])
            && FlatAnswers(flat, pos + n, ops[1..], answers[1..])
       case DoSeek(offset, whence) =>
         exists next: nat ::
           SeekAnswer(|flat|, pos, offset, whence, answers[0], next) && FlatAnswers(flat, next, ops[1..], answers[1..]))
  }

  predicate SeeksFromEnd(ops: seq<Op>) {
    exists op <- ops :: op.DoSeek? && op.whence.SeekEnd?
  }

  /** Any run of reads and seeks on a TarVec behaves like one on the flat concatenation; a clone too, as long
      as nothing seeks from the end. */
  lemma {:induction false} RunsAreFlat(vecs: seq<Datavec>, size: nat, pos: nat, ops: seq<Op>)
    requires size == |Flat(vecs)| || !SeeksFromEnd(ops)
    ensures FlatAnswers(Flat(vecs), pos, ops, RunTarVec(vecs, size, pos, ops))
    decreases |ops|
  {
    hide ReadBytes, Flat, Locate, SeekTarget;
    if ops != [] {
      assert ops[0] in ops && forall op <- ops[1..] :: op in ops;
      var next := NextPos(vecs, size, pos, ops[0]);
      RunTail(vecs, size, pos, ops);
      RunsAreFlat(vecs, size, next, ops[1..]);
      if ops[0].DoRead? {
        ReadIsFlat(vecs, pos, ops[0].len);
      } else {
        SeekAnswers(vecs, size, pos, ops);
      }
    }
  }

  lemma {:induction false} SeekAnswers(vecs: seq<Datavec>, size: nat, pos: nat, ops: seq<Op>)
    requires ops != [] && ops[0].DoSeek? && (size == |Flat(vecs)| || !ops[0].whence.SeekEnd?)
    ensures RunTarVec(vecs, size, pos, ops) != []
    ensures SeekAnswer(|Flat(vecs)|, pos, ops[0].offset, ops[0].whence, RunTarVec(vecs, size, pos, ops)[0],
                       NextPos(vecs, size, pos, ops[0]))
  {
    hide ReadBytes, Flat, Locate;
    var whence, length := ops[0].whence, |Flat(vecs)|;
    if whence.SeekStart? { assert CountsFrom(length, pos, whence, 0); }
    if whence.SeekCurrent? { assert CountsFrom(length, pos, whence, pos); }
    if whence.SeekEnd? { assert CountsFrom(length, pos, whence, length); }
  }

  /** A series of operations on an object. */
  method Perform(tv: TarVec, ops: seq<Op>) returns (answers: seq<Answer>)
    requires tv.Valid()
    modifies tv
    ensures tv.Valid()
    ensures answers == RunTarVec(tv.vecs, tv.size, old(tv.pos), ops)
    ensures tv.size == |Flat(tv.vecs)| || !SeeksFromEnd(ops) ==> FlatAnswers(Flat(tv.vecs), old(tv.pos), ops, answers)
  {
    hide ReadBytes, Flat, Locate, FlatAnswers, SeekTarget, RunTarVec;
    answers := [];
    RunNothing(tv.vecs, tv.size, tv.pos);
    for i := 0 to |ops|
      invariant tv.Valid()
      invariant answers + RunTarVec(tv.vecs, tv.size, tv.pos, ops[i..]) == RunTarVec(tv.vecs, tv.size, old(tv.pos), ops)
    {
      assert ops[i..][0] == ops[i] && ops[i..][1..] == ops[i + 1..];
      RunStep(tv.vecs, tv.size, tv.pos, ops[i..]);
      var answer;
      match ops[i] {
        case DoRead(k) =>
          ReadIsFlat(tv.vecs, tv.pos, k);
          var b := new byte[k];
          var n, err := tv.Read(b);
          answer := Bytes(b[..n], err.EOF?);
        case DoSeek(offset, whence) =>
          var at, err := tv.Seek(offset, whence);
          answer := if err.NoError? then At(at) else Refused;
      }
      answers := answers + [answer];
    }
    RunNothing(tv.vecs, tv.size, tv.pos);
    assert ops[|ops|..] == [];
    if tv.size == |Flat(tv.vecs)| || !SeeksFromEnd(ops) { RunsAreFlat(tv.vecs, tv.size, old(tv.pos), ops); }
  }

  function AnswerTo(vecs: seq<Datavec>, size: nat, pos: nat, op: Op): Answer {
    match op
    case DoRead(k) => Bytes(ReadBytes(vecs, pos, k), Locate(vecs, pos) == |vecs|)
    case DoSeek(offset, whence) =>
      var to := SeekTarget(pos, size, offset, whence); if to.None? then Refused else At(to.value)
  }

  lemma {:induction false} RunStep(vecs: seq<Datavec>, size: nat, pos: nat, ops: seq<Op>)
    requires ops != []
    ensures RunTarVec(vecs, size, pos, ops)
         == [AnswerTo(vecs, size, pos, ops[0])] + RunTarVec(vecs, size, NextPos(vecs, size, pos, ops[0]), ops[1..])
  {
    hide ReadBytes, Locate, SeekTarget;
  }

  lemma RunNothing(vecs: seq<Datavec>, size: nat, pos: nat)
    ensures RunTarVec(vecs, size, pos, []) == []
  {
  }

  function NextPos(vecs: seq<Datavec>, size: nat, pos: nat, op: Op): nat {
    match op
    case DoRead(k) => pos + |ReadBytes(vecs, pos, k)|
    case DoSeek(offset, whence) => var to := SeekTarget(pos, size, offset, whence); if to.None? then pos else to.value
  }

  lemma {:induction false} RunTail(vecs: seq<Datavec>, size: nat, pos: nat, ops: seq<Op>)
    requires ops != []
    ensures var answers := RunTarVec(vecs, size, pos, ops);
            |answers| > 0 && answers[1..] == RunTarVec(vecs, size, NextPos(vecs, size, pos, ops[0]), ops[1..])
  {
    hide ReadBytes, Locate, SeekTarget;
  }

  /** A clone seeks from the end correctly if and only if there is nothing to read. */
  lemma {:induction false} CloneSeeksFromEndIffEmpty(vecs: seq<Datavec>)
    ensures (forall pos: nat, offset: int ::
               SeekTarget(pos, 0, offset, SeekEnd) == SeekTarget(pos, |Flat(vecs)|, offset, SeekEnd))
       <==> Flat(vecs) == []
  {
    if Flat(vecs) != [] {
      assert SeekTarget(0, 0, 0, SeekEnd) != SeekTarget(0, |Flat(vecs)|, 0, SeekEnd);
    }
  }

  function TotalRead(vecs: seq<Datavec>, pos: nat, lens: seq<nat>): seq<byte>
    decreases |lens|
  {
    if lens == [] then []
    else
      var r := ReadBytes(vecs, pos, lens[0]);
      r + TotalRead(vecs, pos + |r|, lens[1..])
  }

  /** Reading on with non-empty buffers of any sizes delivers the whole rest of the stream, each byte once. */
  lemma {:induction false} ReadingDelivers(vecs: seq<Datavec>, pos: nat, lens: seq<nat>)
    requires pos <= |Flat(vecs)| && |lens| >= |Flat(vecs)| - pos && forall i :: 0 <= i < |lens| ==> lens[i] > 0
    ensures TotalRead(vecs, pos, lens) == Flat(vecs)[pos..]
    decreases |lens|
  {
    hide ReadBytes, Flat, TotalRead;
    OneRead(vecs, pos, lens);
    if lens != [] {
      ReadIsFlat(vecs, pos, lens[0]);
      var r := ReadBytes(vecs, pos, lens[0]);
      assert pos + |r| <= |Flat(vecs)| && r == Flat(vecs)[pos..pos + |r|];
      ReadingDelivers(vecs, pos + |r|, lens[1..]);
      JoinSlices(Flat(vecs), pos, pos + |r|);
    }
  }

  lemma OneRead(vecs: seq<Datavec>, pos: nat, lens: seq<nat>)
    ensures lens == [] ==> TotalRead(vecs, pos, lens) == []
    ensures lens != [] ==>
              var r := ReadBytes(vecs, pos, lens[0]);
              TotalRead(vecs, pos, lens) == r + TotalRead(vecs, pos + |r|, lens[1..])
  {
    hide ReadBytes;
  }

  // ----- Laws of seeking, on what a run answers -----

  /** A refused seek goes unnoticed by what follows, and so does a question for the position. */
  lemma {:induction false} SeekLeavesPosition(vecs: seq<Datavec>, size: nat, pos: nat, offset: int, whence: Whence,
                                              ops: seq<Op>)
    requires whence.OtherWhence? || (whence.SeekStart? && offset < 0) || (whence.SeekCurrent? && pos + offset < 0)
             || (whence.SeekEnd? && size + offset < 0)
    ensures RunTarVec(vecs, size, pos, [DoSeek(offset, whence)] + ops) == [Refused] + RunTarVec(vecs, size, pos, ops)
    ensures RunTarVec(vecs, size, pos, [DoSeek(0, SeekCurrent)] + ops) == [At(pos)] + RunTarVec(vecs, size, pos, ops)
  {
    hide ReadBytes, Locate, RunTarVec;
    RunStep(vecs, size, pos, [DoSeek(offset, whence)] + ops);
    RunStep(vecs, size, pos, [DoSeek(0, SeekCurrent)] + ops);
    assert ([DoSeek(offset, whence)] + ops)[1..] == ops == ([DoSeek(0, SeekCurrent)] + ops)[1..];
  }

  /** Two relative seeks are one, and an absolute one forgets what was before. */
  lemma {:induction false} SeeksCompose(vecs: seq<Datavec>, size: nat, pos: nat, a: int, b: int, ops: seq<Op>)
    requires pos + a >= 0 && pos + a + b >= 0
    ensures RunTarVec(vecs, size, pos, [DoSeek(a, SeekCurrent)] + ([DoSeek(b, SeekCurrent)] + ops))
            == [At(pos + a)] + RunTarVec(vecs, size, pos, [DoSeek(a + b, SeekCurrent)] + ops)
    ensures RunTarVec(vecs, size, pos, [DoSeek(a, SeekCurrent)] + ([DoSeek(pos + a + b, SeekStart)] + ops))
            == [At(pos + a)] + RunTarVec(vecs, size, pos, [DoSeek(pos + a + b, SeekStart)] + ops)
  {
    hide ReadBytes, Locate, RunTarVec;
    var s, t, u, v := DoSeek(a, SeekCurrent), DoSeek(b, SeekCurrent), DoSeek(a + b, SeekCurrent),
                      DoSeek(pos + a + b, SeekStart);
    RunStep(vecs, size, pos, [s] + ([t] + ops));
    RunStep(vecs, size, pos, [s] + ([v] + ops));
    RunStep(vecs, size, pos + a, [t] + ops);
    RunStep(vecs, size, pos + a, [v] + ops);
    RunStep(vecs, size, pos, [u] + ops);
    RunStep(vecs, size, pos, [v] + ops);
    assert ([s] + ([t] + ops))[1..] == [t] + ops && ([s] + ([v] + ops))[1..] == [v] + ops;
    assert ([t] + ops)[1..] == ops == ([u] + ops)[1..] == ([v] + ops)[1..];
  }

  function Reads(lens: seq<nat>): seq<Op> {
    if lens == [] then [] else [DoRead(lens[0])] + Reads(lens[1..])
  }

  /** The bytes of all answers to reads. */
  function Delivered(answers: seq<Answer>): seq<byte> {
    if answers == [] then []
    else (if answers[0].Bytes? then answers[0].data else []) + Delivered(answers[1..])
  }

  lemma {:induction false} ReadsDeliver(vecs: seq<Datavec>, size: nat, pos: nat, lens: seq<nat>)
    ensures Delivered(RunTarVec(vecs, size, pos, Reads(lens))) == TotalRead(vecs, pos, lens)
    decreases |lens|
  {
    hide ReadBytes, Locate, RunTarVec, TotalRead;
    OneRead(vecs, pos, lens);
    if lens == [] {
      RunNothing(vecs, size, pos);
    } else {
      var ops, next := Reads(lens), pos + |ReadBytes(vecs, pos, lens[0])|;
      assert ops[1..] == Reads(lens[1..]);
      RunStep(vecs, size, pos, ops);
      var answers := RunTarVec(vecs, size, pos, ops);
      assert answers[1..] == RunTarVec(vecs, size, next, ops[1..]);
      ReadsDeliver(vecs, size, next, lens[1..]);
    }
  }

  /** Seeking to k bytes before the end and reading on delivers exactly the last k bytes, wherever one was. */
  lemma {:induction false} SeekEndLeaves(vecs: seq<Datavec>, pos: nat, k: nat, lens: seq<nat>)
    requires k <= |Flat(vecs)| && |lens| >= k && forall i :: 0 <= i < |lens| ==> lens[i] > 0
    ensures var answers := RunTarVec(vecs, |Flat(vecs)|, pos, [DoSeek(0 - k, SeekEnd)] + Reads(lens));
            Delivered(answers) == Flat(vecs)[|Flat(vecs)| - k..]
  {
    hide ReadBytes, Locate, RunTarVec, Flat, TotalRead;
    var size, ops := |Flat(vecs)|, [DoSeek(0 - k, SeekEnd)] + Reads(lens);
    RunStep(vecs, size, pos, ops);
    assert ops[1..] == Reads(lens);
    var answers := RunTarVec(vecs, size, pos, ops);
    assert answers[1..] == RunTarVec(vecs, size, size - k, Reads(lens));
    ReadsDeliver(vecs, size, size - k, lens);
    ReadingDelivers(vecs, size - k, lens);
  }

  lemma JoinSlices(s: seq<byte>, a: nat, b: nat)
    requires a <= b <= |s|
    ensures s[a..b] + s[b..] == s[a..]
  {
  }
}
