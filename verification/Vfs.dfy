/** The virtual file system of pkg/vfs/vfs.go: directories linked by child maps and parent pointers.

    Directories live in a store and point to each other by index, as the source's do by address; a
    file system is a root in that store, so that the result of Sub shares its directories. */
module Vfs {
  import opened Common

  datatype Dir = Dir(name: string, parent: Option<nat>, childDirs: map<string, nat>, files: map<string, seq<byte>>)

  // ----- Slash-separated paths -----

  function Split(s: string): (r: seq<string>)
    ensures |r| > 0
  {
    if s == [] then [[]]
    else
      var r := Split(s[1..]);
      if s[0] == '/' then [[]] + r else [[s[0]] + r[0]] + r[1..]
  }

  lemma {:induction false} SplitJoined(a: string, b: string)
    ensures Split(a + ['/'] + b) == Split(a) + Split(b)
  {
    if a == [] {
      assert (a + ['/'] + b)[1..] == b;
    } else {
      assert (a + ['/'] + b)[1..] == a[1..] + ['/'] + b;
      SplitJoined(a[1..], b);
    }
  }

  lemma {:induction false} SplitPlain(s: string)
    requires '/' !in s
    ensures Split(s) == [s]
  {
    if s != [] {
      SplitPlain(s[1..]);
      assert [s[0]] + s[1..] == s;
    }
  }

  /** The directory part, up to the last slash, and the rest, as filepath.Split finds them. */
  method SplitPath(path: string) returns (dir: string, file: string)
    ensures dir + file == path
    ensures '/' !in file && (dir == [] || dir[|dir| - 1] == '/')
  {
    var i := |path| - 1;
    while i >= 0 && path[i] != '/'
      invariant -1 <= i < |path|
      invariant forall k :: i < k < |path| ==> path[k] != '/'
    {
      i := i - 1;
    }
    dir, file := path[..i + 1], path[i + 1..];
  }

  predicate PlainName(s: string) {
    s != "" && s != "." && s != ".."
  }

  predicate AllPlain(parts: seq<string>) {
    forall p <- parts :: PlainName(p)
  }

  predicate ValidPath(name: string) {
    name == "." || AllPlain(Split(name))
  }

  /** Where a path leads from a directory, taken lexically: nowhere if it climbs above the root. */
  function Norm(base: seq<string>, parts: seq<string>): (r: Option<seq<string>>)
    decreases |parts|
  {
    if parts == [] then Some(base)
    else if parts[0] == "." || parts[0] == "" then Norm(base, parts[1..])
    else if parts[0] == ".." then (if base == [] then None else Norm(base[..|base| - 1], parts[1..]))
    else Norm(base + [parts[0]], parts[1..])
  }

  lemma {:induction false} NormPlain(base: seq<string>, parts: seq<string>)
    requires AllPlain(parts)
    ensures Norm(base, parts) == Some(base + parts)
    decreases |parts|
  {
    if parts == [] {
      assert base + parts == base;
    } else {
      assert parts[0] in parts;
      NormPlain(base + [parts[0]], parts[1..]);
      assert base + parts == base + [parts[0]] + parts[1..];
    }
  }

  // ----- The tree -----

  predicate Linked(dirs: seq<Dir>, i: nat)
    requires i < |dirs|
  {
    forall n <- dirs[i].childDirs ::
      var c := dirs[i].childDirs[n];
      i < c < |dirs| && dirs[c].parent == Some(i) && dirs[c].name == n
  }

  predicate Anchored(dirs: seq<Dir>, i: nat)
    requires i < |dirs|
  {
    if i == 0 then dirs[i].parent == None
    else
      && dirs[i].parent.Some?
      && var p := dirs[i].parent.value;
         p < i && dirs[i].name in dirs[p].childDirs && dirs[p].childDirs[dirs[i].name] == i
  }

  /** Child maps and parent pointers agree, and every directory but the first has a parent. */
  predicate Tree(dirs: seq<Dir>) {
    |dirs| > 0 && forall i :: 0 <= i < |dirs| ==> Linked(dirs, i) && Anchored(dirs, i)
  }

  function PathOf(dirs: seq<Dir>, d: nat): seq<string>
    requires Tree(dirs) && d < |dirs|
  {
    assert Anchored(dirs, d);
    if d == 0 then [] else PathOf(dirs, dirs[d].parent.value) + [dirs[d].name]
  }

  /** Follows child directories only, as Open does. */
  function Resolve(dirs: seq<Dir>, d: nat, parts: seq<string>): (r: Option<nat>)
    requires Tree(dirs) && d < |dirs|
    ensures r.Some? ==> r.value < |dirs|
    decreases |parts|
  {
    if parts == [] then Some(d)
    else if parts[0] !in dirs[d].childDirs then None
    else
      assert Linked(dirs, d);
      Resolve(dirs, dirs[d].childDirs[parts[0]], parts[1..])
  }

  lemma {:induction false} ResolveConcat(dirs: seq<Dir>, d: nat, a: seq<string>, b: seq<string>)
    requires Tree(dirs) && d < |dirs|
    ensures Resolve(dirs, d, a + b)
            == match Resolve(dirs, d, a) { case None => None case Some(e) => Resolve(dirs, e, b) }
    decreases |a|
  {
    if a == [] {
      assert a + b == b;
    } else {
      assert (a + b)[1..] == a[1..] + b;
      if a[0] in dirs[d].childDirs {
        assert Linked(dirs, d);
        ResolveConcat(dirs, dirs[d].childDirs[a[0]], a[1..], b);
      }
    }
  }

  /** A directory is found under its own path ... */
  lemma {:induction false} PathResolves(dirs: seq<Dir>, d: nat)
    requires Tree(dirs) && d < |dirs|
    ensures Resolve(dirs, 0, PathOf(dirs, d)) == Some(d)
  {
    assert Anchored(dirs, d);
    if d != 0 {
      var p, n := dirs[d].parent.value, dirs[d].name;
      PathResolves(dirs, p);
      ResolveConcat(dirs, 0, PathOf(dirs, p), [n]);
      assert [n][1..] == [];
    }
  }

  /** ... and under no other one. */
  lemma {:induction false} ResolvedPath(dirs: seq<Dir>, d: nat, parts: seq<string>)
    requires Tree(dirs) && d < |dirs| && Resolve(dirs, d, parts).Some?
    ensures PathOf(dirs, Resolve(dirs, d, parts).value) == PathOf(dirs, d) + parts
    decreases |parts|
  {
    if parts == [] {
      assert PathOf(dirs, d) + [] == PathOf(dirs, d);
    } else {
      assert Linked(dirs, d);
      var c := dirs[d].childDirs[parts[0]];
      ResolvedPath(dirs, c, parts[1..]);
      assert PathOf(dirs, d) + [parts[0]] + parts[1..] == PathOf(dirs, d) + parts;
    }
  }

  /** The bytes stored at an absolute address, a directory path and a file name. */
  function Lookup(dirs: seq<Dir>, dir: seq<string>, file: string): Option<seq<byte>>
    requires Tree(dirs)
  {
    match Resolve(dirs, 0, dir)
    case None => None
    case Some(d) => if file in dirs[d].files then Some(dirs[d].files[file]) else None
  }

  // ----- AddDir -----

  /** One round of the loop: the store and the directory after one path element, None if it left the root. */
  function Enter(dirs: seq<Dir>, d: nat, part: string): (r: (seq<Dir>, Option<nat>))
    requires Tree(dirs) && d < |dirs|
    ensures Tree(r.0) && |dirs| <= |r.0| && (r.1.Some? ==> r.1.value < |r.0|)
  {
    assert Linked(dirs, d) && Anchored(dirs, d);
    if part == "." || part == "" then (dirs, Some(d))
    else if part == ".." then (dirs, dirs[d].parent)
    else if part in dirs[d].childDirs then (dirs, Some(dirs[d].childDirs[part]))
    else
      MkdirIsTree(dirs, d, part);
      (Mkdir(dirs, d, part), Some(|dirs|))
  }

  function Mkdir(dirs: seq<Dir>, d: nat, name: string): seq<Dir>
    requires d < |dirs|
  {
    dirs[d := dirs[d].(childDirs := dirs[d].childDirs[name := |dirs|])] + [Dir(name, Some(d), map[], map[])]
  }

  lemma MkdirIsTree(dirs: seq<Dir>, d: nat, name: string)
    requires Tree(dirs) && d < |dirs| && name !in dirs[d].childDirs
    ensures Tree(Mkdir(dirs, d, name))
  {
    var r := Mkdir(dirs, d, name);
    forall i | 0 <= i < |r| ensures Linked(r, i) && Anchored(r, i) {
      if i < |dirs| { assert Linked(dirs, i) && Anchored(dirs, i); }
    }
  }

  function AddDirAt(dirs: seq<Dir>, d: nat, parts: seq<string>): (r: (seq<Dir>, Option<nat>))
    requires Tree(dirs) && d < |dirs|
    ensures Tree(r.0) && |dirs| <= |r.0| && (r.1.Some? ==> r.1.value < |r.0|)
    decreases |parts|
  {
    if parts == [] then (dirs, Some(d))
    else
      var (dirs1, d1) := Enter(dirs, d, parts[0]);
      if d1.None? then (dirs1, None) else AddDirAt(dirs1, d1.value, parts[1..])
  }

  /** Directories are only added: the old ones keep their place, their files and their children. */
  ghost predicate Grown(dirs: seq<Dir>, r: seq<Dir>) {
    && |dirs| <= |r|
    && (forall i :: 0 <= i < |dirs| ==>
          && r[i].name == dirs[i].name && r[i].parent == dirs[i].parent && r[i].files == dirs[i].files
          && (forall n <- dirs[i].childDirs :: n in r[i].childDirs && r[i].childDirs[n] == dirs[i].childDirs[n]))
    && (forall i :: |dirs| <= i < |r| ==> r[i].files == map[])
  }

  lemma GrownTrans(a: seq<Dir>, b: seq<Dir>, c: seq<Dir>)
    requires Grown(a, b) && Grown(b, c)
    ensures Grown(a, c)
  {
  }

  lemma {:induction false} AddDirGrows(dirs: seq<Dir>, d: nat, parts: seq<string>)
    requires Tree(dirs) && d < |dirs|
    ensures Grown(dirs, AddDirAt(dirs, d, parts).0)
    decreases |parts|
  {
    if parts != [] {
      var (dirs1, d1) := Enter(dirs, d, parts[0]);
      assert Grown(dirs, dirs1);
      if d1.Some? {
        AddDirGrows(dirs1, d1.value, parts[1..]);
        GrownTrans(dirs, dirs1, AddDirAt(dirs1, d1.value, parts[1..]).0);
      }
    }
  }

  lemma {:induction false} GrownKeepsPath(dirs: seq<Dir>, r: seq<Dir>, d: nat)
    requires Tree(dirs) && Tree(r) && Grown(dirs, r) && d < |dirs|
    ensures PathOf(r, d) == PathOf(dirs, d)
  {
    assert Anchored(dirs, d) && Anchored(r, d);
    if d != 0 { GrownKeepsPath(dirs, r, dirs[d].parent.value); }
  }

  /** AddDir leads where the path leads lexically, and fails exactly when it climbs above the root. */
  lemma {:induction false} AddDirNormalises(dirs: seq<Dir>, d: nat, parts: seq<string>)
    requires Tree(dirs) && d < |dirs|
    ensures var (r, e) := AddDirAt(dirs, d, parts);
            match Norm(PathOf(dirs, d), parts)
            case None => e.None?
            case Some(path) => e.Some? && PathOf(r, e.value) == path
    decreases |parts|
  {
    if parts != [] {
      var (dirs1, d1) := Enter(dirs, d, parts[0]);
      EnterNormalises(dirs, d, parts[0]);
      if d1.Some? { AddDirNormalises(dirs1, d1.value, parts[1..]); }
    }
  }

  lemma {:induction false} EnterNormalises(dirs: seq<Dir>, d: nat, part: string)
    requires Tree(dirs) && d < |dirs|
    ensures var (r, e) := Enter(dirs, d, part);
            var base := PathOf(dirs, d);
            if part == "." || part == "" then e.Some? && PathOf(r, e.value) == base
            else if part == ".."
            then (e.None? <==> base == []) && (e.Some? ==> PathOf(r, e.value) == base[..|base| - 1])
            else e.Some? && PathOf(r, e.value) == base + [part]
  {
    assert Linked(dirs, d) && Anchored(dirs, d);
    if PlainName(part) && part !in dirs[d].childDirs {
      var r := Mkdir(dirs, d, part);
      MkdirIsTree(dirs, d, part);
      assert Grown(dirs, r);
      GrownKeepsPath(dirs, r, d);
    }
  }

  /** Adding directories changes no file, present or absent. */
  lemma GrownKeepsFiles(dirs: seq<Dir>, r: seq<Dir>, dir: seq<string>, file: string)
    requires Tree(dirs) && Tree(r) && Grown(dirs, r)
    ensures Lookup(r, dir, file) == Lookup(dirs, dir, file)
  {
    var was, now := Resolve(dirs, 0, dir), Resolve(r, 0, dir);
    if was.Some? {
      GrownKeepsResolve(dirs, r, 0, dir);
    } else if now.Some? && now.value < |dirs| {
      GrownKeepsPath(dirs, r, now.value);
      ResolvedPath(r, 0, dir);
      assert PathOf(r, 0) + dir == dir;
      PathResolves(dirs, now.value);
    }
  }

  lemma {:induction false} GrownKeepsResolve(dirs: seq<Dir>, r: seq<Dir>, d: nat, parts: seq<string>)
    requires Tree(dirs) && Tree(r) && Grown(dirs, r) && d < |dirs| && Resolve(dirs, d, parts).Some?
    ensures Resolve(r, d, parts) == Resolve(dirs, d, parts)
    decreases |parts|
  {
    if parts != [] {
      assert Linked(dirs, d);
      GrownKeepsResolve(dirs, r, dirs[d].childDirs[parts[0]], parts[1..]);
    }
  }

  // ----- AddFile -----

  function Put(dirs: seq<Dir>, d: nat, file: string, bytes: seq<byte>): seq<Dir>
    requires d < |dirs|
  {
    dirs[d := dirs[d].(files := dirs[d].files[file := bytes])]
  }

  lemma {:induction false} PutKeepsTree(dirs: seq<Dir>, d: nat, file: string, bytes: seq<byte>, e: nat,
                                        parts: seq<string>)
    requires Tree(dirs) && d < |dirs| && e < |dirs|
    ensures Tree(Put(dirs, d, file, bytes))
    ensures Resolve(Put(dirs, d, file, bytes), e, parts) == Resolve(dirs, e, parts)
    decreases |parts|
  {
    var r := Put(dirs, d, file, bytes);
    forall i | 0 <= i < |r| ensures Linked(r, i) && Anchored(r, i) { assert Linked(dirs, i) && Anchored(dirs, i); }
    if parts != [] && parts[0] in dirs[e].childDirs {
      assert Linked(dirs, e);
      PutKeepsTree(dirs, d, file, bytes, dirs[e].childDirs[parts[0]], parts[1..]);
    }
  }

  /** Storing a file changes what is found at its own address and nothing else. */
  lemma {:induction false} PutSetsOneFile(dirs: seq<Dir>, d: nat, file: string, bytes: seq<byte>, dir: seq<string>,
                                          name: string)
    requires Tree(dirs) && d < |dirs|
    ensures Tree(Put(dirs, d, file, bytes))
    ensures Lookup(Put(dirs, d, file, bytes), dir, name)
         == if dir == PathOf(dirs, d) && name == file then Some(bytes) else Lookup(dirs, dir, name)
  {
    PutKeepsTree(dirs, d, file, bytes, 0, dir);
    PathResolves(dirs, d);
    if Resolve(dirs, 0, dir) == Some(d) { ResolvedPath(dirs, 0, dir); }
  }

  // ----- Runs -----

  datatype Op = AddFileOp(path: string, bytes: seq<byte>) | AddDirOp(path: string)

  function DirParts(path: string): seq<string> {
    var parts := Split(path);
    parts[..|parts| - 1]
  }

  function FileName(path: string): string {
    var parts := Split(path);
    parts[|parts| - 1]
  }

  /** The absolute directory an operation works in, seen from a root at `base`. */
  function Target(base: seq<string>, op: Op): Option<seq<string>> {
    Norm(base, if op.AddFileOp? then DirParts(op.path) else Split(op.path))
  }

  /** The tree after an operation.  One that climbs above the root keeps the directories made on the way;
      AddDir then returns nil, and AddFile fails on that. */
  function ApplyOp(dirs: seq<Dir>, root: nat, op: Op): (r: seq<Dir>)
    requires Tree(dirs) && root < |dirs|
    ensures Tree(r) && root < |r|
  {
    AddDirNormalises(dirs, root, if op.AddFileOp? then DirParts(op.path) else Split(op.path));
    match op
    case AddDirOp(path) => AddDirAt(dirs, root, Split(path)).0
    case AddFileOp(path, bytes) =>
      var (r, d) := AddDirAt(dirs, root, DirParts(path));
      if d.None? then r
      else
        PutKeepsTree(r, d.value, FileName(path), bytes, 0, []);
        Put(r, d.value, FileName(path), bytes)
  }

  /** An operation sets at most the one file it names. */
  lemma {:induction false} OpSetsOneFile(dirs: seq<Dir>, root: nat, op: Op, dir: seq<string>, name: string)
    requires Tree(dirs) && root < |dirs|
    ensures Lookup(ApplyOp(dirs, root, op), dir, name)
         == if op.AddFileOp? && Target(PathOf(dirs, root), op) == Some(dir) && FileName(op.path) == name
            then Some(op.bytes) else Lookup(dirs, dir, name)
    ensures PathOf(ApplyOp(dirs, root, op), root) == PathOf(dirs, root)
  {
    var parts := if op.AddFileOp? then DirParts(op.path) else Split(op.path);
    var (r, d) := AddDirAt(dirs, root, parts);
    AddDirNormalises(dirs, root, parts);
    AddDirGrows(dirs, root, parts);
    GrownKeepsFiles(dirs, r, dir, name);
    GrownKeepsPath(dirs, r, root);
    if op.AddFileOp? && d.Some? {
      PutSetsOneFile(r, d.value, FileName(op.path), op.bytes, dir, name);
      PutKeepsPath(r, d.value, FileName(op.path), op.bytes, root);
    }
  }

  lemma {:induction false} PutKeepsPath(dirs: seq<Dir>, d: nat, file: string, bytes: seq<byte>, e: nat)
    requires Tree(dirs) && d < |dirs| && e < |dirs| && Tree(Put(dirs, d, file, bytes))
    ensures PathOf(Put(dirs, d, file, bytes), e) == PathOf(dirs, e)
  {
    assert Anchored(dirs, e);
    if e != 0 { PutKeepsPath(dirs, d, file, bytes, dirs[e].parent.value); }
  }

  function Replay(dirs: seq<Dir>, root: nat, ops: seq<Op>): (r: seq<Dir>)
    requires Tree(dirs) && root < |dirs|
    ensures Tree(r)
    decreases |ops|
  {
    if ops == [] then dirs
    else
      OpSetsOneFile(dirs, root, ops[0], [], "");
      Replay(ApplyOp(dirs, root, ops[0]), root, ops[1..])
  }

  /** The bytes of the last operation that named this address, or what was there before. */
  function LastAdded(base: seq<string>, ops: seq<Op>, dir: seq<string>, name: string,
                     was: Option<seq<byte>>): Option<seq<byte>> {
    if ops == [] then was
    else
      var op := ops[0];
      LastAdded(base, ops[1..], dir, name,
                if op.AddFileOp? && Target(base, op) == Some(dir) && FileName(op.path) == name
                then Some(op.bytes) else was)
  }

  /** After any sequence of AddFile and AddDir calls, every address holds the last bytes added there, and
      every address that was not named holds what it held before. */
  lemma {:induction false} ReplayIsLastAdded(dirs: seq<Dir>, root: nat, ops: seq<Op>, dir: seq<string>, name: string)
    requires Tree(dirs) && root < |dirs|
    ensures Lookup(Replay(dirs, root, ops), dir, name)
         == LastAdded(PathOf(dirs, root), ops, dir, name, Lookup(dirs, dir, name))
    decreases |ops|
  {
    if ops != [] {
      OpSetsOneFile(dirs, root, ops[0], dir, name);
      OpSetsOneFile(dirs, root, ops[0], [], "");
      ReplayIsLastAdded(ApplyOp(dirs, root, ops[0]), root, ops[1..], dir, name);
    }
  }

  // ----- Opening and reading -----

  datatype Opened = OpenedFile(bytes: seq<byte>) | OpenedDir(id: nat) | NotExist | InvalidName

  /** What Open finds, seen from a root. */
  function OpenAt(dirs: seq<Dir>, root: nat, name: string): Opened
    requires Tree(dirs) && root < |dirs|
  {
    if name == "." then OpenedDir(root)
    else if !ValidPath(name) then InvalidName
    else
      match Resolve(dirs, root, DirParts(name))
      case None => NotExist
      case Some(d) =>
        if FileName(name) in dirs[d].files then OpenedFile(dirs[d].files[FileName(name)])
        else if FileName(name) in dirs[d].childDirs then OpenedDir(dirs[d].childDirs[FileName(name)])
        else NotExist
  }

  datatype ReadResult = Ok(bytes: seq<byte>) | NoSuchFile | NotAFile | BadName

  function ReadFileAt(dirs: seq<Dir>, root: nat, name: string): ReadResult
    requires Tree(dirs) && root < |dirs|
  {
    match OpenAt(dirs, root, name)
    case OpenedFile(bytes) => Ok(bytes)
    case OpenedDir(_) => NotAFile
    case NotExist => NoSuchFile
    case InvalidName => BadName
  }

  /** Reading a valid path yields exactly the bytes at its address below the root. */
  lemma {:induction false} ReadsTheMap(dirs: seq<Dir>, root: nat, name: string)
    requires Tree(dirs) && root < |dirs| && ValidPath(name) && name != "."
    ensures var dir := PathOf(dirs, root) + DirParts(name);
            match Lookup(dirs, dir, FileName(name))
            case Some(bytes) => ReadFileAt(dirs, root, name) == Ok(bytes)
            case None => !ReadFileAt(dirs, root, name).Ok?
  {
    PathResolves(dirs, root);
    ResolveConcat(dirs, 0, PathOf(dirs, root), DirParts(name));
  }

  /** For every path: what AddFile stores can be read back under the same path if and only if the path is
      valid and is not the root itself. */
  lemma {:induction false} ReadBackIffValid(dirs: seq<Dir>, root: nat, path: string, bytes: seq<byte>)
    requires Tree(dirs) && root < |dirs|
    ensures ReadFileAt(ApplyOp(dirs, root, AddFileOp(path, bytes)), root, path) == Ok(bytes)
       <==> ValidPath(path) && path != "."
  {
    if ValidPath(path) && path != "." {
      var op, base := AddFileOp(path, bytes), PathOf(dirs, root);
      var r := ApplyOp(dirs, root, op);
      assert AllPlain(DirParts(path)) by {
        forall p <- DirParts(path) ensures PlainName(p) { assert p in Split(path); }
      }
      NormPlain(base, DirParts(path));
      OpSetsOneFile(dirs, root, op, base + DirParts(path), FileName(path));
      ReadsTheMap(r, root, path);
    }
  }

  lemma {:induction false} SplitEnds(a: string, b: string)
    ensures DirParts(a + ['/'] + b) == Split(a) + DirParts(b) && FileName(a + ['/'] + b) == FileName(b)
  {
    SplitJoined(a, b);
    var x, y := Split(a), Split(b);
    assert (x + y)[..|x + y| - 1] == x + y[..|y| - 1];
  }

  lemma {:induction false} JoinedIsValid(dir: string, name: string)
    requires AllPlain(Split(dir)) && AllPlain(Split(name))
    ensures var path := dir + ['/'] + name; ValidPath(path) && path != "."
  {
    hide Split;
    var path := dir + ['/'] + name;
    SplitJoined(dir, name);
    forall p <- Split(path) ensures PlainName(p) { assert p in Split(dir) || p in Split(name); }
    assert path[|dir|] == '/';
  }

  /** Reading a valid path through a sub file system is reading the joined path. */
  lemma SubReadsJoinedPath(dirs: seq<Dir>, root: nat, dir: string, name: string)
    requires Tree(dirs) && root < |dirs|
    requires ValidPath(dir) && dir != "." && ValidPath(name) && name != "."
    requires OpenAt(dirs, root, dir).OpenedDir?
    ensures OpenAt(dirs, root, dir).id < |dirs|
    ensures ReadFileAt(dirs, OpenAt(dirs, root, dir).id, name) == ReadFileAt(dirs, root, dir + ['/'] + name)
  {
    hide Split;
    var path := dir + ['/'] + name;
    SplitEnds(dir, name);
    JoinedIsValid(dir, name);
    var d := Resolve(dirs, root, DirParts(dir)).value;
    assert Linked(dirs, d);
    assert Split(dir) == DirParts(dir) + [FileName(dir)];
    ResolveConcat(dirs, root, DirParts(dir), [FileName(dir)]);
    assert [FileName(dir)][1..] == [];
    ResolveConcat(dirs, root, Split(dir), DirParts(name));
  }

  // ----- Directories -----

  /** A directory stands at this address. */
  ghost predicate HasDir(dirs: seq<Dir>, path: seq<string>)
    requires Tree(dirs)
  {
    exists i: nat :: i < |dirs| && PathOf(dirs, i) == path
  }

  lemma {:induction false} ResolvesIffDir(dirs: seq<Dir>, root: nat, parts: seq<string>)
    requires Tree(dirs) && root < |dirs|
    ensures Resolve(dirs, root, parts).Some? <==> HasDir(dirs, PathOf(dirs, root) + parts)
    ensures Resolve(dirs, root, parts).Some? ==>
              PathOf(dirs, Resolve(dirs, root, parts).value) == PathOf(dirs, root) + parts
  {
    var path := PathOf(dirs, root) + parts;
    if Resolve(dirs, root, parts).Some? { ResolvedPath(dirs, root, parts); }
    if HasDir(dirs, path) {
      var i: nat :| i < |dirs| && PathOf(dirs, i) == path;
      PathResolves(dirs, i);
      PathResolves(dirs, root);
      ResolveConcat(dirs, 0, PathOf(dirs, root), parts);
    }
  }

  lemma {:induction false} OpenByParts(dirs: seq<Dir>, root: nat, name: string)
    requires Tree(dirs) && root < |dirs| && ValidPath(name) && name != "."
    ensures OpenAt(dirs, root, name)
            == match Lookup(dirs, PathOf(dirs, root) + DirParts(name), FileName(name))
               case Some(bytes) => OpenedFile(bytes)
               case None =>
                 match Resolve(dirs, root, Split(name))
                 case Some(d) => OpenedDir(d)
                 case None => NotExist
  {
    hide Split, ValidPath;
    PathResolves(dirs, root);
    ResolveConcat(dirs, 0, PathOf(dirs, root), DirParts(name));
    assert Split(name) == DirParts(name) + [FileName(name)];
    ResolveConcat(dirs, root, DirParts(name), [FileName(name)]);
    assert [FileName(name)][1..] == [];
  }

  /** What Open and ReadFile say of every path: a file, if one stands at its address; else a directory, if one
      does; else that there is nothing; and that the path is not valid exactly if it is not. */
  lemma {:induction false} OpensWhatStandsThere(dirs: seq<Dir>, root: nat, name: string)
    requires Tree(dirs) && root < |dirs|
    ensures ReadFileAt(dirs, root, name) == BadName <==> !ValidPath(name)
    ensures ValidPath(name) && name != "." ==>
              var base := PathOf(dirs, root);
              var isFile := Lookup(dirs, base + DirParts(name), FileName(name)).Some?;
              && (ReadFileAt(dirs, root, name).Ok? <==> isFile)
              && (ReadFileAt(dirs, root, name) == NotAFile <==> !isFile && HasDir(dirs, base + Split(name)))
              && (ReadFileAt(dirs, root, name) == NoSuchFile <==> !isFile && !HasDir(dirs, base + Split(name)))
              && (OpenAt(dirs, root, name).OpenedDir? ==>
                    var d := OpenAt(dirs, root, name).id; d < |dirs| && PathOf(dirs, d) == base + Split(name))
    ensures OpenAt(dirs, root, ".") == OpenedDir(root) && ReadFileAt(dirs, root, ".") == NotAFile
  {
    hide Split, HasDir, AllPlain;
    if ValidPath(name) && name != "." {
      OpenByParts(dirs, root, name);
      ResolvesIffDir(dirs, root, Split(name));
    }
  }

  /** After AddDir of a valid path, Open finds the directory there, unless a file has its name. */
  lemma {:induction false} AddedDirOpens(dirs: seq<Dir>, root: nat, path: string)
    requires Tree(dirs) && root < |dirs| && ValidPath(path) && path != "."
    ensures var r, base := ApplyOp(dirs, root, AddDirOp(path)), PathOf(dirs, root);
            if Lookup(dirs, base + DirParts(path), FileName(path)).Some? then OpenAt(r, root, path).OpenedFile?
            else && OpenAt(r, root, path).OpenedDir? && OpenAt(r, root, path).id < |r|
                 && PathOf(r, OpenAt(r, root, path).id) == base + Split(path)
  {
    hide Split, HasDir, Norm;
    var op, base := AddDirOp(path), PathOf(dirs, root);
    var r := ApplyOp(dirs, root, op);
    OpSetsOneFile(dirs, root, op, base + DirParts(path), FileName(path));
    NormPlain(base, Split(path));
    AddDirNormalises(dirs, root, Split(path));
    var d := AddDirAt(dirs, root, Split(path)).1;
    assert HasDir(r, base + Split(path)) by { IsHasDir(r, d.value); }
    OpenByParts(r, root, path);
    ResolvesIffDir(r, root, Split(path));
  }

  /** The directories AddDir makes are those it comes through, and no others. */
  lemma {:induction false} AddDirMakes(dirs: seq<Dir>, d: nat, parts: seq<string>, path: seq<string>)
    requires Tree(dirs) && d < |dirs|
    ensures HasDir(AddDirAt(dirs, d, parts).0, path)
       <==> HasDir(dirs, path) || exists k: nat :: k <= |parts| && Norm(PathOf(dirs, d), parts[..k]) == Some(path)
    decreases |parts|
  {
    hide HasDir, Enter, Norm;
    var base := PathOf(dirs, d);
    NormNothing(base);
    IsHasDir(dirs, d);
    if parts == [] {
      assert forall k: nat :: k <= |parts| ==> parts[..k] == [];
    } else {
      var (dirs1, d1) := Enter(dirs, d, parts[0]);
      EnterMakes(dirs, d, parts[0], path);
      forall k: nat | 0 < k <= |parts|
        ensures Norm(base, parts[..k]) == if d1.None? then None else Norm(PathOf(dirs1, d1.value), parts[1..][..k - 1])
      {
        assert parts[..k][1..] == parts[1..][..k - 1] && parts[..k][0] == parts[0];
        NormStep(dirs, d, parts[..k]);
      }
      assert parts[..0] == [];
      if d1.Some? {
        var base1 := PathOf(dirs1, d1.value);
        AddDirMakes(dirs1, d1.value, parts[1..], path);
        NormNothing(base1);
        assert parts[1..][..0] == [];
        if k: nat :| k <= |parts[1..]| && Norm(base1, parts[1..][..k]) == Some(path) {
          assert Norm(base, parts[..k + 1]) == Some(path);
        }
        if base1 == path { assert Norm(base, parts[..1]) == Some(path); }
      }
    }
  }

  lemma NormNothing(base: seq<string>)
    ensures Norm(base, []) == Some(base)
  {
  }

  lemma {:induction false} NormStep(dirs: seq<Dir>, d: nat, parts: seq<string>)
    requires Tree(dirs) && d < |dirs| && parts != []
    ensures var (r, e) := Enter(dirs, d, parts[0]);
            Norm(PathOf(dirs, d), parts) == if e.None? then None else Norm(PathOf(r, e.value), parts[1..])
  {
    hide Enter, PathOf;
    EnterNormalises(dirs, d, parts[0]);
  }

  lemma {:induction false} EnterMakes(dirs: seq<Dir>, d: nat, part: string, path: seq<string>)
    requires Tree(dirs) && d < |dirs|
    ensures var (r, e) := Enter(dirs, d, part);
            && (e.None? ==> r == dirs)
            && (e.Some? ==> (HasDir(r, path) <==> HasDir(dirs, path) || path == PathOf(r, e.value)))
  {
    var (r, e) := Enter(dirs, d, part);
    assert Linked(dirs, d) && Anchored(dirs, d);
    if |r| == |dirs| {
      assert r == dirs;
    } else {
      assert Grown(dirs, r);
      forall i | 0 <= i < |dirs| ensures PathOf(r, i) == PathOf(dirs, i) { GrownKeepsPath(dirs, r, i); }
      if HasDir(dirs, path) {
        var i: nat :| i < |dirs| && PathOf(dirs, i) == path;
        assert PathOf(r, i) == path;
      }
    }
  }

  lemma IsHasDir(dirs: seq<Dir>, i: nat)
    requires Tree(dirs) && i < |dirs|
    ensures HasDir(dirs, PathOf(dirs, i))
  {
  }

  // ----- The file system -----

  class Store {
    var dirs: seq<Dir>

    ghost predicate Valid()
      reads this
    {
      Tree(dirs)
    }

    constructor ()
      ensures Valid() && dirs == [Dir("", None, map[], map[])]
    {
      dirs := [Dir("", None, map[], map[])];
    }
  }

  class FileSystem {
    const store: Store
    const root: nat

    ghost predicate Valid()
      reads this, store
    {
      store.Valid() && root < |store.dirs|
    }

    constructor ()
      ensures Valid() && fresh(store) && root == 0 && store.dirs == [Dir("", None, map[], map[])]
    {
      store := new Store();
      root := 0;
    }

    constructor At(store: Store, root: nat)
      requires store.Valid() && root < |store.dirs|
      ensures Valid() && this.store == store && this.root == root
    {
      this.store, this.root := store, root;
    }

    method AddDir(dirPath: string) returns (r: Option<nat>)
      requires Valid()
      modifies store
      ensures Valid() && (r.Some? ==> r.value < |store.dirs|)
      ensures (store.dirs, r) == AddDirAt(old(store.dirs), root, Split(dirPath))
    {
      var dirParts := Split(dirPath);
      var dir: nat, i: nat := root, 0;
      while i < |dirParts|
        invariant i <= |dirParts| && Valid() && dir < |store.dirs|
        invariant AddDirAt(store.dirs, dir, dirParts[i..]) == AddDirAt(old(store.dirs), root, dirParts)
      {
        var dirPart, dirs := dirParts[i], store.dirs;
        assert dirParts[i..][1..] == dirParts[i + 1..];
        assert Linked(dirs, dir) && Anchored(dirs, dir);
        i := i + 1;
        if dirPart == "." || dirPart == "" { continue; }
        if dirPart == ".." {
          if dirs[dir].parent == None { return None; }
          dir := dirs[dir].parent.value;
          continue;
        }
        if dirPart !in dirs[dir].childDirs {
          MkdirIsTree(dirs, dir, dirPart);
          store.dirs := Mkdir(dirs, dir, dirPart);
        }
        dir := store.dirs[dir].childDirs[dirPart];
      }
      r := Some(dir);
    }

    /** `ok` is false where the source dereferences the nil directory that AddDir returned. */
    method AddFile(path: string, bytes: seq<byte>) returns (ok: bool)
      requires Valid()
      modifies store
      ensures Valid()
      ensures var op := AddFileOp(path, bytes);
              ok == Target(PathOf(old(store.dirs), root), op).Some? && store.dirs == ApplyOp(old(store.dirs), root, op)
    {
      var dirPath, filename := SplitPath(path);
      PathSplits(dirPath, filename);
      AddDirNormalises(store.dirs, root, DirParts(path));
      TrailingSlash(store.dirs, root, DirParts(path));
      var dir := AddDir(dirPath);
      ok := dir.Some?;
      if ok {
        PutKeepsTree(store.dirs, dir.value, filename, bytes, 0, []);
        store.dirs := Put(store.dirs, dir.value, filename, bytes);
      }
    }

    method Open(name: string) returns (r: Opened)
      requires Valid()
      ensures r == OpenAt(store.dirs, root, name)
    {
      if name == "." { return OpenedDir(root); }
      if !ValidPath(name) { return InvalidName; }
      var parts, dirs := Split(name), store.dirs;
      var last := |parts| - 1;
      var dir: nat, i: nat := root, 0;
      while i < last
        invariant i <= last && dir < |dirs|
        invariant Resolve(dirs, dir, parts[i..last]) == Resolve(dirs, root, parts[..last])
      {
        assert parts[i..last][1..] == parts[i + 1..last];
        assert Linked(dirs, dir);
        if parts[i] !in dirs[dir].childDirs { return NotExist; }
        dir := dirs[dir].childDirs[parts[i]];
        i := i + 1;
      }
      var childName := parts[last];
      if childName in dirs[dir].files { return OpenedFile(dirs[dir].files[childName]); }
      if childName in dirs[dir].childDirs { return OpenedDir(dirs[dir].childDirs[childName]); }
      return NotExist;
    }

    method ReadFile(name: string) returns (r: ReadResult)
      requires Valid()
      ensures r == ReadFileAt(store.dirs, root, name)
    {
      var file := Open(name);
      match file
      case OpenedFile(bytes) => r := Ok(bytes);
      case OpenedDir(_) => r := NotAFile;
      case NotExist => r := NoSuchFile;
      case InvalidName => r := BadName;
    }

    /** A file system on the same store, rooted at the directory that Open finds. */
    method Sub(dir: string) returns (r: Option<FileSystem>)
      requires Valid()
      ensures r.Some? <==> OpenAt(store.dirs, root, dir).OpenedDir?
      ensures r.Some? ==> r.value.Valid() && r.value.store == store && r.value.root == OpenAt(store.dirs, root, dir).id
    {
      var file := Open(dir);
      if !file.OpenedDir? { return None; }
      OpenedInStore(store.dirs, root, dir);
      var fs := new FileSystem.At(store, file.id);
      r := Some(fs);
    }
  }

  lemma OpenedInStore(dirs: seq<Dir>, root: nat, name: string)
    requires Tree(dirs) && root < |dirs| && OpenAt(dirs, root, name).OpenedDir?
    ensures OpenAt(dirs, root, name).id < |dirs|
  {
    if name != "." {
      assert Linked(dirs, Resolve(dirs, root, DirParts(name)).value);
    }
  }

  /** The pieces of filepath.Split are those of the slash-separated path. */
  lemma {:induction false} PathSplits(dir: string, file: string)
    requires '/' !in file && (dir == [] || dir[|dir| - 1] == '/')
    ensures FileName(dir + file) == file && Split(dir) == DirParts(dir + file) + [""]
  {
    hide Split, FileName, DirParts;
    SplitPlain(file);
    if dir == [] {
      assert dir + file == file;
      BareSplits(file);
    } else {
      var d := dir[..|dir| - 1];
      assert dir == d + ['/'];
      JoinedSplits(d, file);
    }
  }

  lemma {:induction false} BareSplits(file: string)
    requires Split(file) == [file]
    ensures FileName(file) == file && Split("") == DirParts(file) + [""]
  {
    hide Split;
    SplitPlain("");
  }

  lemma {:induction false} JoinedSplits(d: string, file: string)
    requires Split(file) == [file]
    ensures FileName(d + ['/'] + file) == file && Split(d + ['/']) == DirParts(d + ['/'] + file) + [""]
  {
    hide Split;
    SplitPlain("");
    SplitJoined(d, "");
    assert d + ['/'] + "" == d + ['/'];
    SplitEnds(d, file);
    assert Split(d) + [file][..0] == Split(d);
  }

  /** The empty element behind a trailing slash is skipped. */
  lemma {:induction false} TrailingSlash(dirs: seq<Dir>, d: nat, parts: seq<string>)
    requires Tree(dirs) && d < |dirs|
    ensures AddDirAt(dirs, d, parts + [""]) == AddDirAt(dirs, d, parts)
    decreases |parts|
  {
    if parts == [] {
      assert [""][1..] == [] && parts + [""] == [""];
    } else {
      assert (parts + [""])[1..] == parts[1..] + [""];
      var (dirs1, d1) := Enter(dirs, d, parts[0]);
      if d1.Some? { TrailingSlash(dirs1, d1.value, parts[1..]); }
    }
  }
}
