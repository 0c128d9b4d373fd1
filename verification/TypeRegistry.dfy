/** The registry of named types that client generation walks (pkg/clientgen/types.go).

    A declaration refers to others through its type; references may be cyclic.  The registry lists every
    declaration reachable from the exposed endpoints and records in declRefs, incrementally and
    incompletely, what refers to what.  The generator makes a field optional when IsRecursiveRef holds. */
module TypeRegistry {
  import opened Common

  datatype Type =
    | Absent
    | Builtin
    | TypeParameter
    | Literal
    | Named(id: nat, args: seq<Type>)
    | List(elem: Type)
    | Map(key: Type, value: Type)
    | Struct(fields: seq<Type>)
    | Pointer(base: Type)
    | Opt(value: Type)
    | Config(elem: Type)
    | Union(types: seq<Type>)

  datatype Decl = Decl(id: nat, pkg: string, typ: Type)

  // ----- References -----

  /** The declarations a type names, in the order in which they are visited. */
  function Refs(t: Type): seq<nat>
    decreases t, 0
  {
    match t
    case Absent => []
    case Builtin => []
    case TypeParameter => []
    case Literal => []
    case Named(id, args) => [id] + RefsAll(args)
    case List(elem) => Refs(elem)
    case Map(key, value) => Refs(key) + Refs(value)
    case Struct(fields) => RefsAll(fields)
    case Pointer(base) => Refs(base)
    case Opt(value) => Refs(value)
    case Config(elem) => Refs(elem)
    case Union(types) => RefsAll(types)
  }

  function RefsAll(ts: seq<Type>): seq<nat>
    decreases ts, 1
  {
    if ts == [] then [] else Refs(ts[0]) + RefsAll(ts[1..])
  }

  predicate InRange(decls: seq<Decl>, ids: seq<nat>) {
    forall i :: 0 <= i < |ids| ==> ids[i] < |decls|
  }

  /** Declarations are indexed by their ids and refer only to each other. */
  predicate WellFormed(decls: seq<Decl>) {
    forall i :: 0 <= i < |decls| ==> decls[i].id == i && InRange(decls, Refs(decls[i].typ))
  }

  // ----- What a type mentions -----

  /** The types a type is made of. */
  function Children(t: Type): seq<Type> {
    match t
    case Absent => []
    case Builtin => []
    case TypeParameter => []
    case Literal => []
    case Named(_, args) => args
    case List(elem) => [elem]
    case Map(key, value) => [key, value]
    case Struct(fields) => fields
    case Pointer(base) => [base]
    case Opt(value) => [value]
    case Config(elem) => [elem]
    case Union(types) => types
  }

  /** The part of a type that a path of child positions leads to. */
  ghost predicate PartAt(t: Type, path: seq<nat>, part: Type)
    decreases |path|
  {
    if path == [] then part == t
    else path[0] < |Children(t)| && PartAt(Children(t)[path[0]], path[1..], part)
  }

  /** Some part of t is the declaration's name. */
  ghost predicate Mentions(t: Type, id: nat) {
    exists path: seq<nat>, args: seq<Type> :: PartAt(t, path, Named(id, args))
  }

  lemma MentionedByChild(t: Type, i: nat, id: nat)
    requires i < |Children(t)| && Mentions(Children(t)[i], id)
    ensures Mentions(t, id)
  {
    var path: seq<nat>, args: seq<Type> :| PartAt(Children(t)[i], path, Named(id, args));
    assert ([i] + path)[1..] == path;
    assert PartAt(t, [i] + path, Named(id, args));
  }

  lemma MentionedBelow(t: Type, id: nat) returns (i: nat)
    requires Mentions(t, id) && (t.Named? ==> t.id != id)
    ensures i < |Children(t)| && Mentions(Children(t)[i], id)
  {
    var path: seq<nat>, args: seq<Type> :| PartAt(t, path, Named(id, args));
    i := path[0];
    assert PartAt(Children(t)[i], path[1..], Named(id, args));
  }

  lemma {:induction false} RefsOfAll(ts: seq<Type>, id: nat)
    ensures id in RefsAll(ts) <==> exists i :: 0 <= i < |ts| && id in Refs(ts[i])
  {
    hide Refs;
    if ts != [] {
      RefsOfAll(ts[1..], id);
      assert ts == [ts[0]] + ts[1..];
      if id in Refs(ts[0]) { assert id in Refs(ts[0]); }
      if i :| 0 <= i < |ts[1..]| && id in Refs(ts[1..][i]) { assert id in Refs(ts[i + 1]); }
    }
  }

  /** Below its top, a type's references are those of its children. */
  lemma {:induction false} RefsByChildren(t: Type, id: nat)
    ensures id in Refs(t)
       <==> (t.Named? && t.id == id) || exists i :: 0 <= i < |Children(t)| && id in Refs(Children(t)[i])
  {
    var cs := Children(t);
    match t
    case Named(_, args) => RefsOfAll(args, id);
    case Struct(fields) => RefsOfAll(fields, id);
    case Union(types) => RefsOfAll(types, id);
    case Map(key, value) => assert cs[0] == key && cs[1] == value;
    case List(elem) => assert cs[0] == elem;
    case Pointer(base) => assert cs[0] == base;
    case Opt(value) => assert cs[0] == value;
    case Config(elem) => assert cs[0] == elem;
    case _ =>
  }

  /** The references of a type are exactly the declarations that some part of it names. */
  lemma {:induction false} RefsAreMentions(t: Type, id: nat)
    ensures id in Refs(t) <==> Mentions(t, id)
    decreases t
  {
    hide Refs, Mentions;
    var cs := Children(t);
    forall i | 0 <= i < |cs| ensures id in Refs(cs[i]) <==> Mentions(cs[i], id) { RefsAreMentions(cs[i], id); }
    RefsByChildren(t, id);
    if t.Named? && t.id == id {
      NamesItself(t);
    } else {
      if id in Refs(t) {
        var i :| 0 <= i < |cs| && id in Refs(cs[i]);
        MentionedByChild(t, i, id);
      }
      if Mentions(t, id) {
        var i := MentionedBelow(t, id);
      }
    }
  }

  /** A type and all its parts, each before its own parts, in the order in which they are written. */
  function Preorder(t: Type): seq<Type>
    decreases t, 0
  {
    [t] + PreorderAll(Children(t), t)
  }

  function PreorderAll(ts: seq<Type>, t: Type): seq<Type>
    requires forall i :: 0 <= i < |ts| ==> (t decreases to ts[i])
    decreases t, 0, |ts|
  {
    if ts == [] then [] else Preorder(ts[0]) + PreorderAll(ts[1..], t)
  }

  function NamesIn(ts: seq<Type>): seq<nat> {
    if ts == [] then [] else (if ts[0].Named? then [ts[0].id] else []) + NamesIn(ts[1..])
  }

  lemma {:induction false} NamesInConcat(a: seq<Type>, b: seq<Type>)
    ensures NamesIn(a + b) == NamesIn(a) + NamesIn(b)
  {
    if a == [] {
      assert a + b == b;
    } else {
      assert (a + b)[1..] == a[1..] + b && (a + b)[0] == a[0];
      NamesInConcat(a[1..], b);
      var first := if a[0].Named? then [a[0].id] else [];
      assert first + (NamesIn(a[1..]) + NamesIn(b)) == first + NamesIn(a[1..]) + NamesIn(b);
    }
  }

  /** References are visited in the order in which they are written. */
  lemma {:induction false} RefsInOrder(t: Type)
    ensures Refs(t) == NamesIn(Preorder(t))
    decreases t, 0
  {
    var cs := Children(t);
    RefsAllInOrder(cs, t);
    assert NamesIn([t]) == if t.Named? then [t.id] else [] by { assert [t][1..] == []; }
    NamesInConcat([t], PreorderAll(cs, t));
    assert Refs(t) == (if t.Named? then [t.id] else []) + RefsAll(cs) by { RefsOfChildren(t); }
  }

  lemma {:induction false} RefsAllInOrder(ts: seq<Type>, t: Type)
    requires forall i :: 0 <= i < |ts| ==> (t decreases to ts[i])
    ensures RefsAll(ts) == NamesIn(PreorderAll(ts, t))
    decreases t, 0, |ts|
  {
    if ts != [] {
      RefsInOrder(ts[0]);
      RefsAllInOrder(ts[1..], t);
      NamesInConcat(Preorder(ts[0]), PreorderAll(ts[1..], t));
    }
  }

  lemma {:induction false} RefsOfChildren(t: Type)
    ensures Refs(t) == (if t.Named? then [t.id] else []) + RefsAll(Children(t))
  {
    var cs := Children(t);
    if t.List? || t.Pointer? || t.Opt? || t.Config? { RefsAllOne(cs[0]); }
    if t.Map? {
      RefsAllOne(t.value);
      assert cs[1..] == [t.value];
    }
  }

  lemma NamesItself(t: Type)
    requires t.Named?
    ensures Mentions(t, t.id)
  {
    assert PartAt(t, [], Named(t.id, t.args));
  }

  ghost predicate Edge(decls: seq<Decl>, a: nat, b: nat) {
    a < |decls| && Mentions(decls[a].typ, b)
  }

  lemma EdgesAreRefs(decls: seq<Decl>, a: nat)
    requires a < |decls|
    ensures forall b :: Edge(decls, a, b) <==> b in Refs(decls[a].typ)
  {
    hide Refs, Mentions;
    forall b ensures Edge(decls, a, b) <==> b in Refs(decls[a].typ) { RefsAreMentions(decls[a].typ, b); }
  }

  /** Consecutive elements are linked by references. */
  ghost predicate Walk(decls: seq<Decl>, p: seq<nat>) {
    forall i :: 0 <= i < |p| - 1 ==> Edge(decls, p[i], p[i + 1])
  }

  ghost predicate WalkFromTo(decls: seq<Decl>, p: seq<nat>, a: nat, b: nat) {
    |p| > 0 && p[0] == a && p[|p| - 1] == b && Walk(decls, p)
  }

  /** b can be reached from a in one or more references. */
  ghost predicate Reach(decls: seq<Decl>, a: nat, b: nat) {
    exists p: seq<nat> :: |p| >= 2 && WalkFromTo(decls, p, a, b)
  }

  lemma EdgeReaches(decls: seq<Decl>, a: nat, b: nat)
    requires Edge(decls, a, b)
    ensures Reach(decls, a, b)
  {
    assert WalkFromTo(decls, [a, b], a, b);
  }

  lemma ReachTrans(decls: seq<Decl>, a: nat, b: nat, c: nat)
    requires Reach(decls, a, b) && Reach(decls, b, c)
    ensures Reach(decls, a, c)
  {
    var p: seq<nat> :| |p| >= 2 && WalkFromTo(decls, p, a, b);
    var q: seq<nat> :| |q| >= 2 && WalkFromTo(decls, q, b, c);
    var r := p + q[1..];
    forall i | 0 <= i < |r| - 1 ensures Edge(decls, r[i], r[i + 1]) {
      if i < |p| - 1 {
        assert r[i] == p[i] && r[i + 1] == p[i + 1];
      } else {
        assert r[i] == q[i - (|p| - 1)] && r[i + 1] == q[i - (|p| - 1) + 1];
      }
    }
    assert WalkFromTo(decls, r, a, c);
  }

  // ----- Specification of the walk -----

  /** Declarations in the order of discovery, and the recorded references. */
  datatype State = State(order: seq<nat>, refs: map<nat, set<nat>>)

  function RefsOf(refs: map<nat, set<nat>>, a: nat): set<nat> {
    if a in refs then refs[a] else {}
  }

  function AddRefs(s: State, from: nat, tos: set<nat>): State {
    s.(refs := s.refs[from := RefsOf(s.refs, from) + tos])
  }

  function Unseen(decls: seq<Decl>, s: State): set<nat> {
    set i: nat | i < |decls| && i !in s.order
  }

  predicate Known(decls: seq<Decl>, s: State) {
    WellFormed(decls) && InRange(decls, s.order)
  }

  /** Visiting references one after the other, on behalf of the declaration `curr` if there is one. */
  function VisitIds(decls: seq<Decl>, s: State, curr: Option<nat>, ids: seq<nat>): (r: State)
    requires Known(decls, s) && InRange(decls, ids)
    ensures Known(decls, r) && s.order <= r.order
    decreases Unseen(decls, s), |ids| + 1
  {
    if ids == [] then s
    else
      var s1 := VisitId(decls, s, curr, ids[0]);
      VisitIds(decls, s1, curr, ids[1..])
  }

  function VisitId(decls: seq<Decl>, s: State, curr: Option<nat>, to: nat): (r: State)
    requires Known(decls, s) && to < |decls|
    ensures Known(decls, r) && s.order <= r.order
    decreases Unseen(decls, s), 1
  {
    var s1 := if curr.Some? then AddRefs(s, curr.value, {to}) else s;
    var s2 := VisitDecl(decls, s1, to);
    if curr.Some? then AddRefs(s2, curr.value, RefsOf(s2.refs, to)) else s2
  }

  function VisitDecl(decls: seq<Decl>, s: State, d: nat): (r: State)
    requires Known(decls, s) && d < |decls|
    ensures Known(decls, r) && s.order <= r.order
    decreases Unseen(decls, s), 0
  {
    if d in s.order then s
    else
      var s1 := s.(order := s.order + [d]);
      assert d in Unseen(decls, s) && d !in Unseen(decls, s1);
      VisitIds(decls, s1, Some(d), Refs(decls[d].typ))
  }

  lemma {:induction false} VisitNothing(decls: seq<Decl>, s: State, curr: Option<nat>)
    requires Known(decls, s)
    ensures VisitIds(decls, s, curr, []) == s
  {
  }

  lemma {:induction false} VisitIdsConcat(decls: seq<Decl>, s: State, curr: Option<nat>, a: seq<nat>, b: seq<nat>)
    requires Known(decls, s) && InRange(decls, a) && InRange(decls, b)
    ensures VisitIds(decls, s, curr, a + b) == VisitIds(decls, VisitIds(decls, s, curr, a), curr, b)
    decreases |a|
  {
    if a == [] {
      assert a + b == b;
    } else {
      assert (a + b)[1..] == a[1..] + b;
      VisitIdsConcat(decls, VisitId(decls, s, curr, a[0]), curr, a[1..], b);
    }
  }

  // ----- Soundness: what is recorded can be reached -----

  ghost predicate Sound(decls: seq<Decl>, refs: map<nat, set<nat>>) {
    forall a, b :: a in refs && b in refs[a] ==> Reach(decls, a, b)
  }

  lemma {:induction false} VisitIdsSound(decls: seq<Decl>, s: State, curr: Option<nat>, ids: seq<nat>)
    requires Known(decls, s) && InRange(decls, ids) && Sound(decls, s.refs)
    requires curr.Some? ==> forall id <- ids :: Edge(decls, curr.value, id)
    ensures Sound(decls, VisitIds(decls, s, curr, ids).refs)
    decreases Unseen(decls, s), |ids| + 1
  {
    if ids != [] {
      VisitIdSound(decls, s, curr, ids[0]);
      VisitIdsSound(decls, VisitId(decls, s, curr, ids[0]), curr, ids[1..]);
    }
  }

  lemma {:induction false} VisitIdSound(decls: seq<Decl>, s: State, curr: Option<nat>, to: nat)
    requires Known(decls, s) && to < |decls| && Sound(decls, s.refs)
    requires curr.Some? ==> Edge(decls, curr.value, to)
    ensures Sound(decls, VisitId(decls, s, curr, to).refs)
    decreases Unseen(decls, s), 1
  {
    if curr.Some? {
      var c := curr.value;
      EdgeReaches(decls, c, to);
      var s1 := AddRefs(s, c, {to});
      VisitDeclSound(decls, s1, to);
      var s2 := VisitDecl(decls, s1, to);
      forall b <- RefsOf(s2.refs, to) ensures Reach(decls, c, b) { ReachTrans(decls, c, to, b); }
    } else {
      VisitDeclSound(decls, s, to);
    }
  }

  lemma {:induction false} VisitDeclSound(decls: seq<Decl>, s: State, d: nat)
    requires Known(decls, s) && d < |decls| && Sound(decls, s.refs)
    ensures Sound(decls, VisitDecl(decls, s, d).refs)
    decreases Unseen(decls, s), 0
  {
    if d !in s.order {
      var s1 := s.(order := s.order + [d]);
      assert d in Unseen(decls, s) && d !in Unseen(decls, s1);
      EdgesAreRefs(decls, d);
      VisitIdsSound(decls, s1, Some(d), Refs(decls[d].typ));
    }
  }

  // ----- What each visit adds -----

  /** The declarations at k up to hi were discovered while the one at k was visited: it is recorded as
      referring to all the others, and all their references are recorded and already discovered. */
  ghost predicate Block(decls: seq<Decl>, s: State, k: nat, hi: nat) {
    && k < hi <= |s.order|
    && (forall j :: k < j < hi ==> s.order[j] in RefsOf(s.refs, s.order[k]))
    && (forall j :: k <= j < hi ==> Closed(decls, s, s.order[j], hi))
  }

  /** All references of a are recorded and lead to one of the first hi declarations. */
  ghost predicate Closed(decls: seq<Decl>, s: State, a: nat, hi: nat)
    requires hi <= |s.order|
  {
    forall b :: Edge(decls, a, b) ==> b in s.order[..hi] && b in RefsOf(s.refs, a)
  }

  ghost predicate Finished(decls: seq<Decl>, s: State, k: nat) {
    exists hi: nat :: Block(decls, s, k, hi)
  }

  /** r extends s: only `curr` and newly discovered declarations gain references, and every newly
      discovered declaration is finished. */
  ghost predicate Extends(decls: seq<Decl>, s: State, r: State, curr: Option<nat>) {
    && OnlyGrows(s, r, curr)
    && (forall j :: |s.order| <= j < |r.order| ==> Finished(decls, r, j))
  }

  /** Everything discovered or named on the way is recorded for `curr`. */
  ghost predicate Records(s: State, r: State, curr: Option<nat>, ids: seq<nat>) {
    && (forall b <- ids :: b in r.order)
    && (curr.Some? ==> forall b <- ids :: b in RefsOf(r.refs, curr.value))
    && (curr.Some? ==> forall j :: |s.order| <= j < |r.order| ==> r.order[j] in RefsOf(r.refs, curr.value))
  }

  /** From s to r only the record of `curr` has changed, and it has grown. */
  ghost predicate OnlyGrows(s: State, r: State, curr: Option<nat>) {
    && s.order <= r.order
    && (forall a :: a in s.order && curr != Some(a) ==> RefsOf(r.refs, a) == RefsOf(s.refs, a))
    && (curr.Some? ==> RefsOf(s.refs, curr.value) <= RefsOf(r.refs, curr.value))
  }

  lemma BlockStays(decls: seq<Decl>, s: State, r: State, curr: Option<nat>, j: nat, hi: nat)
    requires Block(decls, s, j, hi) && OnlyGrows(s, r, curr)
    ensures Block(decls, r, j, hi)
  {
    assert forall i :: 0 <= i < |s.order| ==> RefsOf(s.refs, s.order[i]) <= RefsOf(r.refs, s.order[i]);
    assert r.order[..hi] == s.order[..hi];
    forall i | j <= i < hi ensures Closed(decls, r, r.order[i], hi) {
      assert Closed(decls, s, s.order[i], hi);
    }
  }

  lemma FinishedStays(decls: seq<Decl>, s: State, r: State, curr: Option<nat>, j: nat)
    requires Finished(decls, s, j) && OnlyGrows(s, r, curr)
    ensures Finished(decls, r, j)
  {
    var hi: nat :| Block(decls, s, j, hi);
    BlockStays(decls, s, r, curr, j, hi);
  }

  lemma ExtendsTrans(decls: seq<Decl>, s: State, m: State, r: State, curr: Option<nat>)
    requires Extends(decls, s, m, curr) && Extends(decls, m, r, curr)
    ensures Extends(decls, s, r, curr)
  {
    forall j | |s.order| <= j < |m.order| ensures Finished(decls, r, j) {
      FinishedStays(decls, m, r, curr, j);
    }
    forall a | a in s.order && curr != Some(a) ensures RefsOf(r.refs, a) == RefsOf(s.refs, a) {
      assert a in m.order;
    }
  }

  lemma {:induction false} VisitIdsExtends(decls: seq<Decl>, s: State, curr: Option<nat>, ids: seq<nat>)
    requires Known(decls, s) && InRange(decls, ids) && (curr.Some? ==> curr.value in s.order)
    ensures var r := VisitIds(decls, s, curr, ids); Extends(decls, s, r, curr) && Records(s, r, curr, ids)
    decreases Unseen(decls, s), |ids| + 1
  {
    if ids != [] {
      var m := VisitId(decls, s, curr, ids[0]);
      VisitIdExtends(decls, s, curr, ids[0]);
      VisitIdsExtends(decls, m, curr, ids[1..]);
      var r := VisitIds(decls, m, curr, ids[1..]);
      ExtendsTrans(decls, s, m, r, curr);
      RecordsTrans(s, m, r, curr, ids[0], ids[1..]);
      assert ids == [ids[0]] + ids[1..];
    }
  }

  lemma RecordsTrans(s: State, m: State, r: State, curr: Option<nat>, id: nat, ids: seq<nat>)
    requires s.order <= m.order <= r.order
    requires curr.Some? ==> RefsOf(m.refs, curr.value) <= RefsOf(r.refs, curr.value)
    requires Records(s, m, curr, [id]) && Records(m, r, curr, ids)
    ensures Records(s, r, curr, [id] + ids)
  {
    assert id in [id];
    if curr.Some? {
      forall j | |s.order| <= j < |r.order| ensures r.order[j] in RefsOf(r.refs, curr.value) {
        if j < |m.order| { assert r.order[j] == m.order[j]; }
      }
    }
  }

  lemma {:induction false} VisitIdExtends(decls: seq<Decl>, s: State, curr: Option<nat>, to: nat)
    requires Known(decls, s) && to < |decls| && (curr.Some? ==> curr.value in s.order)
    ensures var r := VisitId(decls, s, curr, to); Extends(decls, s, r, curr) && Records(s, r, curr, [to])
    decreases Unseen(decls, s), 1
  {
    if curr.None? {
      VisitDeclExtends(decls, s, to);
    } else {
      var c := curr.value;
      var s1 := AddRefs(s, c, {to});
      VisitDeclExtends(decls, s1, to);
      var s2 := VisitDecl(decls, s1, to);
      var r := AddRefs(s2, c, RefsOf(s2.refs, to));
      assert s2.order == r.order;
      forall j | |s.order| <= j < |s2.order| ensures Finished(decls, r, j) {
        FinishedStays(decls, s2, r, curr, j);
      }
      if to in s.order {
        assert s2 == s1;
      } else {
        forall j | |s.order| <= j < |r.order| ensures r.order[j] in RefsOf(r.refs, c) {
          if j > |s.order| { assert r.order[j] in RefsOf(s2.refs, to); }
        }
      }
    }
  }

  /** A declaration met for the first time ends up at the head of a block of its own. */
  lemma {:induction false} VisitDeclExtends(decls: seq<Decl>, s: State, d: nat)
    requires Known(decls, s) && d < |decls|
    ensures var r := VisitDecl(decls, s, d);
            && Extends(decls, s, r, None) && d in r.order
            && (d !in s.order ==>
                  |s.order| < |r.order| && r.order[|s.order|] == d && Block(decls, r, |s.order|, |r.order|))
    decreases Unseen(decls, s), 0
  {
    if d !in s.order {
      var ids, k := Refs(decls[d].typ), |s.order|;
      var s1 := s.(order := s.order + [d]);
      assert d in Unseen(decls, s) && d !in Unseen(decls, s1);
      assert s1.order[k] == d;
      EdgesAreRefs(decls, d);
      VisitIdsExtends(decls, s1, Some(d), ids);
      var r := VisitIds(decls, s1, Some(d), ids);
      assert r.order[k] == d;
      forall j | k <= j < |r.order| ensures Closed(decls, r, r.order[j], |r.order|) {
        assert r.order[..|r.order|] == r.order;
        if j > k {
          assert Finished(decls, r, j);
          var hi: nat :| Block(decls, r, j, hi);
          assert Closed(decls, r, r.order[j], hi);
        }
      }
      assert Block(decls, r, k, |r.order|);
      forall j | k <= j < |r.order| ensures Finished(decls, r, j) {
        if j > k { assert j >= |s1.order|; }
      }
    }
  }

  // ----- Cycles -----

  predicate IsRecursiveRef(refs: map<nat, set<nat>>, from: nat, to: nat) {
    to in RefsOf(refs, from) && from in RefsOf(refs, to)
  }

  function Next(n: nat, i: nat): nat
    requires i < n
  {
    if i + 1 == n then 0 else i + 1
  }

  /** Every element refers to the next one, the last to the first. */
  ghost predicate Cycle(decls: seq<Decl>, c: seq<nat>) {
    |c| > 0 && forall i :: 0 <= i < |c| ==> Edge(decls, c[i], c[Next(|c|, i)])
  }

  function IndexOf(s: seq<nat>, x: nat): (k: nat)
    requires x in s
    ensures k < |s| && s[k] == x && x !in s[..k]
  {
    if s[0] == x then 0 else 1 + IndexOf(s[1..], x)
  }

  /** Position on the cycle, t steps after i. */
  function Around(n: nat, i: nat, t: nat): (j: nat)
    requires i < n && t < n
    ensures j < n
  {
    if i + t < n then i + t else i + t - n
  }

  lemma {:induction false} FirstDiscovered(order: seq<nat>, c: seq<nat>) returns (i: nat)
    requires |c| > 0 && forall x <- c :: x in order
    ensures i < |c| && forall x <- c :: IndexOf(order, c[i]) <= IndexOf(order, x)
  {
    i := 0;
    var n := 1;
    while n < |c|
      invariant i < n <= |c|
      invariant forall k :: 0 <= k < n ==> IndexOf(order, c[i]) <= IndexOf(order, c[k])
    {
      if IndexOf(order, c[n]) < IndexOf(order, c[i]) { i := n; }
      n := n + 1;
    }
  }

  /** The whole cycle was discovered while its first member was being visited. */
  lemma {:induction false} CycleInBlock(decls: seq<Decl>, s: State, c: seq<nat>, i: nat, hi: nat, t: nat)
    requires Cycle(decls, c) && (forall x <- c :: x in s.order) && i < |c| && t < |c|
    requires forall x <- c :: IndexOf(s.order, c[i]) <= IndexOf(s.order, x)
    requires Block(decls, s, IndexOf(s.order, c[i]), hi)
    ensures IndexOf(s.order, c[Around(|c|, i, t)]) < hi
  {
    if t > 0 {
      CycleInBlock(decls, s, c, i, hi, t - 1);
      var from := Around(|c|, i, t - 1);
      assert Next(|c|, from) == Around(|c|, i, t);
      var j := IndexOf(s.order, c[from]);
      var b := c[Around(|c|, i, t)];
      assert c[from] in c && Edge(decls, s.order[j], b) && Closed(decls, s, s.order[j], hi);
      assert b in s.order[..hi];
    }
  }

  /** Whatever the declarations and the order of visits, every cycle has a link that is a recursive reference. */
  lemma {:induction false} CyclesAreBroken(decls: seq<Decl>, ids: seq<nat>, c: seq<nat>)
    requires WellFormed(decls) && InRange(decls, ids) && Cycle(decls, c)
    requires forall x <- c :: x in VisitIds(decls, State([], map[]), None, ids).order
    ensures var refs := VisitIds(decls, State([], map[]), None, ids).refs;
            exists i :: 0 <= i < |c| && IsRecursiveRef(refs, c[i], c[Next(|c|, i)])
  {
    hide VisitIds;
    var s0 := State([], map[]);
    VisitIdsExtends(decls, s0, None, ids);
    FinishedCycleIsBroken(decls, VisitIds(decls, s0, None, ids), c);
  }

  lemma FinishedCycleIsBroken(decls: seq<Decl>, s: State, c: seq<nat>)
    requires Cycle(decls, c) && forall x <- c :: x in s.order
    requires forall j :: 0 <= j < |s.order| ==> Finished(decls, s, j)
    ensures exists i :: 0 <= i < |c| && IsRecursiveRef(s.refs, c[i], c[Next(|c|, i)])
  {
    var i := FirstDiscovered(s.order, c);
    var k := IndexOf(s.order, c[i]);
    assert Finished(decls, s, k);
    var hi: nat :| Block(decls, s, k, hi);
    var last := Around(|c|, i, |c| - 1);
    CycleInBlock(decls, s, c, i, hi, |c| - 1);
    assert Next(|c|, last) == i;
    var j := IndexOf(s.order, c[last]) by { assert c[last] in c; }
    assert Edge(decls, s.order[j], c[i]) && Closed(decls, s, s.order[j], hi);
    assert IsRecursiveRef(s.refs, c[last], c[Next(|c|, last)]);
  }

  /** And every recursive reference lies on a cycle. */
  lemma {:induction false} RecursiveRefsAreMutual(decls: seq<Decl>, ids: seq<nat>, a: nat, b: nat)
    requires WellFormed(decls) && InRange(decls, ids)
    requires IsRecursiveRef(VisitIds(decls, State([], map[]), None, ids).refs, a, b)
    ensures Reach(decls, a, b) && Reach(decls, b, a)
  {
    VisitIdsSound(decls, State([], map[]), None, ids);
  }

  lemma {:induction false} VisitOne(decls: seq<Decl>, s: State, curr: Option<nat>, a: nat)
    requires Known(decls, s) && a < |decls|
    ensures VisitIds(decls, s, curr, [a]) == VisitId(decls, s, curr, a)
  {
    VisitNothing(decls, VisitId(decls, s, curr, a), curr);
    assert [a][1..] == [];
  }

  lemma {:induction false} VisitTwo(decls: seq<Decl>, s: State, curr: Option<nat>, a: nat, b: nat)
    requires Known(decls, s) && a < |decls| && b < |decls|
    ensures VisitIds(decls, s, curr, [a, b]) == VisitId(decls, VisitId(decls, s, curr, a), curr, b)
  {
    VisitOne(decls, VisitId(decls, s, curr, a), curr, b);
    assert [a, b][1..] == [b];
  }

  /** 0 refers to 1 and 2, and 1 back to 0. */
  function Looped(): (decls: seq<Decl>)
    ensures |decls| == 3 && WellFormed(decls)
    ensures Refs(decls[0].typ) == [1, 2] && Refs(decls[1].typ) == [0] && Refs(decls[2].typ) == []
  {
    [Decl(0, "a", Map(Named(1, []), Named(2, []))), Decl(1, "a", Named(0, [])), Decl(2, "a", Builtin)]
  }

  /** The record is not the full closure: 2 can be reached from 1 but is not recorded for it. */
  lemma RecordIsPartial()
    ensures Reach(Looped(), 1, 2) && 2 !in RefsOf(VisitIds(Looped(), State([], map[]), None, [0]).refs, 1)
  {
    hide VisitIds, Looped;
    var decls := Looped();
    EdgesAreRefs(decls, 0);
    EdgesAreRefs(decls, 1);
    EdgeReaches(decls, 1, 0);
    EdgeReaches(decls, 0, 2);
    ReachTrans(decls, 1, 0, 2);
    var start := State([], map[]);
    var s1 := AddRefs(State([0], map[]), 0, {1});
    var s2 := s1.(order := s1.order + [1]);
    var s3 := VisitId(decls, s2, Some(1), 0);
    assert s2.order[0] == 0 && s1.refs[0] == {1};
    assert VisitDecl(decls, AddRefs(s2, 1, {0}), 0) == AddRefs(s2, 1, {0});
    assert RefsOf(AddRefs(s2, 1, {0}).refs, 0) == {1};
    assert s3 == AddRefs(AddRefs(s2, 1, {0}), 1, {1});
    assert s3.refs[1] == {0, 1};
    VisitOne(decls, s2, Some(1), 0);
    assert VisitDecl(decls, s1, 1) == s3;
    var s4 := VisitId(decls, State([0], map[]), Some(0), 1);
    assert s4.refs[1] == {0, 1} && 2 !in s4.order;
    var s5 := AddRefs(s4, 0, {2});
    VisitNothing(decls, s5.(order := s5.order + [2]), Some(2));
    VisitTwo(decls, State([0], map[]), Some(0), 1, 2);
    VisitOne(decls, start, None, 0);
    assert start.order + [0] == [0];
  }

  // ----- What is listed -----

  /** n is one of the ids or can be reached from one of them. */
  ghost predicate ReachedFrom(decls: seq<Decl>, ids: seq<nat>, n: nat) {
    exists b <- ids :: b == n || Reach(decls, b, n)
  }

  lemma {:induction false} VisitIdsReached(decls: seq<Decl>, s: State, curr: Option<nat>, ids: seq<nat>)
    requires Known(decls, s) && InRange(decls, ids)
    ensures forall n <- VisitIds(decls, s, curr, ids).order :: n in s.order || ReachedFrom(decls, ids, n)
    decreases Unseen(decls, s), |ids| + 1
  {
    if ids != [] {
      var s1 := if curr.Some? then AddRefs(s, curr.value, {ids[0]}) else s;
      VisitDeclReached(decls, s1, ids[0]);
      var m := VisitId(decls, s, curr, ids[0]);
      VisitIdsReached(decls, m, curr, ids[1..]);
      forall n <- VisitIds(decls, m, curr, ids[1..]).order ensures n in s.order || ReachedFrom(decls, ids, n) {
        if ReachedFrom(decls, ids[1..], n) {
          var b :| b in ids[1..] && (b == n || Reach(decls, b, n));
          assert b in ids;
        } else {
          assert n in m.order && ids[0] in ids;
        }
      }
    }
  }

  lemma {:induction false} VisitDeclReached(decls: seq<Decl>, s: State, d: nat)
    requires Known(decls, s) && d < |decls|
    ensures forall n <- VisitDecl(decls, s, d).order :: n in s.order || n == d || Reach(decls, d, n)
    decreases Unseen(decls, s), 0
  {
    if d !in s.order {
      var ids := Refs(decls[d].typ);
      var s1 := s.(order := s.order + [d]);
      assert d in Unseen(decls, s) && d !in Unseen(decls, s1);
      EdgesAreRefs(decls, d);
      VisitIdsReached(decls, s1, Some(d), ids);
      forall n <- VisitDecl(decls, s, d).order ensures n in s.order || n == d || Reach(decls, d, n) {
        if n !in s1.order {
          var b :| b in ids && (b == n || Reach(decls, b, n));
          EdgeReaches(decls, d, b);
          if b != n { ReachTrans(decls, d, b, n); }
        }
      }
    }
  }

  /** From a discovered declaration a walk never leaves the discovered ones. */
  lemma {:induction false} WalkStays(decls: seq<Decl>, s: State, p: seq<nat>)
    requires |p| > 0 && Walk(decls, p) && p[0] in s.order
    requires forall j :: 0 <= j < |s.order| ==> Finished(decls, s, j)
    ensures p[|p| - 1] in s.order
    decreases |p|
  {
    if |p| > 1 {
      var k := IndexOf(s.order, p[0]);
      assert Finished(decls, s, k);
      var hi: nat :| Block(decls, s, k, hi);
      assert Edge(decls, s.order[k], p[1]) && Closed(decls, s, s.order[k], hi);
      assert p[1] in s.order[..hi];
      assert Walk(decls, p[1..]) by {
        forall i | 0 <= i < |p[1..]| - 1 ensures Edge(decls, p[1..][i], p[1..][i + 1]) {
          assert Edge(decls, p[i + 1], p[i + 2]);
        }
      }
      WalkStays(decls, s, p[1..]);
    }
  }

  lemma {:induction false} VisitedIsListed(decls: seq<Decl>, s: State, curr: Option<nat>, ids: seq<nat>)
    requires Known(decls, s) && InRange(decls, ids)
    ensures forall b <- ids :: b in VisitIds(decls, s, curr, ids).order
    decreases |ids|
  {
    hide Known, AddRefs;
    if ids != [] {
      var m := VisitId(decls, s, curr, ids[0]);
      assert ids[0] in m.order by { FirstIsListed(decls, s, curr, ids[0]); }
      VisitedIsListed(decls, m, curr, ids[1..]);
      assert forall b <- ids :: b == ids[0] || b in ids[1..];
    }
  }

  lemma {:induction false} FirstIsListed(decls: seq<Decl>, s: State, curr: Option<nat>, to: nat)
    requires Known(decls, s) && to < |decls|
    ensures to in VisitId(decls, s, curr, to).order
  {
    hide VisitIds;
    var s1 := if curr.Some? then AddRefs(s, curr.value, {to}) else s;
    var r := VisitDecl(decls, s1, to).order;
    if to !in s1.order { assert s1.order + [to] <= r && r[|s1.order|] == to; }
  }

  lemma {:induction false} MentionedIsListed(decls: seq<Decl>, s: State, curr: Option<nat>, typ: Type)
    requires Known(decls, s) && InRange(decls, Refs(typ))
    ensures forall id :: Mentions(typ, id) ==> id in VisitIds(decls, s, curr, Refs(typ)).order
  {
    hide Refs, Mentions, VisitIds;
    VisitedIsListed(decls, s, curr, Refs(typ));
    forall id | Mentions(typ, id) ensures id in VisitIds(decls, s, curr, Refs(typ)).order {
      RefsAreMentions(typ, id);
    }
  }

  /** The walk discovers exactly what can be reached from the given references. */
  lemma {:induction false} DiscoversExactlyReachable(decls: seq<Decl>, ids: seq<nat>, n: nat)
    requires WellFormed(decls) && InRange(decls, ids)
    ensures n in VisitIds(decls, State([], map[]), None, ids).order <==> ReachedFrom(decls, ids, n)
  {
    var s0 := State([], map[]);
    var s := VisitIds(decls, s0, None, ids);
    VisitIdsReached(decls, s0, None, ids);
    VisitIdsExtends(decls, s0, None, ids);
    if ReachedFrom(decls, ids, n) {
      var b :| b in ids && (b == n || Reach(decls, b, n));
      assert b in s.order;
      if b != n {
        var p: seq<nat> :| |p| >= 2 && WalkFromTo(decls, p, b, n);
        WalkStays(decls, s, p);
      }
    }
  }

  ghost predicate Distinct(s: seq<nat>) {
    forall i, j :: 0 <= i < j < |s| ==> s[i] != s[j]
  }

  lemma DistinctSnoc(s: seq<nat>, x: nat)
    requires Distinct(s) && x !in s
    ensures Distinct(s + [x])
  {
  }

  lemma {:induction false} VisitIdsDistinct(decls: seq<Decl>, s: State, curr: Option<nat>, ids: seq<nat>)
    requires Known(decls, s) && InRange(decls, ids) && Distinct(s.order)
    ensures Distinct(VisitIds(decls, s, curr, ids).order)
    decreases Unseen(decls, s), |ids| + 1
  {
    hide Distinct;
    if ids != [] {
      var s1 := if curr.Some? then AddRefs(s, curr.value, {ids[0]}) else s;
      VisitDeclDistinct(decls, s1, ids[0]);
      VisitIdsDistinct(decls, VisitId(decls, s, curr, ids[0]), curr, ids[1..]);
    }
  }

  lemma {:induction false} VisitDeclDistinct(decls: seq<Decl>, s: State, d: nat)
    requires Known(decls, s) && d < |decls| && Distinct(s.order)
    ensures Distinct(VisitDecl(decls, s, d).order)
    decreases Unseen(decls, s), 0
  {
    hide Distinct;
    if d !in s.order {
      var s1 := s.(order := s.order + [d]);
      assert d in Unseen(decls, s) && d !in Unseen(decls, s1);
      DistinctSnoc(s.order, d);
      VisitIdsDistinct(decls, s1, Some(d), Refs(decls[d].typ));
    }
  }

  // ----- Grouping by package -----

  /** The declarations of each package, in the order of discovery. */
  function Grouped(decls: seq<Decl>, order: seq<nat>): map<string, seq<nat>>
    requires InRange(decls, order)
  {
    if order == [] then map[]
    else AddTo(Grouped(decls, order[..|order| - 1]), decls[order[|order| - 1]].pkg, order[|order| - 1])
  }

  function AddTo(m: map<string, seq<nat>>, pkg: string, d: nat): map<string, seq<nat>> {
    m[pkg := (if pkg in m then m[pkg] else []) + [d]]
  }

  function OfPackage(decls: seq<Decl>, order: seq<nat>, pkg: string): seq<nat>
    requires InRange(decls, order)
  {
    if order == [] then []
    else
      var d := order[|order| - 1];
      OfPackage(decls, order[..|order| - 1], pkg) + if decls[d].pkg == pkg then [d] else []
  }

  /** Each package lists its own discovered declarations and nothing else; packages without any are absent. */
  lemma {:induction false} GroupedByPackage(decls: seq<Decl>, order: seq<nat>, pkg: string)
    requires InRange(decls, order)
    ensures var m := Grouped(decls, order);
            OfPackage(decls, order, pkg) == if pkg in m then m[pkg] else []
    ensures pkg in Grouped(decls, order) <==> exists d <- order :: decls[d].pkg == pkg
  {
    if order != [] {
      var before, d := order[..|order| - 1], order[|order| - 1];
      GroupedByPackage(decls, before, pkg);
      assert order == before + [d];
      assert (exists d <- order :: decls[d].pkg == pkg)
        <==> (decls[d].pkg == pkg || exists d <- before :: decls[d].pkg == pkg);
    }
  }

  // ----- The registry -----

  function Size(t: Type): nat
    decreases t, 0
  {
    1 + match t
        case Absent => 0
        case Builtin => 0
        case TypeParameter => 0
        case Literal => 0
        case Named(_, args) => SizeAll(args)
        case List(elem) => Size(elem)
        case Map(key, value) => Size(key) + Size(value)
        case Struct(fields) => SizeAll(fields)
        case Pointer(base) => Size(base)
        case Opt(value) => Size(value)
        case Config(elem) => Size(elem)
        case Union(types) => SizeAll(types)
  }

  function SizeAll(ts: seq<Type>): nat
    decreases ts, 1
  {
    if ts == [] then 0 else Size(ts[0]) + SizeAll(ts[1..])
  }

  lemma InRangeConcat(decls: seq<Decl>, a: seq<nat>, b: seq<nat>)
    ensures InRange(decls, a + b) <==> InRange(decls, a) && InRange(decls, b)
  {
    if InRange(decls, a + b) {
      forall i | 0 <= i < |a| ensures a[i] < |decls| { assert (a + b)[i] == a[i]; }
      forall i | 0 <= i < |b| ensures b[i] < |decls| { assert (a + b)[|a| + i] == b[i]; }
    }
  }

  class Registry {
    const decls: seq<Decl>
    var namespaces: map<string, seq<nat>>
    var seenDecls: set<nat>
    var declRefs: map<nat, set<nat>>
    var currDecl: Option<nat>
    ghost var order: seq<nat>

    ghost function Now(): State
      reads this
    {
      State(order, declRefs)
    }

    ghost predicate Valid()
      reads this
    {
      && Known(decls, Now())
      && (forall i :: i in seenDecls <==> i in order)
      && namespaces == Grouped(decls, order)
    }

    constructor (decls: seq<Decl>)
      requires WellFormed(decls)
      ensures Valid() && this.decls == decls && Now() == State([], map[]) && currDecl == None
    {
      this.decls := decls;
      namespaces, seenDecls, declRefs, currDecl, order := map[], {}, map[], None, [];
    }

    method Visit(typ: Type)
      requires Valid() && InRange(decls, Refs(typ))
      modifies this
      ensures Valid() && currDecl == old(currDecl)
      ensures Now() == VisitIds(decls, old(Now()), old(currDecl), Refs(typ))
      ensures forall id :: Mentions(typ, id) ==> id in order
      decreases Unseen(decls, Now()), Size(typ), 1
    {
      MentionedIsListed(decls, Now(), currDecl, typ);
      match typ
      case Absent =>
      case Builtin =>
      case TypeParameter =>
      case Literal =>
      case Named(_, _) => VisitNamed(typ);
      case List(elem) => Visit(elem);
      case Map(key, value) =>
        InRangeConcat(decls, Refs(key), Refs(value));
        VisitIdsConcat(decls, Now(), currDecl, Refs(key), Refs(value));
        Visit(key);
        Visit(value);
      case Struct(fields) => VisitAll(fields);
      case Pointer(base) => Visit(base);
      case Opt(value) => Visit(value);
      case Config(elem) => Visit(elem);
      case Union(types) => VisitAll(types);
    }

    method VisitAll(ts: seq<Type>)
      requires Valid() && InRange(decls, RefsAll(ts))
      modifies this
      ensures Valid() && currDecl == old(currDecl)
      ensures Now() == VisitIds(decls, old(Now()), old(currDecl), RefsAll(ts))
      decreases Unseen(decls, Now()), SizeAll(ts), 2
    {
      ghost var goal := VisitIds(decls, Now(), currDecl, RefsAll(ts));
      var i := 0;
      while i < |ts|
        invariant i <= |ts| && Valid() && currDecl == old(currDecl) && old(order) <= order
        invariant InRange(decls, RefsAll(ts[i..])) && SizeAll(ts[i..]) <= SizeAll(ts)
        invariant VisitIds(decls, Now(), currDecl, RefsAll(ts[i..])) == goal
      {
        assert ts[i..][1..] == ts[i + 1..];
        InRangeConcat(decls, Refs(ts[i]), RefsAll(ts[i + 1..]));
        VisitIdsConcat(decls, Now(), currDecl, Refs(ts[i]), RefsAll(ts[i + 1..]));
        Visit(ts[i]);
        i := i + 1;
      }
    }

    method VisitDeclaration(d: nat)
      requires Valid() && d < |decls|
      modifies this
      ensures Valid() && currDecl == old(currDecl)
      ensures Now() == VisitDecl(decls, old(Now()), d)
      decreases Unseen(decls, Now()), 0, 0
    {
      if d !in seenDecls {
        assert d in Unseen(decls, Now());
        seenDecls := seenDecls + {d};
        namespaces := AddTo(namespaces, decls[d].pkg, d);
        order := order + [d];
        assert order[..|order| - 1] == old(order);
        assert d !in Unseen(decls, Now());
        var prev := currDecl;
        currDecl := Some(d);
        Visit(decls[d].typ);
        currDecl := prev;
      }
    }

    method VisitNamed(typ: Type)
      requires typ.Named? && Valid() && InRange(decls, Refs(typ))
      modifies this
      ensures Valid() && currDecl == old(currDecl)
      ensures Now() == VisitIds(decls, old(Now()), old(currDecl), Refs(typ))
      decreases Unseen(decls, Now()), Size(typ), 0
    {
      var to, curr := typ.id, currDecl;
      InRangeConcat(decls, [to], RefsAll(typ.args));
      assert Refs(typ)[0] == to && Refs(typ)[1..] == RefsAll(typ.args);
      if curr.Some? {
        var from := curr.value;
        if from !in declRefs { declRefs := declRefs[from := {}]; }
        declRefs := declRefs[from := declRefs[from] + {to}];
      }
      assert Now() == if curr.Some? then AddRefs(old(Now()), curr.value, {to}) else old(Now());
      VisitDeclaration(to);
      if curr.Some? {
        var from := curr.value;
        declRefs := declRefs[from := RefsOf(declRefs, from) + RefsOf(declRefs, to)];
      }
      VisitAll(typ.args);
    }
  }

  // ----- Entry point -----

  datatype Rpc = Rpc(isPrivate: bool, handshake: Type, request: Type, response: Type)

  datatype Service = Service(name: string, rpcs: seq<Rpc>)

  function RpcRoots(rpcs: seq<Rpc>): seq<Type> {
    if rpcs == [] then []
    else
      (if rpcs[0].isPrivate then [] else [rpcs[0].handshake, rpcs[0].request, rpcs[0].response]) + RpcRoots(rpcs[1..])
  }

  function ServiceRoots(svcs: seq<Service>, names: set<string>): seq<Type> {
    if svcs == [] then []
    else (if svcs[0].name in names then RpcRoots(svcs[0].rpcs) else []) + ServiceRoots(svcs[1..], names)
  }

  /** The types of all non-private endpoints of the chosen services, and the auth handler's parameters. */
  function Roots(svcs: seq<Service>, names: set<string>, authParams: Type): seq<Type> {
    ServiceRoots(svcs, names) + [authParams]
  }

  /** The type of a part of an exposed endpoint, or of the auth handler's parameters. */
  ghost predicate IsRoot(svcs: seq<Service>, names: set<string>, authParams: Type, t: Type) {
    t == authParams ||
    exists svc <- svcs :: svc.name in names &&
      exists rpc <- svc.rpcs :: !rpc.isPrivate && (t == rpc.handshake || t == rpc.request || t == rpc.response)
  }

  lemma {:induction false} RpcRootsAre(rpcs: seq<Rpc>, t: Type)
    ensures t in RpcRoots(rpcs)
       <==> exists rpc <- rpcs :: !rpc.isPrivate && (t == rpc.handshake || t == rpc.request || t == rpc.response)
  {
    if rpcs != [] {
      RpcRootsAre(rpcs[1..], t);
      assert rpcs == [rpcs[0]] + rpcs[1..];
    }
  }

  lemma {:induction false} ServiceRootsAre(svcs: seq<Service>, names: set<string>, t: Type)
    ensures t in ServiceRoots(svcs, names) <==> exists svc <- svcs :: svc.name in names && t in RpcRoots(svc.rpcs)
  {
    if svcs != [] {
      ServiceRootsAre(svcs[1..], names, t);
      assert svcs == [svcs[0]] + svcs[1..];
    }
  }

  /** The roots are the handshake, request and response of every non-private endpoint of a chosen service,
      and the auth handler's parameters, and nothing else. */
  lemma {:induction false} RootsAre(svcs: seq<Service>, names: set<string>, authParams: Type, t: Type)
    ensures t in Roots(svcs, names, authParams) <==> IsRoot(svcs, names, authParams, t)
  {
    hide RpcRoots, ServiceRoots;
    ServiceRootsAre(svcs, names, t);
    forall svc <- svcs
      ensures t in RpcRoots(svc.rpcs)
         <==> exists rpc <- svc.rpcs :: !rpc.isPrivate && (t == rpc.handshake || t == rpc.request || t == rpc.response)
    {
      RpcRootsAre(svc.rpcs, t);
    }
  }

  /** n is mentioned by a root, or can be reached from a declaration that is. */
  ghost predicate Exposed(decls: seq<Decl>, svcs: seq<Service>, names: set<string>, authParams: Type, n: nat) {
    exists t: Type, b: nat :: IsRoot(svcs, names, authParams, t) && Mentions(t, b) && (b == n || Reach(decls, b, n))
  }

  lemma {:induction false} ListsExactlyExposed(decls: seq<Decl>, svcs: seq<Service>, names: set<string>,
                                               authParams: Type, n: nat)
    requires WellFormed(decls) && InRange(decls, RefsAll(Roots(svcs, names, authParams)))
    ensures n in VisitIds(decls, State([], map[]), None, RefsAll(Roots(svcs, names, authParams))).order
       <==> Exposed(decls, svcs, names, authParams, n)
  {
    hide VisitIds, RefsAll, Roots, Reach, IsRoot, Mentions, Refs;
    var roots := Roots(svcs, names, authParams);
    var ids := RefsAll(roots);
    DiscoversExactlyReachable(decls, ids, n);
    if ReachedFrom(decls, ids, n) {
      var b :| b in ids && (b == n || Reach(decls, b, n));
      RefsOfAll(roots, b);
      var i :| 0 <= i < |roots| && b in Refs(roots[i]);
      RootsAre(svcs, names, authParams, roots[i]);
      RefsAreMentions(roots[i], b);
    }
    if Exposed(decls, svcs, names, authParams, n) {
      var t: Type, b: nat :|
        IsRoot(svcs, names, authParams, t) && Mentions(t, b) && (b == n || Reach(decls, b, n));
      RootsAre(svcs, names, authParams, t);
      RefsAreMentions(t, b);
      var i :| 0 <= i < |roots| && roots[i] == t;
      assert b in Refs(roots[i]);
      RefsOfAll(roots, b);
    }
  }

  lemma {:induction false} RefsAllConcat(a: seq<Type>, b: seq<Type>)
    ensures RefsAll(a + b) == RefsAll(a) + RefsAll(b)
  {
    if a == [] {
      assert a + b == b;
    } else {
      assert (a + b)[1..] == a[1..] + b;
      RefsAllConcat(a[1..], b);
    }
  }

  /** Collects the root types one by one and visits them in that order. */
  method GetNamedTypes(decls: seq<Decl>, svcs: seq<Service>, names: set<string>, authParams: Type) returns (r: Registry)
    requires WellFormed(decls) && InRange(decls, RefsAll(Roots(svcs, names, authParams)))
    ensures r.Valid() && r.decls == decls
    ensures r.Now() == VisitIds(decls, State([], map[]), None, RefsAll(Roots(svcs, names, authParams)))
    ensures forall n :: n in r.order <==> Exposed(decls, svcs, names, authParams, n)
  {
    hide VisitIds, Exposed;
    r := new Registry(decls);
    ghost var goal := VisitIds(decls, State([], map[]), None, RefsAll(Roots(svcs, names, authParams)));
    var i := 0;
    while i < |svcs|
      invariant i <= |svcs| && r.Valid() && r.decls == decls && r.currDecl == None && fresh(r)
      invariant InRange(decls, RefsAll(Roots(svcs[i..], names, authParams)))
      invariant VisitIds(decls, r.Now(), None, RefsAll(Roots(svcs[i..], names, authParams))) == goal
    {
      assert svcs[i..][1..] == svcs[i + 1..];
      ghost var here := if svcs[i].name in names then RpcRoots(svcs[i].rpcs) else [];
      ghost var rest := Roots(svcs[i + 1..], names, authParams);
      assert Roots(svcs[i..], names, authParams) == here + rest;
      RefsAllConcat(here, rest);
      InRangeConcat(decls, RefsAll(here), RefsAll(rest));
      VisitIdsConcat(decls, r.Now(), None, RefsAll(here), RefsAll(rest));
      VisitNothing(decls, r.Now(), None);
      if svcs[i].name in names {
        VisitRpcs(r, svcs[i].rpcs);
      }
      i := i + 1;
    }
    assert Roots(svcs[i..], names, authParams) == [authParams];
    RefsAllOne(authParams);
    r.Visit(authParams);
    forall n ensures n in r.order <==> Exposed(decls, svcs, names, authParams, n) {
      ListsExactlyExposed(decls, svcs, names, authParams, n);
    }
  }

  method VisitRpcs(r: Registry, rpcs: seq<Rpc>)
    requires r.Valid() && r.currDecl == None && InRange(r.decls, RefsAll(RpcRoots(rpcs)))
    modifies r
    ensures r.Valid() && r.currDecl == None
    ensures r.Now() == VisitIds(r.decls, old(r.Now()), None, RefsAll(RpcRoots(rpcs)))
  {
    hide VisitIds, RefsAll, RpcRoots, InRange;
    ghost var goal := VisitIds(r.decls, r.Now(), None, RefsAll(RpcRoots(rpcs)));
    var i := 0;
    assert rpcs[0..] == rpcs;
    while i < |rpcs|
      invariant i <= |rpcs| && r.Valid() && r.currDecl == None
      invariant InRange(r.decls, RefsAll(RpcRoots(rpcs[i..])))
      invariant VisitIds(r.decls, r.Now(), None, RefsAll(RpcRoots(rpcs[i..]))) == goal
    {
      var rpc := rpcs[i];
      OneRpc(r.decls, r.Now(), rpcs, i);
      if !rpc.isPrivate { VisitThree(r, rpc); }
      i := i + 1;
    }
    NoRpcs(r.decls, r.Now(), rpcs);
  }

  /** The types of one endpoint, before those of the endpoints behind it. */
  lemma {:induction false} OneRpc(decls: seq<Decl>, s: State, rpcs: seq<Rpc>, i: nat)
    requires Known(decls, s) && i < |rpcs| && InRange(decls, RefsAll(RpcRoots(rpcs[i..])))
    ensures InRange(decls, RefsAll(RpcRoots(rpcs[i + 1..])))
    ensures var rpc := rpcs[i];
            var here := RefsAll([rpc.handshake, rpc.request, rpc.response]);
            && (rpc.isPrivate ==> RpcRoots(rpcs[i..]) == RpcRoots(rpcs[i + 1..]))
            && (!rpc.isPrivate ==>
                  && InRange(decls, here)
                  && VisitIds(decls, s, None, RefsAll(RpcRoots(rpcs[i..])))
                       == VisitIds(decls, VisitIds(decls, s, None, here), None, RefsAll(RpcRoots(rpcs[i + 1..]))))
  {
    hide VisitIds, RefsAll, InRange;
    var rest := RpcRoots(rpcs[i + 1..]);
    assert rpcs[i..][1..] == rpcs[i + 1..];
    if rpcs[i].isPrivate {
      assert [] + rest == rest;
    } else {
      var here := [rpcs[i].handshake, rpcs[i].request, rpcs[i].response];
      RefsAllConcat(here, rest);
      InRangeConcat(decls, RefsAll(here), RefsAll(rest));
      VisitIdsConcat(decls, s, None, RefsAll(here), RefsAll(rest));
    }
  }

  lemma NoRpcs(decls: seq<Decl>, s: State, rpcs: seq<Rpc>)
    requires Known(decls, s)
    ensures InRange(decls, RefsAll(RpcRoots(rpcs[|rpcs|..])))
    ensures VisitIds(decls, s, None, RefsAll(RpcRoots(rpcs[|rpcs|..]))) == s
  {
  }

  lemma {:induction false} RefsAllThree(a: Type, b: Type, c: Type)
    ensures RefsAll([a, b, c]) == Refs(a) + (Refs(b) + Refs(c))
  {
    RefsAllOne(c);
    assert [b, c][1..] == [c] && [a, b, c][1..] == [b, c];
  }

  lemma {:induction false} RefsAllOne(t: Type)
    ensures RefsAll([t]) == Refs(t)
  {
    assert [t][1..] == [];
    assert Refs(t) + [] == Refs(t);
  }

  method VisitThree(r: Registry, rpc: Rpc)
    requires r.Valid() && r.currDecl == None && InRange(r.decls, RefsAll([rpc.handshake, rpc.request, rpc.response]))
    modifies r
    ensures r.Valid() && r.currDecl == None
    ensures r.Now() == VisitIds(r.decls, old(r.Now()), None, RefsAll([rpc.handshake, rpc.request, rpc.response]))
  {
    var a, b, c := rpc.handshake, rpc.request, rpc.response;
    RefsAllThree(a, b, c);
    InRangeConcat(r.decls, Refs(a), Refs(b) + Refs(c));
    InRangeConcat(r.decls, Refs(b), Refs(c));
    VisitIdsConcat(r.decls, r.Now(), None, Refs(a), Refs(b) + Refs(c));
    r.Visit(a);
    VisitIdsConcat(r.decls, r.Now(), None, Refs(b), Refs(c));
    r.Visit(b);
    r.Visit(c);
  }
}
