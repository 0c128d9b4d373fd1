/** Making generic schema types concrete (parser/encoding/rpc.go). */
module TypeSubst {

  datatype Field = Field(name: string, typ: Type)

  datatype Type =
    | Param(idx: nat)
    | Builtin(kind: nat)
    | Literal(text: string)
    | Struct(fields: seq<Field>)
    | Map(key: Type, value: Type)
    | List(elem: Type)
    | Config(conf: Type)
    | Pointer(base: Type)
    | Optional(inner: Type)
    | Union(types: seq<Type>)
    | Named(id: nat, args: seq<Type>)

  // ----- Parallel substitution, the reference -----

  /** Every type parameter in t is below n. */
  predicate InScope(t: Type, n: nat) {
    match t
    case Param(i) => i < n
    case Builtin(_) => true
    case Literal(_) => true
    case Struct(fs) => forall i :: 0 <= i < |fs| ==> InScope(fs[i].typ, n)
    case Map(k, v) => InScope(k, n) && InScope(v, n)
    case List(e) => InScope(e, n)
    case Config(e) => InScope(e, n)
    case Pointer(b) => InScope(b, n)
    case Optional(v) => InScope(v, n)
    case Union(ts) => forall i :: 0 <= i < |ts| ==> InScope(ts[i], n)
    case Named(_, ts) => forall i :: 0 <= i < |ts| ==> InScope(ts[i], n)
  }

  predicate AllInScope(ts: seq<Type>, n: nat) {
    forall i :: 0 <= i < |ts| ==> InScope(ts[i], n)
  }

  /** No type parameter is left. */
  predicate Closed(t: Type) {
    InScope(t, 0)
  }

  predicate AllClosed(ts: seq<Type>) {
    AllInScope(ts, 0)
  }

  /** Every parameter replaced by its argument, all at once. */
  function Subst(t: Type, args: seq<Type>): Type
    requires InScope(t, |args|)
  {
    match t
    case Param(i) => args[i]
    case Builtin(_) => t
    case Literal(_) => t
    case Struct(fs) => Struct(seq(|fs|, i requires 0 <= i < |fs| => Field(fs[i].name, Subst(fs[i].typ, args))))
    case Map(k, v) => Map(Subst(k, args), Subst(v, args))
    case List(e) => List(Subst(e, args))
    case Config(e) => Config(Subst(e, args))
    case Pointer(b) => Pointer(Subst(b, args))
    case Optional(v) => Optional(Subst(v, args))
    case Union(ts) => Union(seq(|ts|, i requires 0 <= i < |ts| => Subst(ts[i], args)))
    case Named(id, ts) => Named(id, seq(|ts|, i requires 0 <= i < |ts| => Subst(ts[i], args)))
  }

  function SubstAll(ts: seq<Type>, args: seq<Type>): (r: seq<Type>)
    requires AllInScope(ts, |args|)
    ensures |r| == |ts| && forall i :: 0 <= i < |ts| ==> r[i] == Subst(ts[i], args)
  {
    seq(|ts|, i requires 0 <= i < |ts| => Subst(ts[i], args))
  }

  /** Substituting arguments with parameters below m leaves only those. */
  lemma {:induction false} SubstInScope(t: Type, args: seq<Type>, m: nat)
    requires InScope(t, |args|) && AllInScope(args, m)
    ensures InScope(Subst(t, args), m)
  {
    match t
    case Param(_) =>
    case Builtin(_) =>
    case Literal(_) =>
    case Struct(fs) =>
      forall i | 0 <= i < |fs| ensures InScope(Subst(t, args).fields[i].typ, m) { SubstInScope(fs[i].typ, args, m); }
    case Map(k, v) => SubstInScope(k, args, m); SubstInScope(v, args, m);
    case List(e) => SubstInScope(e, args, m);
    case Config(e) => SubstInScope(e, args, m);
    case Pointer(b) => SubstInScope(b, args, m);
    case Optional(v) => SubstInScope(v, args, m);
    case Union(ts) => forall i | 0 <= i < |ts| ensures InScope(Subst(ts[i], args), m) { SubstInScope(ts[i], args, m); }
    case Named(_, ts) =>
      forall i | 0 <= i < |ts| ensures InScope(Subst(ts[i], args), m) { SubstInScope(ts[i], args, m); }
  }

  lemma SubstAllInScope(ts: seq<Type>, args: seq<Type>, m: nat)
    requires AllInScope(ts, |args|) && AllInScope(args, m)
    ensures AllInScope(SubstAll(ts, args), m)
  {
    forall i | 0 <= i < |ts| ensures InScope(Subst(ts[i], args), m) { SubstInScope(ts[i], args, m); }
  }

  /** Two substitutions one after the other are one, with the second applied to the first's arguments. */
  lemma {:induction false} SubstComposes(t: Type, a: seq<Type>, b: seq<Type>)
    requires InScope(t, |a|) && AllInScope(a, |b|)
    ensures InScope(Subst(t, a), |b|)
    ensures Subst(Subst(t, a), b) == Subst(t, SubstAll(a, b))
  {
    SubstInScope(t, a, |b|);
    match t
    case Param(_) =>
    case Builtin(_) =>
    case Literal(_) =>
    case Struct(fs) =>
      forall i | 0 <= i < |fs|
        ensures InScope(Subst(fs[i].typ, a), |b|)
        ensures Subst(Subst(fs[i].typ, a), b) == Subst(fs[i].typ, SubstAll(a, b))
      { SubstComposes(fs[i].typ, a, b); }
      assert Subst(Subst(t, a), b).fields == Subst(t, SubstAll(a, b)).fields;
    case Map(k, v) => SubstComposes(k, a, b); SubstComposes(v, a, b);
    case List(e) => SubstComposes(e, a, b);
    case Config(e) => SubstComposes(e, a, b);
    case Pointer(e) => SubstComposes(e, a, b);
    case Optional(e) => SubstComposes(e, a, b);
    case Union(ts) =>
      forall i | 0 <= i < |ts|
        ensures InScope(Subst(ts[i], a), |b|)
        ensures Subst(Subst(ts[i], a), b) == Subst(ts[i], SubstAll(a, b))
      { SubstComposes(ts[i], a, b); }
      assert Subst(Subst(t, a), b).types == Subst(t, SubstAll(a, b)).types;
    case Named(_, ts) =>
      forall i | 0 <= i < |ts|
        ensures InScope(Subst(ts[i], a), |b|)
        ensures Subst(Subst(ts[i], a), b) == Subst(ts[i], SubstAll(a, b))
      { SubstComposes(ts[i], a, b); }
      assert Subst(Subst(t, a), b).args == Subst(t, SubstAll(a, b)).args;
  }

  lemma {:induction false} ScopeGrows(t: Type, n: nat, m: nat)
    requires InScope(t, n) && n <= m
    ensures InScope(t, m)
  {
    match t
    case Param(_) =>
    case Builtin(_) =>
    case Literal(_) =>
    case Struct(fs) => forall i | 0 <= i < |fs| ensures InScope(fs[i].typ, m) { ScopeGrows(fs[i].typ, n, m); }
    case Map(k, v) => ScopeGrows(k, n, m); ScopeGrows(v, n, m);
    case List(e) => ScopeGrows(e, n, m);
    case Config(e) => ScopeGrows(e, n, m);
    case Pointer(b) => ScopeGrows(b, n, m);
    case Optional(v) => ScopeGrows(v, n, m);
    case Union(ts) => forall i | 0 <= i < |ts| ensures InScope(ts[i], m) { ScopeGrows(ts[i], n, m); }
    case Named(_, ts) => forall i | 0 <= i < |ts| ensures InScope(ts[i], m) { ScopeGrows(ts[i], n, m); }
  }

  lemma {:induction false} SubstClosed(t: Type, args: seq<Type>)
    requires Closed(t)
    ensures InScope(t, |args|) && Subst(t, args) == t
  {
    ScopeGrows(t, 0, |args|);
    match t
    case Param(_) =>
    case Builtin(_) =>
    case Literal(_) =>
    case Struct(fs) =>
      forall i | 0 <= i < |fs| ensures InScope(fs[i].typ, |args|) && Subst(fs[i].typ, args) == fs[i].typ {
        SubstClosed(fs[i].typ, args);
      }
      assert Subst(t, args).fields == fs;
    case Map(k, v) => SubstClosed(k, args); SubstClosed(v, args);
    case List(e) => SubstClosed(e, args);
    case Config(e) => SubstClosed(e, args);
    case Pointer(b) => SubstClosed(b, args);
    case Optional(v) => SubstClosed(v, args);
    case Union(ts) =>
      forall i | 0 <= i < |ts| ensures InScope(ts[i], |args|) && Subst(ts[i], args) == ts[i] {
        SubstClosed(ts[i], args);
      }
      assert Subst(t, args).types == ts;
    case Named(_, ts) =>
      forall i | 0 <= i < |ts| ensures InScope(ts[i], |args|) && Subst(ts[i], args) == ts[i] {
        SubstClosed(ts[i], args);
      }
      assert Subst(t, args).args == ts;
  }

  // ----- resolveTypeParams -----

  /** The parameters the code looks up are in range; it does not look inside unions. */
  predicate InRange(t: Type, n: nat) {
    match t
    case Param(i) => i < n
    case Builtin(_) => true
    case Literal(_) => true
    case Struct(fs) => forall i :: 0 <= i < |fs| ==> InRange(fs[i].typ, n)
    case Map(k, v) => InRange(k, n) && InRange(v, n)
    case List(e) => InRange(e, n)
    case Config(e) => InRange(e, n)
    case Pointer(b) => InRange(b, n)
    case Optional(v) => InRange(v, n)
    case Union(_) => true
    case Named(_, ts) => forall i :: 0 <= i < |ts| ==> InRange(ts[i], n)
  }

  function Resolve(t: Type, args: seq<Type>): Type
    requires InRange(t, |args|)
  {
    match t
    case Param(i) => args[i]
    case Builtin(_) => t
    case Literal(_) => t
    case Struct(fs) => Struct(seq(|fs|, i requires 0 <= i < |fs| => Field(fs[i].name, Resolve(fs[i].typ, args))))
    case Map(k, v) => Map(Resolve(k, args), Resolve(v, args))
    case List(e) => List(Resolve(e, args))
    case Config(e) => Config(Resolve(e, args))
    case Pointer(b) => Pointer(Resolve(b, args))
    case Optional(v) => Optional(Resolve(v, args))
    case Union(_) => t
    case Named(id, ts) => Named(id, seq(|ts|, i requires 0 <= i < |ts| => Resolve(ts[i], args)))
  }

  /** No union in t mentions a type parameter. */
  predicate UnionsClosed(t: Type) {
    match t
    case Param(_) => true
    case Builtin(_) => true
    case Literal(_) => true
    case Struct(fs) => forall i :: 0 <= i < |fs| ==> UnionsClosed(fs[i].typ)
    case Map(k, v) => UnionsClosed(k) && UnionsClosed(v)
    case List(e) => UnionsClosed(e)
    case Config(e) => UnionsClosed(e)
    case Pointer(b) => UnionsClosed(b)
    case Optional(v) => UnionsClosed(v)
    case Union(_) => Closed(t)
    case Named(_, ts) => forall i :: 0 <= i < |ts| ==> UnionsClosed(ts[i])
  }

  predicate AllUnionsClosed(ts: seq<Type>) {
    forall i :: 0 <= i < |ts| ==> UnionsClosed(ts[i])
  }

  lemma {:induction false} ScopeIsRange(t: Type, n: nat)
    requires InScope(t, n)
    ensures InRange(t, n)
  {
    match t
    case Param(_) =>
    case Builtin(_) =>
    case Literal(_) =>
    case Struct(fs) => forall i | 0 <= i < |fs| ensures InRange(fs[i].typ, n) { ScopeIsRange(fs[i].typ, n); }
    case Map(k, v) => ScopeIsRange(k, n); ScopeIsRange(v, n);
    case List(e) => ScopeIsRange(e, n);
    case Config(e) => ScopeIsRange(e, n);
    case Pointer(b) => ScopeIsRange(b, n);
    case Optional(v) => ScopeIsRange(v, n);
    case Union(_) =>
    case Named(_, ts) => forall i | 0 <= i < |ts| ensures InRange(ts[i], n) { ScopeIsRange(ts[i], n); }
  }

  lemma {:induction false} ResolveSubstitutes(t: Type, args: seq<Type>)
    requires InScope(t, |args|) && UnionsClosed(t)
    ensures InRange(t, |args|) && Resolve(t, args) == Subst(t, args)
  {
    ScopeIsRange(t, |args|);
    match t
    case Param(_) =>
    case Builtin(_) =>
    case Literal(_) =>
    case Struct(fs) =>
      forall i | 0 <= i < |fs|
        ensures InRange(fs[i].typ, |args|) && Resolve(fs[i].typ, args) == Subst(fs[i].typ, args)
      { ResolveSubstitutes(fs[i].typ, args); }
      assert Resolve(t, args).fields == Subst(t, args).fields;
    case Map(k, v) => ResolveSubstitutes(k, args); ResolveSubstitutes(v, args);
    case List(e) => ResolveSubstitutes(e, args);
    case Config(e) => ResolveSubstitutes(e, args);
    case Pointer(b) => ResolveSubstitutes(b, args);
    case Optional(v) => ResolveSubstitutes(v, args);
    case Union(_) => SubstClosed(t, args);
    case Named(_, ts) =>
      forall i | 0 <= i < |ts| ensures InRange(ts[i], |args|) && Resolve(ts[i], args) == Subst(ts[i], args) {
        ResolveSubstitutes(ts[i], args);
      }
      assert Resolve(t, args).args == Subst(t, args).args;
  }

  /** A parameter inside a union survives. */
  lemma {:induction false} UnionKeepsParams(t: Type, args: seq<Type>)
    requires InRange(t, |args|) && !UnionsClosed(t)
    ensures !Closed(Resolve(t, args))
  {
    match t
    case Union(_) =>
    case Struct(fs) =>
      var i :| 0 <= i < |fs| && !UnionsClosed(fs[i].typ);
      UnionKeepsParams(fs[i].typ, args);
      assert Resolve(t, args).fields[i].typ == Resolve(fs[i].typ, args);
    case Map(k, v) => if !UnionsClosed(k) { UnionKeepsParams(k, args); } else { UnionKeepsParams(v, args); }
    case List(e) => UnionKeepsParams(e, args);
    case Config(e) => UnionKeepsParams(e, args);
    case Pointer(b) => UnionKeepsParams(b, args);
    case Optional(v) => UnionKeepsParams(v, args);
    case Named(_, ts) =>
      var i :| 0 <= i < |ts| && !UnionsClosed(ts[i]);
      UnionKeepsParams(ts[i], args);
      assert Resolve(t, args).args[i] == Resolve(ts[i], args);
  }

  /** With closed arguments resolveTypeParams is parallel substitution, and leaves no parameter,
      exactly when no union in the type mentions one. */
  lemma {:induction false} ResolveIsSubstIff(t: Type, args: seq<Type>)
    requires InScope(t, |args|) && AllClosed(args)
    ensures InRange(t, |args|)
    ensures Resolve(t, args) == Subst(t, args) <==> UnionsClosed(t)
    ensures Closed(Resolve(t, args)) <==> UnionsClosed(t)
  {
    ScopeIsRange(t, |args|);
    SubstInScope(t, args, 0);
    if UnionsClosed(t) { ResolveSubstitutes(t, args); } else { UnionKeepsParams(t, args); }
  }

  // ----- GetConcreteType -----

  datatype Outcome =
    | Concrete(typ: Type)
    | Unsupported   // the error returned for a bare type parameter
    | Panics        // an index out of range
    | Deeper        // more than `depth` declarations were entered

  function ResolveOrPanic(t: Type, args: seq<Type>): (o: Outcome)
    ensures o.Concrete? || o.Panics?
  {
    if InRange(t, |args|) then Concrete(Resolve(t, args)) else Panics
  }

  /** Declaration i of decls is the type of the declaration with id i; depth bounds the declarations entered. */
  function GetConcrete(decls: seq<Type>, depth: nat, t: Type, args: seq<Type>): Outcome
    decreases depth, t
  {
    match t
    case Param(_) => Unsupported
    case Builtin(_) => Concrete(t)
    case Literal(_) => Concrete(t)
    case Named(id, ts) =>
      if id >= |decls| then Panics
      else if depth == 0 then Deeper
      else GetConcrete(decls, depth - 1, decls[id], ts)
    case Pointer(b) =>
      if args == [] then Concrete(t)
      else
        var r := GetConcrete(decls, depth, b, args);
        if r.Concrete? then ResolveOrPanic(Pointer(r.typ), args) else r
    case Optional(v) =>
      if args == [] then Concrete(t)
      else
        var r := GetConcrete(decls, depth, v, args);
        if r.Concrete? then ResolveOrPanic(Optional(r.typ), args) else r
    case Union(ts) =>
      if args == [] then Concrete(t)
      else if forall i :: 0 <= i < |ts| ==> InRange(ts[i], |args|)
      then Concrete(Union(seq(|ts|, i requires 0 <= i < |ts| => Resolve(ts[i], args))))
      else Panics
    case _ =>
      if args == [] then Concrete(t) else ResolveOrPanic(t, args)
  }

  /** A result does not depend on the bound once the bound is large enough. */
  lemma {:induction false} DepthIsEnough(decls: seq<Type>, d: nat, e: nat, t: Type, args: seq<Type>)
    requires d <= e && !GetConcrete(decls, d, t, args).Deeper?
    ensures GetConcrete(decls, e, t, args) == GetConcrete(decls, d, t, args)
    decreases d, t
  {
    hide ResolveOrPanic;
    match t
    case Named(id, ts) =>
      if id < |decls| { DepthIsEnough(decls, d - 1, e - 1, decls[id], ts); }
    case Pointer(b) => if args != [] { DepthIsEnough(decls, d, e, b, args); }
    case Optional(v) => if args != [] { DepthIsEnough(decls, d, e, v, args); }
    case _ =>
  }

  predicate IsFlat(t: Type) {
    t.Struct? || t.List? || t.Map? || t.Config?
  }

  predicate IsWrapper(t: Type) {
    t.Pointer? || t.Optional?
  }

  /** The shapes GetConcreteType makes concrete: pointers and options around a flat type, a union or a name.
      A name must stand for a flat declaration or be given closed arguments (then its declaration may again
      have such a shape); with nothing wrapped around it, it must be given closed arguments in any case. */
  predicate IsPlain(decls: seq<Type>, depth: nat, t: Type, n: nat, wrapped: bool)
    decreases depth, t
  {
    InScope(t, n) &&
    match t
    case Param(_) => false
    case Pointer(b) => IsPlain(decls, depth, b, n, true)
    case Optional(v) => IsPlain(decls, depth, v, n, true)
    case Union(ts) => AllUnionsClosed(ts)
    case Named(id, ts) =>
      && id < |decls| && depth > 0 && AllUnionsClosed(ts)
      && InScope(decls[id], |ts|)
      && (wrapped || AllClosed(ts))
      && if IsFlat(decls[id]) then UnionsClosed(decls[id])
         else AllClosed(ts) && (IsUnexpanded(decls[id], ts) || IsPlain(decls, depth - 1, decls[id], |ts|, false))
    case _ => UnionsClosed(t)
  }

  /** Without arguments a pointer or option is returned as it is, names and all. */
  predicate IsUnexpanded(t: Type, args: seq<Type>) {
    args == [] && IsWrapper(t)
  }

  /** The type a plain type stands for: names on the spine replaced by their declarations,
      whose parameters get the arguments the name was given, in the caller's terms. */
  function Expand(decls: seq<Type>, depth: nat, t: Type, args: seq<Type>, wrapped: bool): Type
    requires IsPlain(decls, depth, t, |args|, wrapped)
    decreases depth, t
  {
    match t
    case Pointer(b) => Pointer(Expand(decls, depth, b, args, true))
    case Optional(v) => Optional(Expand(decls, depth, v, args, true))
    case Named(id, ts) =>
      if IsFlat(decls[id]) then Subst(decls[id], SubstAll(ts, args))
      else if IsUnexpanded(decls[id], ts) then decls[id]
      else Expand(decls, depth - 1, decls[id], ts, false)
    case _ => Subst(t, args)
  }

  lemma {:induction false} ExpandIsClosed(decls: seq<Type>, depth: nat, t: Type, args: seq<Type>, wrapped: bool)
    requires IsPlain(decls, depth, t, |args|, wrapped) && AllClosed(args)
    ensures Closed(Expand(decls, depth, t, args, wrapped))
    decreases depth, t
  {
    if t.Pointer? {
      ExpandIsClosed(decls, depth, t.base, args, true);
    } else if t.Optional? {
      ExpandIsClosed(decls, depth, t.inner, args, true);
    } else if t.Named? {
      if IsFlat(decls[t.id]) {
        SubstAllInScope(t.args, args, 0);
        SubstInScope(decls[t.id], SubstAll(t.args, args), 0);
      } else if !IsUnexpanded(decls[t.id], t.args) {
        ExpandIsClosed(decls, depth - 1, decls[t.id], t.args, false);
      }
    } else {
      SubstInScope(t, args, 0);
    }
  }

  lemma {:induction false} ClosedUnions(t: Type)
    requires Closed(t)
    ensures UnionsClosed(t)
  {
    match t
    case Struct(fs) => forall i | 0 <= i < |fs| ensures UnionsClosed(fs[i].typ) { ClosedUnions(fs[i].typ); }
    case Map(k, v) => ClosedUnions(k); ClosedUnions(v);
    case List(e) => ClosedUnions(e);
    case Config(e) => ClosedUnions(e);
    case Pointer(b) => ClosedUnions(b);
    case Optional(v) => ClosedUnions(v);
    case Named(_, ts) => forall i | 0 <= i < |ts| ensures UnionsClosed(ts[i]) { ClosedUnions(ts[i]); }
    case _ =>
  }

  lemma {:induction false} SubstKeepsUnionsClosed(t: Type, args: seq<Type>)
    requires InScope(t, |args|) && UnionsClosed(t) && AllUnionsClosed(args)
    ensures UnionsClosed(Subst(t, args))
  {
    match t
    case Struct(fs) =>
      forall i | 0 <= i < |fs| ensures UnionsClosed(Subst(t, args).fields[i].typ) {
        SubstKeepsUnionsClosed(fs[i].typ, args);
      }
    case Map(k, v) => SubstKeepsUnionsClosed(k, args); SubstKeepsUnionsClosed(v, args);
    case List(e) => SubstKeepsUnionsClosed(e, args);
    case Config(e) => SubstKeepsUnionsClosed(e, args);
    case Pointer(b) => SubstKeepsUnionsClosed(b, args);
    case Optional(v) => SubstKeepsUnionsClosed(v, args);
    case Union(_) => SubstClosed(t, args);
    case Named(_, ts) =>
      forall i | 0 <= i < |ts| ensures UnionsClosed(Subst(ts[i], args)) { SubstKeepsUnionsClosed(ts[i], args); }
    case _ =>
  }

  lemma {:induction false} ResolveClosed(t: Type, args: seq<Type>)
    requires Closed(t)
    ensures InRange(t, |args|) && Resolve(t, args) == t
  {
    ClosedUnions(t);
    SubstClosed(t, args);
    ResolveSubstitutes(t, args);
  }

  /** A flat declaration entered through a name: its own arguments first, then the outer ones. */
  lemma {:induction false} TwoStep(decl: Type, ts: seq<Type>, args: seq<Type>)
    requires InScope(decl, |ts|) && UnionsClosed(decl) && AllInScope(ts, |args|) && AllUnionsClosed(ts)
    ensures InRange(decl, |ts|) && InRange(Resolve(decl, ts), |args|)
    ensures Resolve(Resolve(decl, ts), args) == Subst(decl, SubstAll(ts, args))
  {
    ResolveSubstitutes(decl, ts);
    SubstComposes(decl, ts, args);
    SubstKeepsUnionsClosed(decl, ts);
    ResolveSubstitutes(Subst(decl, ts), args);
  }

  /** What a call leaves for the second pass around it to finish: after that pass it is the expansion,
      and without one it is the expansion already. */
  predicate Expands(o: Outcome, want: Type, args: seq<Type>, wrapped: bool) {
    o.Concrete? && InRange(o.typ, |args|) && Resolve(o.typ, args) == want && (wrapped || o.typ == want)
  }

  lemma ExactExpands(t: Type, args: seq<Type>, wrapped: bool)
    requires Closed(t)
    ensures Expands(Concrete(t), t, args, wrapped)
  {
    ResolveClosed(t, args);
  }

  lemma {:induction false} FlatExpands(decls: seq<Type>, depth: nat, t: Type, args: seq<Type>, wrapped: bool)
    requires IsFlat(t) && InScope(t, |args|) && UnionsClosed(t) && AllClosed(args)
    ensures Expands(GetConcrete(decls, depth, t, args), Subst(t, args), args, wrapped)
  {
    hide InScope, UnionsClosed, InRange, Resolve, Subst;
    if args == [] { SubstClosed(t, args); } else { ResolveSubstitutes(t, args); }
    SubstInScope(t, args, 0);
    ExactExpands(Subst(t, args), args, wrapped);
  }

  lemma {:induction false} UnionExpands(decls: seq<Type>, depth: nat, t: Type, args: seq<Type>, wrapped: bool)
    requires t.Union? && InScope(t, |args|) && AllUnionsClosed(t.types) && AllClosed(args)
    ensures Expands(GetConcrete(decls, depth, t, args), Subst(t, args), args, wrapped)
  {
    SubstInScope(t, args, 0);
    ExactExpands(Subst(t, args), args, wrapped);
    if args == [] {
      SubstClosed(t, args);
    } else {
      forall i | 0 <= i < |t.types|
        ensures InRange(t.types[i], |args|) && Resolve(t.types[i], args) == Subst(t.types[i], args)
      { ResolveSubstitutes(t.types[i], args); }
      assert GetConcrete(decls, depth, t, args).typ.types == Subst(t, args).types;
    }
  }

  /** A name with a flat declaration. */
  lemma {:induction false} NameExpands(decls: seq<Type>, depth: nat, t: Type, args: seq<Type>, wrapped: bool)
    requires t.Named? && IsPlain(decls, depth, t, |args|, wrapped) && IsFlat(decls[t.id]) && AllClosed(args)
    ensures Expands(GetConcrete(decls, depth, t, args), Subst(decls[t.id], SubstAll(t.args, args)), args, wrapped)
  {
    var decl, ts := decls[t.id], t.args;
    TwoStep(decl, ts, args);
    assert GetConcrete(decls, depth, t, args) == Concrete(Resolve(decl, ts)) by {
      if ts == [] { ResolveClosed(decl, ts); }
      assert GetConcrete(decls, depth, t, args) == GetConcrete(decls, depth - 1, decl, ts);
    }
    if !wrapped {
      ResolveSubstitutes(decl, ts);
      SubstInScope(decl, ts, 0);
      ResolveClosed(Subst(decl, ts), args);
    }
  }

  lemma {:induction false} PlainExpands(decls: seq<Type>, depth: nat, t: Type, args: seq<Type>, wrapped: bool)
    requires IsPlain(decls, depth, t, |args|, wrapped) && AllClosed(args) && !IsUnexpanded(t, args)
    ensures Expands(GetConcrete(decls, depth, t, args), Expand(decls, depth, t, args, wrapped), args, wrapped)
    decreases depth, t
  {
    hide Subst, UnionsClosed;
    ExpandIsClosed(decls, depth, t, args, wrapped);
    ExactExpands(Expand(decls, depth, t, args, wrapped), args, wrapped);
    match t
    case Builtin(_) => SubstClosed(t, args);
    case Literal(_) => SubstClosed(t, args);
    case Union(_) => UnionExpands(decls, depth, t, args, wrapped);
    case Pointer(b) => PlainExpands(decls, depth, b, args, true);
    case Optional(v) => PlainExpands(decls, depth, v, args, true);
    case Named(id, ts) =>
      if IsFlat(decls[id]) {
        NameExpands(decls, depth, t, args, wrapped);
      } else if !IsUnexpanded(decls[id], ts) {
        PlainExpands(decls, depth - 1, decls[id], ts, false);
      }
    case _ => FlatExpands(decls, depth, t, args, wrapped);
  }

  /** GetConcreteType returns the expansion of every plain type given closed arguments,
      and no type parameter is left in it. */
  lemma {:induction false} ConcreteIsExpansion(decls: seq<Type>, depth: nat, t: Type, args: seq<Type>)
    requires IsPlain(decls, depth, t, |args|, false) && AllClosed(args) && !IsUnexpanded(t, args)
    ensures GetConcrete(decls, depth, t, args) == Concrete(Expand(decls, depth, t, args, false))
    ensures Closed(Expand(decls, depth, t, args, false))
  {
    PlainExpands(decls, depth, t, args, false);
    ExpandIsClosed(decls, depth, t, args, false);
  }
}
