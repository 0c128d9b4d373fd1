/** When GetConcreteType returns, when it panics, and when it ignores its arguments (parser/encoding/rpc.go).

    This module takes types as values.  The code shares and rewrites them; `TypeSettled` says for which calls
    that makes no difference, and `TypeOpen` what can happen in the others. */
module TypeLimits {
  import opened Common
  import opened TypeSubst

  // ----- The declarations entered -----

  /** How many pointers and options are around a type, and what they are around. */
  function Wraps(t: Type): nat {
    match t
    case Pointer(b) => Wraps(b) + 1
    case Optional(v) => Wraps(v) + 1
    case _ => 0
  }

  function Core(t: Type): (c: Type)
    ensures !IsWrapper(c) && (Wraps(t) == 0 <==> c == t)
  {
    match t
    case Pointer(b) => Core(b)
    case Optional(v) => Core(v)
    case _ => t
  }

  /** The declaration a call enters first, and whether it is given arguments.  A name inside a pointer or option
      is only looked up if the call has arguments. */
  datatype Visit = Visit(id: nat, given: bool)

  function FirstVisit(decls: seq<Type>, t: Type, given: bool): (v: Option<Visit>)
    ensures v.Some? ==> v.value.id < |decls|
  {
    var c := Core(t);
    if c.Named? && (Wraps(t) == 0 || given) && c.id < |decls| then Some(Visit(c.id, c.args != [])) else None
  }

  /** The declaration entered k declarations later. */
  function Later(decls: seq<Type>, v: Option<Visit>, k: nat): Option<Visit>
    requires v.Some? ==> v.value.id < |decls|
    decreases k
  {
    if k == 0 || v == None then v else Later(decls, FirstVisit(decls, decls[v.value.id], v.value.given), k - 1)
  }

  lemma {:induction false} DeeperIffVisits(decls: seq<Type>, depth: nat, t: Type, args: seq<Type>)
    ensures GetConcrete(decls, depth, t, args).Deeper? <==> Later(decls, FirstVisit(decls, t, args != []), depth).Some?
    decreases depth, t
  {
    hide ResolveOrPanic;
    match t
    case Named(id, ts) =>
      if id < |decls| && depth > 0 { DeeperIffVisits(decls, depth - 1, decls[id], ts); }
    case Pointer(b) =>
      if args != [] { DeeperIffVisits(decls, depth, b, args); }
    case Optional(v) =>
      if args != [] { DeeperIffVisits(decls, depth, v, args); }
    case _ =>
  }

  lemma {:induction false} LaterAdds(decls: seq<Type>, v: Option<Visit>, i: nat, j: nat)
    requires v.Some? ==> v.value.id < |decls|
    ensures var w := Later(decls, v, i);
            (w.Some? ==> w.value.id < |decls|) && Later(decls, w, j) == Later(decls, v, i + j)
    decreases i
  {
    if i > 0 && v.Some? { LaterAdds(decls, FirstVisit(decls, decls[v.value.id], v.value.given), i - 1, j); }
  }

  /** Once a visit repeats, the visits go round for ever. */
  lemma {:induction false} RepeatsForever(decls: seq<Type>, v: Option<Visit>, i: nat, j: nat, k: nat)
    requires v.Some? ==> v.value.id < |decls|
    requires i < j && Later(decls, v, i) == Later(decls, v, j) && Later(decls, v, i).Some?
    ensures Later(decls, v, k).Some?
    decreases k
  {
    if k < j {
      LaterAdds(decls, v, k, j - k);
    } else {
      LaterAdds(decls, v, i, k - j);
      LaterAdds(decls, v, j, k - j);
      RepeatsForever(decls, v, i, j, i + (k - j));
    }
  }

  // ----- A visit repeats if there are enough of them -----

  function Ids(decls: seq<Type>, v: Option<Visit>, n: nat): (s: seq<nat>)
    requires v.Some? ==> v.value.id < |decls|
    requires n > 0 ==> Later(decls, v, n - 1).Some?
    ensures |s| == n
    decreases n
  {
    if n == 0 then []
    else
      assert n > 1 ==> Later(decls, v, n - 2).Some? by {
        if n > 1 { LaterAdds(decls, v, n - 2, 1); }
      }
      Ids(decls, v, n - 1) + [Later(decls, v, n - 1).value.id]
  }

  lemma {:induction false} IdsAt(decls: seq<Type>, v: Option<Visit>, n: nat, i: nat)
    requires v.Some? ==> v.value.id < |decls|
    requires i < n && Later(decls, v, n - 1).Some?
    ensures Later(decls, v, i).Some? && Ids(decls, v, n)[i] == Later(decls, v, i).value.id < |decls|
    decreases n
  {
    LaterAdds(decls, v, n - 1, 0);
    if i < n - 1 {
      LaterAdds(decls, v, n - 2, 1);
      IdsAt(decls, v, n - 1, i);
    }
  }

  predicate NoRepeat(s: seq<nat>) {
    forall i, j :: 0 <= i < j < |s| ==> s[i] != s[j]
  }

  function Elements(s: seq<nat>): set<nat> {
    set x | x in s
  }

  function Below(n: nat): (r: set<nat>)
    ensures forall x :: x in r <==> 0 <= x < n
  {
    if n == 0 then {} else Below(n - 1) + {n - 1}
  }

  lemma {:induction false} Pigeonhole(s: seq<nat>, n: nat)
    requires NoRepeat(s) && forall x <- s :: x < n
    ensures |s| <= n
  {
    BelowCount(n);
    ElementCount(s);
    SubsetCount(Elements(s), Below(n));
  }

  lemma {:induction false} BelowCount(n: nat)
    ensures |Below(n)| == n
  {
    if n > 0 { BelowCount(n - 1); }
  }

  lemma {:induction false} ElementCount(s: seq<nat>)
    requires NoRepeat(s)
    ensures |Elements(s)| == |s|
  {
    if s != [] {
      var init, last := s[..|s| - 1], s[|s| - 1];
      ElementCount(init);
      assert s == init + [last] && last !in init;
      assert Elements(s) == Elements(init) + {last};
    }
  }

  lemma {:induction false} SubsetCount(a: set<nat>, b: set<nat>)
    requires a <= b
    ensures |a| <= |b|
    decreases |a|
  {
    if a != {} {
      var x :| x in a;
      SubsetCount(a - {x}, b - {x});
    }
  }

  ghost predicate Repeats(decls: seq<Type>, v: Option<Visit>)
    requires v.Some? ==> v.value.id < |decls|
  {
    exists i: nat, j: nat :: i < j && Later(decls, v, i).Some? && Later(decls, v, i) == Later(decls, v, j)
  }

  /** Two visits of one declaration that both go on go on alike: the one without arguments goes on only if
      the declaration is a name itself, and then arguments make no difference. */
  lemma {:induction false} SameNext(decls: seq<Type>, v: Visit, w: Visit)
    requires v.id == w.id < |decls|
    requires FirstVisit(decls, decls[v.id], v.given).Some? && FirstVisit(decls, decls[w.id], w.given).Some?
    ensures FirstVisit(decls, decls[v.id], v.given) == FirstVisit(decls, decls[w.id], w.given)
  {
  }

  lemma {:induction false} ManyVisitsRepeat(decls: seq<Type>, v: Option<Visit>)
    requires v.Some? ==> v.value.id < |decls|
    requires Later(decls, v, |decls| + 1).Some?
    ensures Repeats(decls, v)
  {
    hide Later, FirstVisit;
    var n := |decls| + 1;
    LaterAdds(decls, v, |decls|, 1);
    LaterOfNone(decls, Later(decls, v, |decls|), 1);
    var s := Ids(decls, v, n);
    forall i | 0 <= i < n ensures s[i] < |decls| { IdsAt(decls, v, n, i); }
    if NoRepeat(s) { Pigeonhole(s, |decls|); }
    var i, j :| 0 <= i < j < |s| && s[i] == s[j];
    IdsAt(decls, v, n, i);
    IdsAt(decls, v, n, j);
    GoesOn(decls, v, i);
    GoesOn(decls, v, j);
    SameNext(decls, Later(decls, v, i).value, Later(decls, v, j).value);
    assert Later(decls, v, i + 1) == Later(decls, v, j + 1);
  }

  lemma {:induction false} LaterOfNone(decls: seq<Type>, v: Option<Visit>, k: nat)
    ensures v == None ==> Later(decls, v, k) == None
  {
  }

  lemma {:induction false} GoesOn(decls: seq<Type>, v: Option<Visit>, i: nat)
    requires v.Some? ==> v.value.id < |decls|
    requires i <= |decls| && Later(decls, v, |decls| + 1).Some?
    ensures Later(decls, v, i).Some? && Later(decls, v, i).value.id < |decls| && Later(decls, v, i + 1).Some?
    ensures var w := Later(decls, v, i).value; Later(decls, v, i + 1) == FirstVisit(decls, decls[w.id], w.given)
  {
    LaterAdds(decls, v, i, |decls| + 1 - i);
    LaterAdds(decls, v, i + 1, |decls| - i);
    LaterAdds(decls, v, i, 1);
  }

  /** On values, a call never returns if and only if it enters a declaration twice with or twice without
      arguments, and that shows after one more declaration than there are. */
  lemma {:induction false} NeverReturnsIff(decls: seq<Type>, t: Type, args: seq<Type>)
    ensures (forall depth :: GetConcrete(decls, depth, t, args).Deeper?)
       <==> Repeats(decls, FirstVisit(decls, t, args != []))
    ensures (forall depth :: GetConcrete(decls, depth, t, args).Deeper?)
       <==> GetConcrete(decls, |decls| + 1, t, args).Deeper?
  {
    hide Later, FirstVisit, GetConcrete;
    var v := FirstVisit(decls, t, args != []);
    DeeperIffVisits(decls, |decls| + 1, t, args);
    if Later(decls, v, |decls| + 1).Some? { ManyVisitsRepeat(decls, v); }
    if Repeats(decls, v) {
      var i: nat, j: nat :| i < j && Later(decls, v, i).Some? && Later(decls, v, i) == Later(decls, v, j);
      forall depth ensures GetConcrete(decls, depth, t, args).Deeper? {
        DeeperIffVisits(decls, depth, t, args);
        RepeatsForever(decls, v, i, j, depth);
      }
    }
  }

  // ----- Parameters out of range -----

  /** The type parameters the code meets in t; it does not look inside unions. */
  ghost function Seen(t: Type): set<nat> {
    match t
    case Param(i) => {i}
    case Builtin(_) => {}
    case Literal(_) => {}
    case Struct(fs) => set i, p | 0 <= i < |fs| && p in Seen(fs[i].typ) :: p
    case Map(k, v) => Seen(k) + Seen(v)
    case List(e) => Seen(e)
    case Config(e) => Seen(e)
    case Pointer(b) => Seen(b)
    case Optional(v) => Seen(v)
    case Union(_) => {}
    case Named(_, ts) => SeenIn(ts)
  }

  ghost function SeenIn(ts: seq<Type>): set<nat> {
    set i, p | 0 <= i < |ts| && p in Seen(ts[i]) :: p
  }

  predicate Fits(s: set<nat>, n: nat) {
    forall p <- s :: p < n
  }

  lemma {:induction false} SeenInFields(fs: seq<Field>)
    ensures forall p :: p in Seen(Struct(fs)) <==> exists i :: 0 <= i < |fs| && p in Seen(fs[i].typ)
  {
  }

  lemma {:induction false} SeenInTypes(ts: seq<Type>)
    ensures forall p :: p in SeenIn(ts) <==> exists i :: 0 <= i < |ts| && p in Seen(ts[i])
  {
  }

  lemma {:induction false} FieldsFit(fs: seq<Field>, n: nat)
    ensures Fits(Seen(Struct(fs)), n) <==> forall i :: 0 <= i < |fs| ==> Fits(Seen(fs[i].typ), n)
  {
    SeenInFields(fs);
    if Fits(Seen(Struct(fs)), n) {
      forall i, p | 0 <= i < |fs| && p in Seen(fs[i].typ) ensures p < n { assert p in Seen(Struct(fs)); }
    }
  }

  lemma {:induction false} TypesFit(ts: seq<Type>, n: nat)
    ensures Fits(SeenIn(ts), n) <==> forall i :: 0 <= i < |ts| ==> Fits(Seen(ts[i]), n)
  {
    SeenInTypes(ts);
    if Fits(SeenIn(ts), n) {
      forall i, p | 0 <= i < |ts| && p in Seen(ts[i]) ensures p < n { assert p in SeenIn(ts); }
    }
  }

  lemma {:induction false} InRangeIffSeen(t: Type, n: nat)
    ensures InRange(t, n) <==> Fits(Seen(t), n)
  {
    match t
    case Param(_) =>
    case Builtin(_) =>
    case Literal(_) =>
    case Struct(fs) =>
      forall i | 0 <= i < |fs| ensures InRange(fs[i].typ, n) <==> Fits(Seen(fs[i].typ), n) {
        InRangeIffSeen(fs[i].typ, n);
      }
      FieldsFit(fs, n);
    case Map(k, v) => InRangeIffSeen(k, n); InRangeIffSeen(v, n);
    case List(e) => InRangeIffSeen(e, n);
    case Config(e) => InRangeIffSeen(e, n);
    case Pointer(b) => InRangeIffSeen(b, n);
    case Optional(v) => InRangeIffSeen(v, n);
    case Union(_) =>
    case Named(_, ts) =>
      forall i | 0 <= i < |ts| ensures InRange(ts[i], n) <==> Fits(Seen(ts[i]), n) { InRangeIffSeen(ts[i], n); }
      TypesFit(ts, n);
  }

  /** The parameters that the arguments for the given ones mention. */
  ghost function Mentioned(args: seq<Type>, s: set<nat>): set<nat> {
    set i, p | i in s && i < |args| && p in Seen(args[i]) :: p
  }

  lemma {:induction false} SeenAfterResolve(t: Type, args: seq<Type>)
    requires InRange(t, |args|)
    ensures Seen(Resolve(t, args)) == Mentioned(args, Seen(t))
  {
    match t
    case Param(_) =>
    case Builtin(_) =>
    case Literal(_) =>
    case Struct(fs) =>
      forall i | 0 <= i < |fs| ensures Seen(Resolve(fs[i].typ, args)) == Mentioned(args, Seen(fs[i].typ)) {
        SeenAfterResolve(fs[i].typ, args);
      }
      var r := Resolve(t, args).fields;
      SeenInFields(fs);
      SeenInFields(r);
      assert forall i :: 0 <= i < |fs| ==> r[i].typ == Resolve(fs[i].typ, args);
    case Map(k, v) => SeenAfterResolve(k, args); SeenAfterResolve(v, args);
    case List(e) => SeenAfterResolve(e, args);
    case Config(e) => SeenAfterResolve(e, args);
    case Pointer(b) => SeenAfterResolve(b, args);
    case Optional(v) => SeenAfterResolve(v, args);
    case Union(_) =>
    case Named(_, ts) =>
      forall i | 0 <= i < |ts| ensures Seen(Resolve(ts[i], args)) == Mentioned(args, Seen(ts[i])) {
        SeenAfterResolve(ts[i], args);
      }
      var r := Resolve(t, args).args;
      SeenInTypes(ts);
      SeenInTypes(r);
      assert forall i :: 0 <= i < |ts| ==> r[i] == Resolve(ts[i], args);
  }

  /** The parameters left after n passes with the same arguments. */
  ghost function After(args: seq<Type>, s: set<nat>, n: nat): set<nat> {
    if n == 0 then s else Mentioned(args, After(args, s, n - 1))
  }

  /** One of the first n passes meets a parameter for which there is no argument. */
  ghost predicate Strays(args: seq<Type>, s: set<nat>, n: nat) {
    exists m: nat :: m < n && !Fits(After(args, s, m), |args|)
  }

  /** The parameters left in the result.  Arguments are substituted once in the core of the type, if that is flat,
      and once more for each pointer or option around it. */
  ghost function Left(decls: seq<Type>, depth: nat, t: Type, args: seq<Type>): set<nat>
    decreases depth
  {
    var c, k := Core(t), Wraps(t);
    if k > 0 && args == [] then Seen(t)
    else if c.Named? then
      if c.id >= |decls| || depth == 0 then {} else After(args, Left(decls, depth - 1, decls[c.id], c.args), k)
    else if !IsFlat(c) then {}
    else if args == [] then Seen(t)
    else After(args, Seen(c), k + 1)
  }

  /** Some declaration is missing, or one of the passes over a type, one if its core is flat and one more for
      each pointer or option around it, meets a parameter for which there is no argument. */
  ghost predicate OutOfRange(decls: seq<Type>, depth: nat, t: Type, args: seq<Type>)
    decreases depth
  {
    var c, k := Core(t), Wraps(t);
    if k > 0 && args == [] then false
    else if c.Named? then
      c.id >= |decls| ||
      (depth > 0 && (OutOfRange(decls, depth - 1, decls[c.id], c.args) ||
                     Strays(args, Left(decls, depth - 1, decls[c.id], c.args), k)))
    else if args == [] then false
    else if c.Union? then !Fits(SeenIn(c.types), |args|)
    else IsFlat(c) && Strays(args, Seen(c), k + 1)
  }

  lemma {:induction false} StraysStep(args: seq<Type>, s: set<nat>, n: nat)
    ensures Strays(args, s, n + 1) <==> Strays(args, s, n) || !Fits(After(args, s, n), |args|)
    ensures !Strays(args, s, 0)
  {
    hide After, Fits;
  }

  lemma MentionedByNothing(args: seq<Type>)
    ensures Mentioned(args, {}) == {}
  {
  }

  /** What a call does to parameters: it panics exactly if one is out of range, and else leaves those of Left. */
  ghost predicate Agrees(o: Outcome, bad: bool, left: set<nat>) {
    && (o.Panics? <==> bad)
    && (o.Concrete? ==> Seen(o.typ) == left)
    && (o.Unsupported? ==> left == {})
  }

  lemma {:induction false} FlatAgrees(decls: seq<Type>, depth: nat, t: Type, args: seq<Type>)
    requires IsFlat(t)
    ensures Agrees(GetConcrete(decls, depth, t, args), OutOfRange(decls, depth, t, args), Left(decls, depth, t, args))
  {
    hide Seen, InRange, Resolve;
    if args != [] {
      InRangeIffSeen(t, |args|);
      StraysStep(args, Seen(t), 0);
      assert After(args, Seen(t), 0) == Seen(t);
      assert After(args, Seen(t), 1) == Mentioned(args, Seen(t));
      if InRange(t, |args|) { SeenAfterResolve(t, args); }
    }
  }

  lemma {:induction false} UnionAgrees(decls: seq<Type>, depth: nat, t: Type, args: seq<Type>)
    requires t.Union?
    ensures Agrees(GetConcrete(decls, depth, t, args), OutOfRange(decls, depth, t, args), Left(decls, depth, t, args))
  {
    var ts := t.types;
    forall i | 0 <= i < |ts| ensures InRange(ts[i], |args|) <==> Fits(Seen(ts[i]), |args|) {
      InRangeIffSeen(ts[i], |args|);
    }
    TypesFit(ts, |args|);
  }

  /** One pointer or option more around t. */
  lemma {:induction false} WrapperAgrees(decls: seq<Type>, depth: nat, t: Type, b: Type, args: seq<Type>)
    requires args != [] && (t == Pointer(b) || t == Optional(b))
    requires !GetConcrete(decls, depth, t, args).Deeper?
    requires Agrees(GetConcrete(decls, depth, b, args), OutOfRange(decls, depth, b, args), Left(decls, depth, b, args))
    ensures Agrees(GetConcrete(decls, depth, t, args), OutOfRange(decls, depth, t, args), Left(decls, depth, t, args))
  {
    var r, left := GetConcrete(decls, depth, b, args), Left(decls, depth, b, args);
    assert Left(decls, depth, t, args) == Mentioned(args, left) by { LeftStep(decls, depth, t, b, args); }
    assert OutOfRange(decls, depth, t, args) <==> OutOfRange(decls, depth, b, args) || !Fits(left, |args|) by {
      OutOfRangeStep(decls, depth, t, b, args);
    }
    if r.Concrete? {
      InRangeIffSeen(r.typ, |args|);
      if InRange(r.typ, |args|) { SeenAfterResolve(r.typ, args); }
    }
  }

  lemma {:induction false} LeftStep(decls: seq<Type>, depth: nat, t: Type, b: Type, args: seq<Type>)
    requires args != [] && (t == Pointer(b) || t == Optional(b))
    ensures Left(decls, depth, t, args) == Mentioned(args, Left(decls, depth, b, args))
  {
    hide Seen, Mentioned;
    MentionedByNothing(args);
  }

  lemma {:induction false} OutOfRangeStep(decls: seq<Type>, depth: nat, t: Type, b: Type, args: seq<Type>)
    requires args != [] && (t == Pointer(b) || t == Optional(b))
    ensures OutOfRange(decls, depth, t, args) <==>
            OutOfRange(decls, depth, b, args) || !Fits(Left(decls, depth, b, args), |args|)
  {
    hide Seen, Mentioned, After, Strays;
    var c, k := Core(b), Wraps(b);
    if c.Named? && c.id < |decls| && depth > 0 {
      StraysStep(args, Left(decls, depth - 1, decls[c.id], c.args), k);
    } else if IsFlat(c) {
      StraysStep(args, Seen(c), k + 1);
    }
  }

  lemma {:induction false} CallAgrees(decls: seq<Type>, depth: nat, t: Type, args: seq<Type>)
    requires !GetConcrete(decls, depth, t, args).Deeper?
    ensures Agrees(GetConcrete(decls, depth, t, args), OutOfRange(decls, depth, t, args), Left(decls, depth, t, args))
    decreases depth, t
  {
    hide Seen, Mentioned, Strays, Agrees;
    if t.Pointer? && args != [] {
      CallAgrees(decls, depth, t.base, args);
      WrapperAgrees(decls, depth, t, t.base, args);
    } else if t.Optional? && args != [] {
      CallAgrees(decls, depth, t.inner, args);
      WrapperAgrees(decls, depth, t, t.inner, args);
    } else if t.Union? {
      UnionAgrees(decls, depth, t, args);
    } else if IsFlat(t) {
      FlatAgrees(decls, depth, t, args);
    } else {
      if t.Named? && t.id < |decls| { CallAgrees(decls, depth - 1, decls[t.id], t.args); }
      OtherAgrees(decls, depth, t, args);
    }
  }

  lemma {:induction false} OtherAgrees(decls: seq<Type>, depth: nat, t: Type, args: seq<Type>)
    requires !t.Union? && !IsFlat(t) && (IsWrapper(t) ==> args == []) && !GetConcrete(decls, depth, t, args).Deeper?
    requires t.Named? && t.id < |decls| ==>
               Agrees(GetConcrete(decls, depth - 1, decls[t.id], t.args),
                      OutOfRange(decls, depth - 1, decls[t.id], t.args), Left(decls, depth - 1, decls[t.id], t.args))
    ensures Agrees(GetConcrete(decls, depth, t, args), OutOfRange(decls, depth, t, args), Left(decls, depth, t, args))
  {
    if t.Named? && t.id < |decls| {
      var left := Left(decls, depth - 1, decls[t.id], t.args);
      StraysStep(args, left, 0);
      assert After(args, left, 0) == left;
    }
  }

  /** On values, a call that returns panics if and only if a parameter gets out of range; otherwise exactly those
      of Left remain, as far as the code sees them. */
  lemma {:induction false} PanicsIffOutOfRange(decls: seq<Type>, depth: nat, t: Type, args: seq<Type>)
    requires !GetConcrete(decls, depth, t, args).Deeper?
    ensures GetConcrete(decls, depth, t, args) == Panics <==> OutOfRange(decls, depth, t, args)
    ensures GetConcrete(decls, depth, t, args).Concrete? ==>
              Seen(GetConcrete(decls, depth, t, args).typ) == Left(decls, depth, t, args)
  {
    hide GetConcrete, OutOfRange, Left, Seen;
    CallAgrees(decls, depth, t, args);
  }

  /** A name whose declaration is a pointer or option around a flat type in scope: on values it panics if and only
      if an argument for a parameter the declaration mentions itself mentions one beyond the arguments. */
  lemma {:induction false} WrappedDeclPanicsIff(decls: seq<Type>, depth: nat, id: nat, ts: seq<Type>, body: Type,
                                                args: seq<Type>)
    requires id < |decls| && depth > 0 && ts != [] && IsFlat(body) && InScope(body, |ts|)
    requires decls[id] == Pointer(body) || decls[id] == Optional(body)
    ensures GetConcrete(decls, depth, Named(id, ts), args) == Panics
       <==> exists i: nat, j: nat :: i in Seen(body) && i < |ts| && j in Seen(ts[i]) && j >= |ts|
  {
    hide Seen, InScope, Mentioned, Fits, Resolve;
    var seen := Seen(body);
    ScopeIsRange(body, |ts|);
    InRangeIffSeen(body, |ts|);
    assert GetConcrete(decls, depth - 1, body, ts) == Concrete(Resolve(body, ts));
    assert GetConcrete(decls, depth, Named(id, ts), args) == GetConcrete(decls, depth - 1, decls[id], ts);
    InRangeIffSeen(Resolve(body, ts), |ts|);
    SeenAfterResolve(body, ts);
    assert GetConcrete(decls, depth, Named(id, ts), args) == Panics <==> !Fits(Mentioned(ts, seen), |ts|);
    MentionedFits(ts, seen);
  }

  lemma {:induction false} MentionedFits(ts: seq<Type>, s: set<nat>)
    ensures !Fits(Mentioned(ts, s), |ts|)
       <==> exists i: nat, j: nat :: i in s && i < |ts| && j in Seen(ts[i]) && j >= |ts|
  {
    if j: nat :| j in Mentioned(ts, s) && j >= |ts| {
      var i: nat :| i in s && i < |ts| && j in Seen(ts[i]);
      assert !Fits(Mentioned(ts, s), |ts|);
    }
    if i: nat, j: nat :| i in s && i < |ts| && j in Seen(ts[i]) && j >= |ts| {
      assert j in Mentioned(ts, s);
      assert !Fits(Mentioned(ts, s), |ts|);
      assert exists k: nat, p: nat :: k in s && k < |ts| && p in Seen(ts[k]) && p >= |ts|;
    }
  }

  /** A pointer to a generic pointer, given the second of two parameters: the inner pass meets
      a parameter of the outer context and looks it up among its own single argument. */
  lemma {:induction false} NestedPointerPanics(depth: nat, name: string)
    requires depth > 0
    ensures var decls := [Pointer(Struct([Field(name, Param(0))]))];
            GetConcrete(decls, depth, Pointer(Named(0, [Param(1)])), [Builtin(0), Builtin(1)]) == Panics
  {
    var body := Struct([Field(name, Param(0))]);
    var decls := [Pointer(body)];
    var ts := [Param(1)];
    assert InRange(body, 1);
    assert Resolve(body, ts).fields[0].typ == Param(1);
    assert !InRange(Resolve(body, ts), 1);
    assert GetConcrete(decls, depth - 1, body, ts) == Concrete(Resolve(body, ts));
    assert GetConcrete(decls, depth - 1, decls[0], ts) == Panics;
    assert GetConcrete(decls, depth, Named(0, ts), [Builtin(0), Builtin(1)]) == Panics;
  }

  /** A generic pointer to itself is entered without end. */
  lemma {:induction false} SelfPointerNeverReturns(depth: nat, args: seq<Type>)
    requires args != []
    ensures GetConcrete([Pointer(Named(0, [Param(0)]))], depth, Pointer(Named(0, [Param(0)])), args) == Deeper
  {
    if depth > 0 { SelfPointerNeverReturns(depth - 1, [Param(0)]); }
  }

  // ----- Arguments ignored -----

  /** Each of these parameters is given an argument without parameters. */
  predicate Supplied(args: seq<Type>, s: set<nat>) {
    forall i <- s :: i < |args| && Closed(args[i])
  }

  lemma {:induction false} FieldsSupplied(fs: seq<Field>, args: seq<Type>)
    ensures Supplied(args, Seen(Struct(fs))) <==> forall i :: 0 <= i < |fs| ==> Supplied(args, Seen(fs[i].typ))
  {
    SeenInFields(fs);
    if Supplied(args, Seen(Struct(fs))) {
      forall i | 0 <= i < |fs| ensures Supplied(args, Seen(fs[i].typ)) {
        forall p <- Seen(fs[i].typ) ensures p < |args| && Closed(args[p]) { assert p in Seen(Struct(fs)); }
      }
    }
  }

  lemma {:induction false} TypesSupplied(ts: seq<Type>, args: seq<Type>)
    ensures Supplied(args, SeenIn(ts)) <==> forall i :: 0 <= i < |ts| ==> Supplied(args, Seen(ts[i]))
  {
    SeenInTypes(ts);
    if Supplied(args, SeenIn(ts)) {
      forall i | 0 <= i < |ts| ensures Supplied(args, Seen(ts[i])) {
        forall p <- Seen(ts[i]) ensures p < |args| && Closed(args[p]) { assert p in SeenIn(ts); }
      }
    }
  }

  lemma {:induction false} SubstIsClosedIff(t: Type, args: seq<Type>)
    requires InScope(t, |args|) && UnionsClosed(t)
    ensures Closed(Subst(t, args)) <==> Supplied(args, Seen(t))
  {
    match t
    case Param(_) =>
    case Builtin(_) =>
    case Literal(_) =>
    case Struct(fs) =>
      forall i | 0 <= i < |fs| ensures Closed(Subst(fs[i].typ, args)) <==> Supplied(args, Seen(fs[i].typ)) {
        SubstIsClosedIff(fs[i].typ, args);
      }
      StructIsClosedIff(fs, args);
    case Map(k, v) => SubstIsClosedIff(k, args); SubstIsClosedIff(v, args);
    case List(e) => SubstIsClosedIff(e, args);
    case Config(e) => SubstIsClosedIff(e, args);
    case Pointer(b) => SubstIsClosedIff(b, args);
    case Optional(v) => SubstIsClosedIff(v, args);
    case Union(_) => SubstClosed(t, args);
    case Named(id, ts) =>
      forall i | 0 <= i < |ts| ensures Closed(Subst(ts[i], args)) <==> Supplied(args, Seen(ts[i])) {
        SubstIsClosedIff(ts[i], args);
      }
      NamedIsClosedIff(id, ts, args);
  }

  lemma {:induction false} StructIsClosedIff(fs: seq<Field>, args: seq<Type>)
    requires InScope(Struct(fs), |args|)
    requires forall i :: 0 <= i < |fs| ==> (Closed(Subst(fs[i].typ, args)) <==> Supplied(args, Seen(fs[i].typ)))
    ensures Closed(Subst(Struct(fs), args)) <==> Supplied(args, Seen(Struct(fs)))
  {
    hide Supplied, Seen;
    FieldsSupplied(fs, args);
    var r := Subst(Struct(fs), args).fields;
    assert Closed(Struct(r)) <==> forall i :: 0 <= i < |fs| ==> Closed(r[i].typ);
    assert forall i :: 0 <= i < |fs| ==> r[i].typ == Subst(fs[i].typ, args);
  }

  lemma {:induction false} NamedIsClosedIff(id: nat, ts: seq<Type>, args: seq<Type>)
    requires InScope(Named(id, ts), |args|)
    requires forall i :: 0 <= i < |ts| ==> (Closed(Subst(ts[i], args)) <==> Supplied(args, Seen(ts[i])))
    ensures Closed(Subst(Named(id, ts), args)) <==> Supplied(args, Seen(Named(id, ts)))
  {
    hide Supplied, SeenIn;
    TypesSupplied(ts, args);
    var r := Subst(Named(id, ts), args).args;
    assert Closed(Named(id, r)) <==> forall i :: 0 <= i < |ts| ==> Closed(r[i]);
    assert forall i :: 0 <= i < |ts| ==> r[i] == Subst(ts[i], args);
  }

  /** A name looked up on its own ignores the caller's arguments: it gets the intended type exactly when
      every parameter its declaration mentions is given a closed argument. */
  lemma {:induction false} BareNameIsConcreteIff(decls: seq<Type>, depth: nat, t: Type, args: seq<Type>)
    requires t.Named? && t.id < |decls| && depth > 0 && IsFlat(decls[t.id])
    requires InScope(decls[t.id], |t.args|) && UnionsClosed(decls[t.id])
    requires AllInScope(t.args, |args|) && AllClosed(args)
    ensures GetConcrete(decls, depth, t, args) == Concrete(Subst(decls[t.id], SubstAll(t.args, args)))
            <==> forall i <- Seen(decls[t.id]) :: i < |t.args| && Closed(t.args[i])
  {
    hide InScope, UnionsClosed, InRange, Resolve, Subst, Seen;
    var decl, ts := decls[t.id], t.args;
    var own := Subst(decl, ts);
    assert GetConcrete(decls, depth, t, args) == Concrete(own) by {
      assert GetConcrete(decls, depth, t, args) == GetConcrete(decls, depth - 1, decl, ts);
      if ts == [] { SubstClosed(decl, ts); } else { ResolveSubstitutes(decl, ts); }
    }
    SubstIsClosedIff(decl, ts);
    SubstComposes(decl, ts, args);
    SubstInScope(own, args, 0);
    if Closed(own) { SubstClosed(own, args); }
  }
}
