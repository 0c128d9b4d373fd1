/** Promises and their callbacks (pkg/promise/prom.go).

    One task computes the promise and settles it; any number of callers register callbacks, on either side,
    before, during and after that.  A schedule lists which of them moves next, one statement at a time. */
module Promise {
  import opened Common

  datatype Side = Resolve | Reject

  type Id = nat

  datatype Holder = Settling | Adding(id: Id)

  datatype EventList = EventList(mu: Option<Holder>, done: bool, val: Option<int>, funcs: seq<Id>)

  /** The statement the settling task executes next. */
  datatype Settler =
    | Computing                                             // the promise's function runs
    | Locking(side: Side, v: int)                           // g.mu.Lock(), on the list of the settled side
    | MarkingDone(side: Side, v: int)                       // g.done = true
    | StoringValue(side: Side, v: int)                      // g.val = val
    | Unlocking(side: Side, v: int)                         // g.mu.Unlock()
    | Ranging(side: Side, v: int)                           // range g.funcs evaluates the slice
    | Calling(side: Side, v: int, fs: seq<Id>, next: nat)   // fn(val) for each of them
    | Settled(side: Side, v: int)

  /** The statement a registering caller executes next. */
  datatype Adder =
    | Absent          // not called yet
    | Entering        // g.mu.Lock()
    | Testing         // if g.done
    | Appending       // g.funcs = append(g.funcs, fn)
    | Leaving         // g.mu.Unlock(), with the callback on the list
    | Escaping        // g.mu.Unlock(), to call at once
    | Invoking        // fn(g.val)
    | Listed          // returned, callback on the list
    | Invoked         // returned, callback has run

  datatype State = State(
    resolve: EventList, reject: EventList,
    settler: Settler,
    side: map<Id, Side>,          // the side each caller registers on
    pc: map<Id, Adder>,
    calls: map<Id, seq<int>>)     // the values each callback has been invoked with, in order

  const EMPTY := EventList(None, false, None, [])
  const INITIAL := State(EMPTY, EMPTY, Computing, map[], map[], map[])

  function At(s: State, c: Id): Adder {
    if c in s.pc && c in s.side then s.pc[c] else Absent
  }

  function Calls(s: State, c: Id): seq<int> {
    if c in s.calls then s.calls[c] else []
  }

  function ListOf(s: State, d: Side): EventList {
    if d.Resolve? then s.resolve else s.reject
  }

  function WithList(s: State, d: Side, l: EventList): (t: State)
    ensures forall e :: ListOf(t, e) == if e == d then l else ListOf(s, e)
    ensures t.settler == s.settler && t.side == s.side && t.pc == s.pc && t.calls == s.calls
  {
    if d.Resolve? then s.(resolve := l) else s.(reject := l)
  }

  function Invoke(s: State, c: Id, v: int): State {
    s.(calls := s.calls[c := Calls(s, c) + [v]])
  }

  // ----- Steps -----

  datatype Move =
    | Settle(side: Side, v: int)   // the function returns; the outcome is its choice
    | Advance                      // the settling task goes on
    | Register(id: Id, side: Side) // a caller calls OnResolve or OnReject
    | Go(id: Id)                   // a caller goes on

  predicate Enabled(s: State, m: Move) {
    match m
    case Settle(_, _) => s.settler.Computing?
    case Advance =>
      (match s.settler
       case Computing => false
       case Locking(d, _) => ListOf(s, d).mu == None
       case Settled(_, _) => false
       case _ => true)
    case Register(c, _) => At(s, c).Absent?
    case Go(c) =>
      (match At(s, c)
       case Absent => false
       case Entering => ListOf(s, s.side[c]).mu == None
       case Listed => false
       case Invoked => false
       case _ => true)
  }

  function Advanced(s: State): State
    requires Enabled(s, Advance)
  {
    match s.settler
    case Locking(d, v) => WithList(s, d, ListOf(s, d).(mu := Some(Settling))).(settler := MarkingDone(d, v))
    case MarkingDone(d, v) => WithList(s, d, ListOf(s, d).(done := true)).(settler := StoringValue(d, v))
    case StoringValue(d, v) => WithList(s, d, ListOf(s, d).(val := Some(v))).(settler := Unlocking(d, v))
    case Unlocking(d, v) => WithList(s, d, ListOf(s, d).(mu := None)).(settler := Ranging(d, v))
    case Ranging(d, v) => s.(settler := Calling(d, v, ListOf(s, d).funcs, 0))
    case Calling(d, v, fs, i) =>
      if i < |fs| then Invoke(s, fs[i], v).(settler := Calling(d, v, fs, i + 1)) else s.(settler := Settled(d, v))
  }

  function Goto(s: State, c: Id, pc: Adder): State {
    s.(pc := s.pc[c := pc])
  }

  function Gone(s: State, c: Id): State
    requires Enabled(s, Go(c))
  {
    var d := s.side[c];
    var l := ListOf(s, d);
    match At(s, c)
    case Entering => Goto(WithList(s, d, l.(mu := Some(Adding(c)))), c, Testing)
    case Testing => Goto(s, c, if l.done then Escaping else Appending)
    case Appending => Goto(WithList(s, d, l.(funcs := l.funcs + [c])), c, Leaving)
    case Leaving => Goto(WithList(s, d, l.(mu := None)), c, Listed)
    case Escaping => Goto(WithList(s, d, l.(mu := None)), c, Invoking)
    case Invoking => Goto(Invoke(s, c, if l.val.Some? then l.val.value else 0), c, Invoked)
  }

  function Step(s: State, m: Move): State
    requires Enabled(s, m)
  {
    match m
    case Settle(d, v) => s.(settler := Locking(d, v))
    case Advance => Advanced(s)
    case Register(c, d) => Goto(s.(side := s.side[c := d]), c, Entering)
    case Go(c) => Gone(s, c)
  }

  ghost predicate Run(s: State, moves: seq<Move>, t: State)
    decreases |moves|
  {
    if moves == [] then s == t
    else Enabled(s, moves[0]) && Run(Step(s, moves[0]), moves[1..], t)
  }

  ghost predicate Reachable(t: State) {
    exists moves: seq<Move> :: Run(INITIAL, moves, t)
  }

  // ----- Invariant -----

  predicate SettlerHolds(p: Settler, d: Side) {
    (p.MarkingDone? || p.StoringValue? || p.Unlocking?) && p.side == d
  }

  predicate AdderHolds(p: Adder) {
    p.Testing? || p.Appending? || p.Leaving? || p.Escaping?
  }

  /** The list of side d is marked and its mutex released for good by the settling task. */
  predicate Published(p: Settler, d: Side) {
    (p.Ranging? || p.Calling? || p.Settled?) && p.side == d
  }

  predicate OnList(p: Adder) {
    p.Leaving? || p.Listed?
  }

  predicate Distinct(fs: seq<Id>) {
    forall i, j :: 0 <= i < j < |fs| ==> fs[i] != fs[j]
  }

  /** What callback c must have been invoked with by now. */
  function Due(s: State, c: Id): seq<int> {
    var p := s.settler;
    if p.Computing? then []
    else if At(s, c).Invoked? then [p.v]
    else if !At(s, c).Listed? || s.side[c] != p.side then []
    else if p.Settled? || (p.Calling? && p.next <= |p.fs| && c in p.fs[..p.next]) then [p.v]
    else []
  }

  predicate MarkedDone(p: Settler, d: Side) {
    Published(p, d) || ((p.StoringValue? || p.Unlocking?) && p.side == d)
  }

  /** One event list: who holds its mutex, when it is marked, and whose callbacks are on it. */
  predicate SideInv(s: State, d: Side) {
    var l, p := ListOf(s, d), s.settler;
    && (l.mu == Some(Settling) <==> SettlerHolds(p, d))
    && (l.mu.Some? && l.mu.value.Adding? ==> AdderHolds(At(s, l.mu.value.id)) && s.side[l.mu.value.id] == d)
    && l.done == MarkedDone(p, d)
    && (Published(p, d) || (p.Unlocking? && p.side == d) ==> l.val == Some(p.v))
    && Distinct(l.funcs)
    && (forall c <- l.funcs :: OnList(At(s, c)) && s.side[c] == d)
    && (p.Calling? && p.side == d ==> p.fs == l.funcs && p.next <= |p.fs|)
  }

  /** One caller: what it may rely on where it is, and how often its callback has run. */
  predicate IdInv(s: State, c: Id) {
    && Calls(s, c) == Due(s, c)
    && (At(s, c).Absent? ||
        (var d := s.side[c]; var l := ListOf(s, d); var p := At(s, c);
         && (AdderHolds(p) ==> l.mu == Some(Adding(c)))
         && (OnList(p) ==> c in l.funcs)
         && (p.Appending? || p.Leaving? ==> !l.done)
         && (p.Escaping? || p.Invoking? || p.Invoked? ==> Published(s.settler, d))))
  }

  ghost predicate Inv(s: State) {
    SideInv(s, Resolve) && SideInv(s, Reject) && forall c: Id :: IdInv(s, c)
  }

  // ----- Every step keeps it -----

  lemma SideOf(s: State, d: Side)
    requires Inv(s)
    ensures SideInv(s, d)
  {
  }

  lemma SettleSide(s: State, r: Side, v: int, d: Side)
    requires Inv(s) && s.settler.Computing?
    ensures SideInv(s.(settler := Locking(r, v)), d)
  {
    hide Due, Calls;
    SideOf(s, d);
    var t := s.(settler := Locking(r, v));
    forall c: Id ensures At(t, c) == At(s, c) {}
  }

  /** A list the settling task is not at stays as it is. */
  lemma AdvanceOtherSide(s: State, d: Side)
    requires Inv(s) && Enabled(s, Advance) && d != s.settler.side
    ensures SideInv(Advanced(s), d)
  {
    hide Due, Calls, IdInv;
    SideOf(s, d);
    var t := Advanced(s);
    assert t.side == s.side && t.pc == s.pc && ListOf(t, d) == ListOf(s, d);
    forall c: Id ensures At(t, c) == At(s, c) {}
  }

  lemma AdvanceOwnSide(s: State)
    requires Inv(s) && Enabled(s, Advance)
    ensures SideInv(Advanced(s), s.settler.side)
  {
    hide Due, Calls, IdInv;
    SideOf(s, s.settler.side);
    var t := Advanced(s);
    assert t.side == s.side && t.pc == s.pc && ListOf(t, s.settler.side).funcs == ListOf(s, s.settler.side).funcs;
    forall c: Id ensures At(t, c) == At(s, c) {}
  }

  lemma RegisterSide(s: State, c: Id, r: Side, d: Side)
    requires Inv(s) && At(s, c).Absent?
    ensures SideInv(Step(s, Register(c, r)), d)
  {
    hide Due, Calls;
    SideOf(s, d);
    var t := Step(s, Register(c, r));
    forall e: Id | e != c ensures At(t, e) == At(s, e) {}
  }

  /** One step of a caller changes its own position, and of its list only the mutex and the callbacks. */
  lemma GoFrame(s: State, g: Id)
    requires Enabled(s, Go(g))
    ensures var t := Gone(s, g); var d := s.side[g];
            && t.side == s.side && t.settler == s.settler && g in s.side
            && (forall e :: e != d ==> ListOf(t, e) == ListOf(s, e))
            && (forall c: Id :: c != g ==> At(t, c) == At(s, c) && Calls(t, c) == Calls(s, c))
            && ListOf(t, d).done == ListOf(s, d).done && ListOf(t, d).val == ListOf(s, d).val
            && ListOf(t, d).funcs == (if At(s, g).Appending? then ListOf(s, d).funcs + [g] else ListOf(s, d).funcs)
            && ListOf(t, d).mu == (if At(s, g).Entering? then Some(Adding(g))
                                   else if At(s, g).Leaving? || At(s, g).Escaping? then None else ListOf(s, d).mu)
            && At(t, g) == AfterGo(At(s, g), ListOf(s, d).done)
            && Calls(t, g)
                 == Calls(s, g)
                    + if At(s, g).Invoking? then [if ListOf(s, d).val.Some? then ListOf(s, d).val.value else 0] else []
  {
  }

  function AfterGo(p: Adder, done: bool): Adder {
    match p
    case Entering => Testing
    case Testing => if done then Escaping else Appending
    case Appending => Leaving
    case Leaving => Listed
    case Escaping => Invoking
    case Invoking => Invoked
    case _ => p
  }

  lemma GoOtherSide(s: State, g: Id, d: Side)
    requires Inv(s) && Enabled(s, Go(g)) && s.side[g] != d
    ensures SideInv(Gone(s, g), d)
  {
    hide Due, Calls, Gone, ListOf, At;
    SideOf(s, d);
    GoFrame(s, g);
  }

  lemma GoOwnSide(s: State, g: Id)
    requires Inv(s) && Enabled(s, Go(g))
    ensures SideInv(Gone(s, g), s.side[g])
  {
    hide Due, Calls, Gone, ListOf, At;
    GoFrame(s, g);
    SideOf(s, s.side[g]);
    assert IdInv(s, g);
  }

  lemma StepSide(s: State, m: Move, d: Side)
    requires Inv(s) && Enabled(s, m)
    ensures SideInv(Step(s, m), d)
  {
    hide SideInv, IdInv, Advanced, Gone;
    match m
    case Settle(r, v) => SettleSide(s, r, v, d);
    case Advance => if d == s.settler.side { AdvanceOwnSide(s); } else { AdvanceOtherSide(s, d); }
    case Register(c, r) => RegisterSide(s, c, r, d);
    case Go(c) => if d == s.side[c] { GoOwnSide(s, c); } else { GoOtherSide(s, c, d); }
  }

  /** What is due depends on the caller's own position and on the settling task. */
  lemma DueSame(s: State, t: State, c: Id)
    requires t.settler == s.settler && At(t, c) == At(s, c)
    requires !At(s, c).Absent? ==> t.side[c] == s.side[c]
    ensures Due(t, c) == Due(s, c)
  {
  }

  lemma AdvanceId(s: State, c: Id)
    requires Inv(s) && Enabled(s, Advance) && !s.settler.Calling?
    ensures IdInv(Advanced(s), c)
  {
    assert IdInv(s, c);
    SideOf(s, s.settler.side);
    assert At(Advanced(s), c) == At(s, c) && Calls(Advanced(s), c) == Calls(s, c);
  }

  lemma CallId(s: State, c: Id)
    requires Inv(s) && Enabled(s, Advance) && s.settler.Calling?
    ensures IdInv(Advanced(s), c)
  {
    var p, t := s.settler, Advanced(s);
    assert IdInv(s, c);
    SideOf(s, p.side);
    assert At(t, c) == At(s, c);
    if p.next < |p.fs| {
      var f := p.fs[p.next];
      assert f !in p.fs[..p.next] && p.fs[..p.next + 1] == p.fs[..p.next] + [f];
      assert f in p.fs && IdInv(s, f);
    } else {
      assert p.fs[..p.next] == p.fs;
    }
  }

  lemma GoOtherId(s: State, g: Id, c: Id)
    requires Inv(s) && Enabled(s, Go(g)) && c != g
    ensures IdInv(Gone(s, g), c)
  {
    hide Due, Calls, Gone, ListOf, At;
    assert IdInv(s, c) && IdInv(s, g);
    GoFrame(s, g);
    DueSame(s, Gone(s, g), c);
  }

  lemma GoOwnId(s: State, g: Id)
    requires Inv(s) && Enabled(s, Go(g))
    ensures IdInv(Gone(s, g), g)
  {
    hide Calls, Gone, ListOf, At;
    assert IdInv(s, g);
    GoFrame(s, g);
    SideOf(s, s.side[g]);
  }

  lemma StepId(s: State, m: Move, c: Id)
    requires Inv(s) && Enabled(s, m)
    ensures IdInv(Step(s, m), c)
  {
    hide SideInv, Advanced, Gone;
    assert IdInv(s, c);
    match m
    case Settle(r, v) =>
    case Advance => if s.settler.Calling? { CallId(s, c); } else { AdvanceId(s, c); }
    case Register(_, _) =>
    case Go(g) => if c == g { GoOwnId(s, g); } else { GoOtherId(s, g, c); }
  }

  lemma StepInv(s: State, m: Move)
    requires Inv(s) && Enabled(s, m)
    ensures Inv(Step(s, m))
  {
    hide SideInv, IdInv, Step;
    StepSide(s, m, Resolve);
    StepSide(s, m, Reject);
    forall c: Id ensures IdInv(Step(s, m), c) { StepId(s, m, c); }
  }

  lemma {:induction false} RunInv(s: State, moves: seq<Move>, t: State)
    requires Inv(s) && Run(s, moves, t)
    ensures Inv(t)
    decreases |moves|
  {
    hide Inv, Step, Enabled;
    if moves != [] {
      StepInv(s, moves[0]);
      RunInv(Step(s, moves[0]), moves[1..], t);
    }
  }

  lemma ReachableInv(t: State)
    requires Reachable(t)
    ensures Inv(t)
  {
    var moves: seq<Move> :| Run(INITIAL, moves, t);
    RunInv(INITIAL, moves, t);
  }

  // ----- Results -----

  /** A callback is never invoked twice, whatever the interleaving. */
  lemma AtMostOnce(t: State, c: Id)
    requires Reachable(t)
    ensures |Calls(t, c)| <= 1
  {
    ReachableInv(t);
    assert IdInv(t, c);
  }

  /** It is only ever invoked on the settled side, with the settled value; before that, not at all. */
  lemma OnlyTheSettledSide(t: State, c: Id)
    requires Reachable(t) && Calls(t, c) != []
    ensures !t.settler.Computing? && !At(t, c).Absent? && t.side[c] == t.settler.side && Calls(t, c) == [t.settler.v]
  {
    ReachableInv(t);
    assert IdInv(t, c);
  }

  /** Once the settling task has ended, each callback whose registration has returned has been invoked
      exactly once if it is on the settled side, and never if it is on the other. */
  lemma ExactlyOnce(t: State, c: Id)
    requires Reachable(t) && t.settler.Settled? && (At(t, c).Listed? || At(t, c).Invoked?)
    ensures Calls(t, c) == if t.side[c] == t.settler.side then [t.settler.v] else []
  {
    ReachableInv(t);
    assert IdInv(t, c);
  }

  /** The two reads made without the mutex are safe: while the settling task reads the slice no caller
      appends to it, and when a caller reads the value it has been stored for good. */
  lemma UnlockedReadsAreSafe(t: State, c: Id)
    requires Reachable(t)
    ensures At(t, c).Appending? && (t.settler.Ranging? || t.settler.Calling?) ==> t.side[c] != t.settler.side
    ensures At(t, c).Invoking? ==> Published(t.settler, t.side[c]) && ListOf(t, t.side[c]).val == Some(t.settler.v)
  {
    ReachableInv(t);
    assert IdInv(t, c);
    if !At(t, c).Absent? { SideOf(t, t.side[c]); }
  }

  predicate Returned(p: Adder) {
    p.Absent? || p.Listed? || p.Invoked?
  }

  /** Nobody waits in vain: while the settling task or some caller still has something to do,
      one of them can do it without a new registration. */
  lemma NeverStuck(t: State, c: Id)
    requires Reachable(t)
    requires !(t.settler.Computing? || t.settler.Settled?) || !Returned(At(t, c))
    ensures Enabled(t, Advance) || exists g: Id :: Enabled(t, Go(g))
  {
    ReachableInv(t);
    var d := if !Returned(At(t, c)) then t.side[c] else t.settler.side;
    SideOf(t, d);
    var mu := ListOf(t, d).mu;
    if mu == None && !Returned(At(t, c)) {
      assert Enabled(t, Go(c));
    } else if mu.Some? && mu.value.Adding? {
      assert Enabled(t, Go(mu.value.id));
    }
  }

  // ----- Over the moves of a run -----

  /** What was chosen and who registered where is as the moves say. */
  predicate AsMoved(moves: seq<Move>, s: State) {
    && (s.settler.Computing? <==> forall m <- moves :: !m.Settle?)
    && (!s.settler.Computing? ==> Settle(s.settler.side, s.settler.v) in moves)
  }

  predicate AsRegistered(moves: seq<Move>, s: State, c: Id) {
    && (At(s, c).Absent? <==> forall m <- moves :: m.Register? ==> m.id != c)
    && (!At(s, c).Absent? ==> Register(c, s.side[c]) in moves)
  }

  lemma {:induction false} StepAsMoved(moves: seq<Move>, s: State, m: Move)
    requires Enabled(s, m) && AsMoved(moves, s)
    ensures AsMoved(moves + [m], Step(s, m))
  {
    assert forall x :: x in moves + [m] <==> x in moves || x == m;
  }

  lemma {:induction false} StepAsRegistered(moves: seq<Move>, s: State, m: Move, c: Id)
    requires Enabled(s, m) && AsRegistered(moves, s, c)
    ensures AsRegistered(moves + [m], Step(s, m), c)
  {
    assert forall x :: x in moves + [m] <==> x in moves || x == m;
  }

  lemma {:induction false} RunAsMoved(before: seq<Move>, s: State, moves: seq<Move>, t: State, c: Id)
    requires Run(s, moves, t) && AsMoved(before, s) && AsRegistered(before, s, c)
    ensures AsMoved(before + moves, t) && AsRegistered(before + moves, t, c)
    decreases |moves|
  {
    hide AsMoved, AsRegistered, Step, Enabled;
    if moves == [] {
      assert before + moves == before;
    } else {
      StepAsMoved(before, s, moves[0]);
      StepAsRegistered(before, s, moves[0], c);
      assert before + moves == before + [moves[0]] + moves[1..];
      RunAsMoved(before + [moves[0]], Step(s, moves[0]), moves[1..], t, c);
    }
  }

  /** A promise settled with v on a side, once the settling task has ended: a callback registered on that side,
      before or after, has run once and got v, and one registered on the other side has not run. */
  lemma {:induction false} CallbacksGetTheOutcome(moves: seq<Move>, t: State, c: Id)
    requires Run(INITIAL, moves, t) && t.settler.Settled? && (At(t, c).Listed? || At(t, c).Invoked?)
    ensures exists d: Side, v: int, e: Side ::
              Settle(d, v) in moves && Register(c, e) in moves && Calls(t, c) == if d == e then [v] else []
  {
    hide Run;
    RunAsMoved([], INITIAL, moves, t, c);
    assert [] + moves == moves;
    ExactlyOnce(t, c);
  }

  lemma {:induction false} OneOutcome(s: State, moves: seq<Move>, t: State, d: Side, v: int)
    requires Run(s, moves, t) && !s.settler.Computing? && s.settler.side == d && s.settler.v == v
    ensures !t.settler.Computing? && t.settler.side == d && t.settler.v == v && forall m <- moves :: !m.Settle?
    decreases |moves|
  {
    if moves != [] {
      OneOutcome(Step(s, moves[0]), moves[1..], t, d, v);
      assert moves == [moves[0]] + moves[1..];
    }
  }
}
