/** The code-regeneration debouncer of cli/daemon/watch.go.

    Any number of debounced callbacks run concurrently.  A schedule is a list of callback ids; each entry
    lets that callback execute its next statement.  Locking the mutex is possible only while it is free. */
module Debouncer {
  import opened Common

  /** The statement a callback executes next. */
  datatype Pc =
    | Locking          // g.mu.Lock()
    | Testing          // if g.running
    | Requesting       // g.runAfter = true, while another callback runs
    | Leaving          // g.mu.Unlock(); return
    | Claiming         // g.running = true
    | Arming           // g.runAfter = true, to start off
    | Looping          // for g.runAfter
    | Resetting        // g.runAfter = false
    | Releasing        // g.mu.Unlock() before the run
    | Starting         // g.doRun() is called
    | Running          // g.doRun() returns
    | Relocking        // g.mu.Lock() after the run
    | Stopping         // g.running = false
    | Unlocking        // g.mu.Unlock() at the end
    | Finished

  datatype Event = Took(id: nat) | RunStart(id: nat) | RunEnd(id: nat)

  datatype State = State(
    running: bool, runAfter: bool,
    mu: Option<nat>,           // the callback that holds the mutex
    pc: map<nat, Pc>,
    log: seq<Event>)

  const INITIAL := State(false, false, None, map[], [])

  // ----- Steps -----

  function At(s: State, c: nat): Pc {
    if c in s.pc then s.pc[c] else Locking
  }

  predicate Enabled(s: State, c: nat) {
    match At(s, c)
    case Locking => s.mu == None
    case Relocking => s.mu == None
    case Finished => false
    case _ => true
  }

  function Goto(s: State, c: nat, pc: Pc): State {
    s.(pc := s.pc[c := pc])
  }

  function Step(s: State, c: nat): State
    requires Enabled(s, c)
  {
    match At(s, c)
    case Locking => Goto(s.(mu := Some(c), log := s.log + [Took(c)]), c, Testing)
    case Testing => Goto(s, c, if s.running then Requesting else Claiming)
    case Requesting => Goto(s.(runAfter := true), c, Leaving)
    case Leaving => Goto(s.(mu := None), c, Finished)
    case Claiming => Goto(s.(running := true), c, Arming)
    case Arming => Goto(s.(runAfter := true), c, Looping)
    case Looping => Goto(s, c, if s.runAfter then Resetting else Stopping)
    case Resetting => Goto(s.(runAfter := false), c, Releasing)
    case Releasing => Goto(s.(mu := None), c, Starting)
    case Starting => Goto(s.(log := s.log + [RunStart(c)]), c, Running)
    case Running => Goto(s.(log := s.log + [RunEnd(c)]), c, Relocking)
    case Relocking => Goto(s.(mu := Some(c)), c, Looping)
    case Stopping => Goto(s.(running := false), c, Unlocking)
    case Unlocking => Goto(s.(mu := None), c, Finished)
  }

  ghost predicate Run(s: State, schedule: seq<nat>, t: State)
    decreases |schedule|
  {
    if schedule == [] then s == t
    else Enabled(s, schedule[0]) && Run(Step(s, schedule[0]), schedule[1..], t)
  }

  ghost predicate Reachable(t: State) {
    exists schedule: seq<nat> :: Run(INITIAL, schedule, t)
  }

  // ----- Invariant -----

  /** These statements are executed with the mutex held. */
  predicate Holds(pc: Pc) {
    pc.Testing? || pc.Requesting? || pc.Leaving? || pc.Claiming? || pc.Arming? || pc.Looping? || pc.Resetting?
    || pc.Releasing? || pc.Stopping? || pc.Unlocking?
  }

  /** These statements belong to the callback that has set g.running. */
  predicate Owns(pc: Pc) {
    || pc.Arming? || pc.Looping? || pc.Resetting? || pc.Releasing?
    || pc.Starting? || pc.Running? || pc.Relocking? || pc.Stopping?
  }

  ghost predicate MutexExcludes(s: State) {
    forall c: nat :: Holds(At(s, c)) <==> s.mu == Some(c)
  }

  ghost predicate OneOwner(s: State) {
    && (forall c: nat, d: nat :: Owns(At(s, c)) && Owns(At(s, d)) ==> c == d)
    && (forall c: nat :: Owns(At(s, c)) ==> s.running)
  }

  ghost predicate OwnerExists(s: State) {
    s.running ==> exists c: nat :: Owns(At(s, c))
  }

  ghost predicate FlagsFit(s: State) {
    && (!s.running ==> !s.runAfter)
    && forall c: nat ::
         && (At(s, c).Requesting? ==> s.running)
         && (At(s, c).Claiming? ==> !s.running)
         && (At(s, c).Resetting? ==> s.runAfter)
         && (At(s, c).Stopping? ==> !s.runAfter)
  }

  /** A callback has taken the mutex and no run has started since. */
  predicate Pending(log: seq<Event>) {
    log != [] &&
    match log[|log| - 1]
    case Took(_) => true
    case RunStart(_) => false
    case RunEnd(_) => Pending(log[..|log| - 1])
  }

  /** The callback has taken the mutex and will still set g.runAfter. */
  predicate WillRequest(pc: Pc) {
    pc.Testing? || pc.Requesting? || pc.Claiming? || pc.Arming?
  }

  /** The callback has cleared g.runAfter for a run that has yet to start. */
  predicate WillStart(pc: Pc) {
    pc.Releasing? || pc.Starting?
  }

  ghost predicate Requested(s: State) {
    s.runAfter || exists c: nat :: WillRequest(At(s, c)) || WillStart(At(s, c))
  }

  ghost predicate Inv(s: State) {
    && MutexExcludes(s) && OneOwner(s) && OwnerExists(s) && FlagsFit(s)
    && (Pending(s.log) ==> Requested(s))
  }

  lemma {:induction false} PendingSnoc(log: seq<Event>, e: Event)
    ensures Pending(log + [e])
            == match e { case Took(_) => true case RunStart(_) => false case RunEnd(_) => Pending(log) }
  {
    assert (log + [e])[..|log + [e]| - 1] == log;
  }

  lemma AtAfter(s: State, c: nat)
    requires Enabled(s, c)
    ensures forall d: nat :: d != c ==> At(Step(s, c), d) == At(s, d)
    ensures c in Step(s, c).pc
  {
  }

  lemma StepKeepsExclusion(s: State, c: nat)
    requires Inv(s) && Enabled(s, c)
    ensures MutexExcludes(Step(s, c)) && OneOwner(Step(s, c)) && FlagsFit(Step(s, c))
  {
    hide Pending, OwnerExists, Requested;
    AtAfter(s, c);
  }

  lemma StepKeepsOwner(s: State, c: nat)
    requires Inv(s) && Enabled(s, c)
    ensures OwnerExists(Step(s, c))
  {
    var t := Step(s, c);
    AtAfter(s, c);
    if t.running {
      if s.running {
        var o: nat :| Owns(At(s, o));
        assert Owns(At(t, o));
      } else {
        assert Owns(At(t, c));
      }
    }
  }

  lemma StepKeepsRequest(s: State, c: nat)
    requires Inv(s) && Enabled(s, c)
    ensures Pending(Step(s, c).log) ==> Requested(Step(s, c))
  {
    var t := Step(s, c);
    AtAfter(s, c);
    if t.log != s.log { PendingSnoc(s.log, t.log[|s.log|]); }
    if Pending(t.log) && !t.runAfter {
      if At(s, c).Locking? || At(s, c).Resetting? {
        assert WillRequest(At(t, c)) || WillStart(At(t, c));
      } else if !s.runAfter {
        var d: nat :| WillRequest(At(s, d)) || WillStart(At(s, d));
        assert WillRequest(At(t, d)) || WillStart(At(t, d));
      }
    }
  }

  lemma {:induction false} RunInv(s: State, schedule: seq<nat>, t: State)
    requires Inv(s) && Run(s, schedule, t)
    ensures Inv(t)
    decreases |schedule|
  {
    hide Inv, Step, Enabled;
    if schedule != [] {
      StepInv(s, schedule[0]);
      RunInv(Step(s, schedule[0]), schedule[1..], t);
    }
  }

  lemma StepInv(s: State, c: nat)
    requires Inv(s) && Enabled(s, c)
    ensures Inv(Step(s, c))
  {
    StepKeepsExclusion(s, c);
    StepKeepsOwner(s, c);
    StepKeepsRequest(s, c);
  }

  lemma ReachableInv(t: State)
    requires Reachable(t)
    ensures Inv(t)
  {
    var schedule: seq<nat> :| Run(INITIAL, schedule, t);
    RunInv(INITIAL, schedule, t);
  }

  // ----- Results -----

  /** At most one callback regenerates code at any time. */
  lemma OneRunAtATime(t: State, c: nat, d: nat)
    requires Reachable(t) && At(t, c).Running? && At(t, d).Running?
    ensures c == d
  {
    ReachableInv(t);
    assert Owns(At(t, c)) && Owns(At(t, d));
  }

  predicate FollowedByRun(log: seq<Event>, i: nat) {
    exists j :: i < j < |log| && log[j].RunStart?
  }

  lemma {:induction false} NotPendingMeansFollowed(log: seq<Event>, i: nat)
    requires !Pending(log) && i < |log| && log[i].Took?
    ensures FollowedByRun(log, i)
    decreases |log|
  {
    var last := |log| - 1;
    if log[last].RunStart? {
      assert i < last;
    } else {
      NotPendingMeansFollowed(log[..last], i);
      var j :| i < j < last && log[..last][j].RunStart?;
      assert log[j].RunStart?;
    }
  }

  /** While nothing runs, the only callback that may still wait for a run is the one that holds the mutex:
      it took it last, and nothing was pending before. */
  predicate IdleFits(s: State) {
    s.running || !Pending(s.log) ||
    (s.mu.Some? && s.log[|s.log| - 1] == Took(s.mu.value) && !Pending(s.log[..|s.log| - 1]))
  }

  /** With nothing running and the mutex free, or its holder past its request, nothing is pending. */
  lemma {:induction false} IdleIsSettled(s: State)
    requires Inv(s) && !s.running && (s.mu.None? || !WillRequest(At(s, s.mu.value)))
    ensures !Pending(s.log)
  {
    forall c: nat ensures !WillRequest(At(s, c)) && !WillStart(At(s, c)) {
      assert Holds(At(s, c)) <==> s.mu == Some(c);
      assert !Owns(At(s, c));
    }
  }

  lemma {:induction false} StepIdle(s: State, c: nat)
    requires Inv(s) && IdleFits(s) && Enabled(s, c)
    ensures IdleFits(Step(s, c))
  {
    hide Inv, Requested;
    var t := Step(s, c);
    StepInv(s, c);
    if !t.running {
      if At(s, c).Locking? && !s.running {
        IdleIsSettled(s);
        PendingSnoc(s.log, Took(c));
        assert t.log[..|t.log| - 1] == s.log;
      } else if t.mu.None? || !WillRequest(At(t, t.mu.value)) {
        IdleIsSettled(t);
      } else {
        NoRunStarts(s, c);
      }
    }
  }

  /** Without a run in progress a step of the mutex holder leaves the log and the holder alone. */
  lemma NoRunStarts(s: State, c: nat)
    requires Inv(s) && Enabled(s, c) && !Step(s, c).running && (At(s, c).Locking? ==> s.running)
    requires Step(s, c).mu.Some? && WillRequest(At(Step(s, c), Step(s, c).mu.value))
    ensures !s.running && Step(s, c).log == s.log && Step(s, c).mu == s.mu
  {
    assert Holds(At(s, c)) <==> s.mu == Some(c);
    assert Owns(At(s, c)) ==> s.running;
  }

  lemma {:induction false} RunIdle(s: State, schedule: seq<nat>, t: State)
    requires Inv(s) && IdleFits(s) && Run(s, schedule, t)
    ensures IdleFits(t)
    decreases |schedule|
  {
    hide Inv, Step, Enabled, IdleFits;
    if schedule != [] {
      StepInv(s, schedule[0]);
      StepIdle(s, schedule[0]);
      RunIdle(Step(s, schedule[0]), schedule[1..], t);
    }
  }

  /** No change event is lost: whenever no run is in progress, every callback that ever took the mutex, other
      than the one that holds it now, has been followed by a run that started after it. */
  lemma {:induction false} NoEventIsLost(t: State, i: nat)
    requires Reachable(t) && !t.running
    requires i < |t.log| && t.log[i].Took? && t.mu != Some(t.log[i].id)
    ensures FollowedByRun(t.log, i)
  {
    var schedule: seq<nat> :| Run(INITIAL, schedule, t);
    RunIdle(INITIAL, schedule, t);
    if Pending(t.log) {
      var before := t.log[..|t.log| - 1];
      NotPendingMeansFollowed(before, i);
      var j :| i < j < |before| && before[j].RunStart?;
      assert t.log[j].RunStart?;
    } else {
      NotPendingMeansFollowed(t.log, i);
    }
  }

  /** While something is pending, the work is not forgotten either: the flag is set, or some callback is
      about to set it or to start a run. */
  lemma PendingIsRequested(t: State)
    requires Reachable(t) && Pending(t.log)
    ensures t.runAfter || exists c: nat :: WillRequest(At(t, c)) || WillStart(At(t, c))
  {
    ReachableInv(t);
  }

  function Tooks(log: seq<Event>): nat {
    if log == [] then 0 else Tooks(log[..|log| - 1]) + if log[|log| - 1].Took? then 1 else 0
  }

  function Starts(log: seq<Event>): nat {
    if log == [] then 0 else Starts(log[..|log| - 1]) + if log[|log| - 1].RunStart? then 1 else 0
  }

  lemma {:induction false} CountSnoc(log: seq<Event>, e: Event)
    ensures Tooks(log + [e]) == Tooks(log) + if e.Took? then 1 else 0
    ensures Starts(log + [e]) == Starts(log) + if e.RunStart? then 1 else 0
  {
    assert (log + [e])[..|log + [e]| - 1] == log;
  }

  predicate HolderRequests(s: State) {
    s.mu.Some? && WillRequest(At(s, s.mu.value))
  }

  ghost predicate OwnerStarts(s: State) {
    exists c: nat :: WillStart(At(s, c))
  }

  /** Runs already started, and those owed to the flag, to the owner and to the mutex holder. */
  ghost function Owed(s: State): nat {
    Starts(s.log) + (if s.runAfter then 1 else 0)
    + (if OwnerStarts(s) then 1 else 0) + (if HolderRequests(s) then 1 else 0)
  }

  lemma OwnerStartsAfter(s: State, c: nat)
    requires Enabled(s, c) && Inv(s)
    ensures OwnerStarts(Step(s, c))
            == if At(s, c).Resetting? then true else if At(s, c).Starting? then false else OwnerStarts(s)
    ensures At(s, c).Resetting? ==> !OwnerStarts(s)
    ensures At(s, c).Starting? ==> OwnerStarts(s)
  {
    var t := Step(s, c);
    AtAfter(s, c);
    if At(s, c).Resetting? || At(s, c).Starting? {
      assert Owns(At(s, c));
      forall d: nat | d != c ensures !WillStart(At(s, d)) { assert !Owns(At(s, d)); }
      assert At(s, c).Resetting? ==> WillStart(At(t, c));
      assert At(s, c).Starting? ==> WillStart(At(s, c));
    } else {
      forall d: nat ensures WillStart(At(t, d)) == WillStart(At(s, d)) {}
    }
  }

  lemma HolderRequestsAfter(s: State, c: nat)
    requires Enabled(s, c) && Inv(s)
    ensures HolderRequests(Step(s, c))
         == if At(s, c).Locking? then true
            else if At(s, c).Requesting? || At(s, c).Arming? then false else HolderRequests(s)
    ensures At(s, c).Locking? ==> !HolderRequests(s)
    ensures At(s, c).Requesting? || At(s, c).Arming? ==> HolderRequests(s)
  {
    AtAfter(s, c);
    assert Holds(At(s, c)) <==> s.mu == Some(c);
  }

  lemma StepOwes(s: State, c: nat)
    requires Enabled(s, c) && Inv(s)
    ensures Owed(Step(s, c)) - Tooks(Step(s, c).log) <= Owed(s) - Tooks(s.log)
  {
    var t := Step(s, c);
    OwnerStartsAfter(s, c);
    HolderRequestsAfter(s, c);
    if t.log != s.log { CountSnoc(s.log, t.log[|s.log|]); }
  }

  lemma {:induction false} RunOwes(s: State, schedule: seq<nat>, t: State)
    requires Inv(s) && Run(s, schedule, t)
    ensures Owed(t) - Tooks(t.log) <= Owed(s) - Tooks(s.log)
    decreases |schedule|
  {
    hide Inv, Step, Enabled, Owed;
    if schedule != [] {
      StepInv(s, schedule[0]);
      StepOwes(s, schedule[0]);
      RunOwes(Step(s, schedule[0]), schedule[1..], t);
    }
  }

  /** No run without a reason: there are never more runs than callbacks that took the mutex. */
  lemma RunsAreCaused(t: State)
    requires Reachable(t)
    ensures Starts(t.log) <= Tooks(t.log)
  {
    var schedule: seq<nat> :| Run(INITIAL, schedule, t);
    RunOwes(INITIAL, schedule, t);
    assert !OwnerStarts(INITIAL);
  }

  /** Callbacks never wait for each other in vain: unless every callback has finished, one of them can go on. */
  lemma NeverStuck(t: State, c: nat)
    requires Reachable(t) && c in t.pc && !t.pc[c].Finished?
    ensures exists d: nat :: d in t.pc && Enabled(t, d)
  {
    ReachableInv(t);
    if t.mu.Some? {
      var h := t.mu.value;
      assert Holds(At(t, h));
      assert Enabled(t, h);
    } else {
      assert Enabled(t, c);
    }
  }

  // ----- The log tells what the callbacks did -----

  /** By the log, a run of c has begun and not ended. */
  predicate InRun(log: seq<Event>, c: nat) {
    log != [] &&
    (log[|log| - 1] == RunStart(c) || (log[|log| - 1] != RunEnd(c) && InRun(log[..|log| - 1], c)))
  }

  predicate LogFits(s: State, c: nat) {
    && (Took(c) in s.log <==> c in s.pc)
    && (At(s, c).Locking? <==> c !in s.pc)
    && (At(s, c).Running? <==> InRun(s.log, c))
  }

  lemma InRunSnoc(log: seq<Event>, e: Event, c: nat)
    ensures InRun(log + [e], c) <==> e == RunStart(c) || (e != RunEnd(c) && InRun(log, c))
  {
    assert (log + [e])[..|log + [e]| - 1] == log;
  }

  lemma {:induction false} StepLogs(s: State, c: nat, d: nat)
    requires Enabled(s, c) && LogFits(s, d)
    ensures LogFits(Step(s, c), d) && (d in Step(s, c).pc <==> d in s.pc || d == c)
  {
    hide InRun;
    var t := Step(s, c);
    AtAfter(s, c);
    if t.log != s.log {
      var e := t.log[|s.log|];
      assert t.log == s.log + [e];
      InRunSnoc(s.log, e, d);
      InSnoc(s.log, e, Took(d));
    }
  }

  lemma InSnoc(log: seq<Event>, e: Event, x: Event)
    ensures x in log + [e] <==> x in log || x == e
  {
  }

  lemma {:induction false} RunLogs(s: State, schedule: seq<nat>, t: State, c: nat)
    requires Run(s, schedule, t) && LogFits(s, c)
    ensures LogFits(t, c) && (c in t.pc <==> c in s.pc || c in schedule)
    decreases |schedule|
  {
    hide LogFits, Enabled, Step;
    if schedule != [] {
      StepLogs(s, schedule[0], c);
      assert schedule == [schedule[0]] + schedule[1..];
      RunLogs(Step(s, schedule[0]), schedule[1..], t, c);
    }
  }

  /** Whoever has moved has taken the mutex first, and the runs in the log are those in which doRun is executed. */
  lemma {:induction false} LogIsComplete(schedule: seq<nat>, t: State, c: nat)
    requires Run(INITIAL, schedule, t)
    ensures Took(c) in t.log <==> c in schedule
    ensures At(t, c).Running? <==> InRun(t.log, c)
  {
    RunLogs(INITIAL, schedule, t, c);
  }
}
