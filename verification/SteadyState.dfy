/** CopySteadyState of pkg/pgproxy/pgproxy.go as a state machine: a task copying from the server to the
    client, a task receiving from the client, and the main loop, joined by two unbuffered channels
    (clientMsgs, msgAck), a buffered one (errChan, capacity 2) and one that is only ever closed (done).

    A step is one channel operation or the completion of one call on a connection; the environment
    decides what connections deliver and when they fail.  All interleavings are runs of this machine. */
module SteadyState {

  datatype Message = Message(payload: nat, isTerminate: bool)

  datatype Error = Nil | Failed(code: nat)

  /** The server task. */
  datatype ServerTask =
    | SReceiving                  // in server.Receive
    | SSending(msg: Message)      // in client.Send
    | SPolling                    // at the select on done
    | SReturning(err: Error)      // about to put its result into errChan
    | SExited

  /** The client task. */
  datatype ClientTask =
    | CReceiving                  // in client.Receive: the previous message's buffer is being overwritten
    | COffering(msg: Message)     // select: done, or hand the message over
    | CAwaitingAck                // select: done, or the acknowledgement
    | CReturning(err: Error)
    | CExited

  datatype MainLoop =
    | MSelecting                  // select: errChan, or a message
    | MSending(msg: Message)      // in server.Send
    | MAcking                     // at msgAck <- struct{}{}
    | MReturning(err: Error)      // about to close done
    | MExited(err: Error)

  datatype State = State(
    server: ServerTask, client: ClientTask, main: MainLoop,
    errChan: seq<Error>, done: bool,
    fromClient: seq<Message>, toServer: seq<Message>,
    fromServer: seq<Message>, toClient: seq<Message>,
    serverHungUp: bool)

  const CAPACITY := 2

  predicate Init(s: State) {
    s == State(SReceiving, CReceiving, MSelecting, [], false, [], [], [], [], false)
  }

  // ----- Steps -----

  datatype Event =
    | ServerDelivers(msg: Message)
    | ServerHangsUp               // io.ErrUnexpectedEOF
    | ServerFails(code: nat)
    | ClientAccepts               // client.Send returns
    | ClientRejects(code: nat)
    | ServerTaskPolls
    | ServerTaskReports
    | ClientDelivers(msg: Message)
    | ClientFails(code: nat)
    | ClientTaskSeesDone
    | HandOver                    // clientMsgs: sender and receiver meet
    | Ack                         // msgAck: sender and receiver meet
    | ClientTaskReports
    | MainTakesError
    | ServerAccepts               // server.Send returns
    | ServerRejects(code: nat)
    | MainClosesDone

  /** The event can happen in s. */
  predicate Enabled(s: State, e: Event) {
    match e
    case ServerDelivers(_) => s.server.SReceiving?
    case ServerHangsUp => s.server.SReceiving?
    case ServerFails(_) => s.server.SReceiving?
    case ClientAccepts => s.server.SSending?
    case ClientRejects(_) => s.server.SSending?
    case ServerTaskPolls => s.server.SPolling?
    case ServerTaskReports => s.server.SReturning? && |s.errChan| < CAPACITY
    case ClientDelivers(_) => s.client.CReceiving?
    case ClientFails(_) => s.client.CReceiving?
    case ClientTaskSeesDone => (s.client.COffering? || s.client.CAwaitingAck?) && s.done
    case HandOver => s.client.COffering? && s.main.MSelecting?
    case Ack => s.client.CAwaitingAck? && s.main.MAcking?
    case ClientTaskReports => s.client.CReturning? && |s.errChan| < CAPACITY
    case MainTakesError => s.main.MSelecting? && s.errChan != []
    case ServerAccepts => s.main.MSending?
    case ServerRejects(_) => s.main.MSending?
    case MainClosesDone => s.main.MReturning?
  }

  function Apply(s: State, e: Event): State
    requires Enabled(s, e)
  {
    match e
    case ServerDelivers(m) => s.(server := SSending(m), fromServer := s.fromServer + [m])
    case ServerHangsUp => s.(server := SReturning(Nil), serverHungUp := true)
    case ServerFails(code) => s.(server := SReturning(Failed(code)))
    case ClientAccepts => s.(server := SPolling, toClient := s.toClient + [s.server.msg])
    case ClientRejects(code) => s.(server := SReturning(Failed(code)))
    case ServerTaskPolls => s.(server := if s.done then SReturning(Nil) else SReceiving)
    case ServerTaskReports => s.(server := SExited, errChan := s.errChan + [s.server.err])
    case ClientDelivers(m) => s.(client := COffering(m), fromClient := s.fromClient + [m])
    case ClientFails(code) => s.(client := CReturning(Failed(code)))
    case ClientTaskSeesDone => s.(client := CReturning(Nil))
    case HandOver => s.(client := CAwaitingAck, main := MSending(s.client.msg))
    case Ack => s.(client := CReceiving, main := MSelecting)
    case ClientTaskReports => s.(client := CExited, errChan := s.errChan + [s.client.err])
    case MainTakesError => s.(main := MReturning(s.errChan[0]), errChan := s.errChan[1..])
    case ServerAccepts =>
      var m := s.main.msg;
      s.(main := if m.isTerminate then MReturning(Nil) else MAcking, toServer := s.toServer + [m])
    case ServerRejects(code) => s.(main := MReturning(Failed(code)))
    case MainClosesDone => s.(main := MExited(s.main.err), done := true)
  }

  /** States reached from the initial one by a sequence of events. */
  ghost predicate Run(s: State, es: seq<Event>, t: State)
    decreases |es|
  {
    if es == [] then s == t else Enabled(s, es[0]) && Run(Apply(s, es[0]), es[1..], t)
  }

  ghost predicate Reachable(t: State) {
    exists s: State, es: seq<Event> :: Init(s) && Run(s, es, t)
  }

  // ----- Invariant -----

  predicate TerminateOnlyLast(ms: seq<Message>) {
    forall i :: 0 <= i < |ms| - 1 ==> !ms[i].isTerminate
  }

  predicate EndsWithTerminate(ms: seq<Message>) {
    |ms| > 0 && ms[|ms| - 1].isTerminate
  }

  predicate MainRunning(s: State) {
    s.main.MSelecting? || s.main.MSending? || s.main.MAcking?
  }

  /** What client.Receive has delivered is what went to the server, plus at most the message in transit. */
  predicate ClientSide(s: State) {
    match s.client
    case CReceiving => s.fromClient == s.toServer && !EndsWithTerminate(s.toServer)
    case COffering(m) => s.fromClient == s.toServer + [m] && !EndsWithTerminate(s.toServer)
    case CAwaitingAck =>
      (match s.main
       case MSelecting => false
       case MSending(m) => s.fromClient == s.toServer + [m] && !EndsWithTerminate(s.toServer)
       case MAcking => s.fromClient == s.toServer && !EndsWithTerminate(s.toServer)
       case MReturning(_) => OneBehind(s)
       case MExited(_) => OneBehind(s))
    case CReturning(_) => OneBehind(s)
    case CExited => OneBehind(s)
  }

  predicate OneBehind(s: State) {
    s.fromClient == s.toServer ||
    (|s.fromClient| == |s.toServer| + 1 && s.toServer <= s.fromClient && !EndsWithTerminate(s.toServer))
  }

  /** Only a task that the main loop has met at clientMsgs can make it send or acknowledge. */
  predicate MainSide(s: State) {
    && (s.main.MSending? || s.main.MAcking? ==> s.client.CAwaitingAck?)
    && (s.done <==> s.main.MExited?)
    && (MainRunning(s) ==> !EndsWithTerminate(s.toServer))
  }

  predicate ServerSide(s: State) {
    match s.server
    case SReceiving => s.fromServer == s.toClient
    case SSending(m) => s.fromServer == s.toClient + [m]
    case SPolling => s.fromServer == s.toClient
    case SReturning(_) => s.toClient <= s.fromServer && |s.fromServer| <= |s.toClient| + 1
    case SExited => s.toClient <= s.fromServer && |s.fromServer| <= |s.toClient| + 1
  }

  function Exits(s: State): nat {
    (if s.server.SExited? then 1 else 0) + (if s.client.CExited? then 1 else 0)
  }

  /** A nil result means that the server hung up, that a Terminate was forwarded, or that done is closed. */
  predicate NilExplained(s: State, e: Error) {
    e == Nil ==> s.serverHungUp || EndsWithTerminate(s.toServer) || s.done
  }

  predicate Errors(s: State) {
    && |s.errChan| <= Exits(s)
    && (forall e <- s.errChan :: NilExplained(s, e))
    && (s.server.SReturning? ==> NilExplained(s, s.server.err))
    && (s.client.CReturning? ==> NilExplained(s, s.client.err))
    && (s.main.MReturning? ==> s.main.err == Nil ==> s.serverHungUp || EndsWithTerminate(s.toServer))
    && (s.main.MExited? ==> s.main.err == Nil ==> s.serverHungUp || EndsWithTerminate(s.toServer))
  }

  predicate Inv(s: State) {
    && ClientSide(s) && MainSide(s) && ServerSide(s) && Errors(s)
    && TerminateOnlyLast(s.fromClient) && TerminateOnlyLast(s.toServer)
  }

  lemma InitInv(s: State)
    requires Init(s)
    ensures Inv(s)
  {
  }

  lemma StepKeepsClientSide(s: State, e: Event)
    requires Inv(s) && Enabled(s, e)
    ensures var t := Apply(s, e);
            ClientSide(t) && MainSide(t) && TerminateOnlyLast(t.fromClient) && TerminateOnlyLast(t.toServer)
  {
  }

  lemma StepKeepsErrors(s: State, e: Event)
    requires Inv(s) && Enabled(s, e)
    ensures ServerSide(Apply(s, e)) && Errors(Apply(s, e))
  {
    var t := Apply(s, e);
    forall x <- t.errChan ensures NilExplained(t, x) {
      assert x in s.errChan || e == ServerTaskReports || e == ClientTaskReports;
    }
    if e == MainTakesError { assert s.errChan[0] in s.errChan; }
  }

  lemma StepInv(s: State, e: Event)
    requires Inv(s) && Enabled(s, e)
    ensures Inv(Apply(s, e))
  {
    StepKeepsClientSide(s, e);
    StepKeepsErrors(s, e);
  }

  lemma {:induction false} RunInv(s: State, es: seq<Event>, t: State)
    requires Inv(s) && Run(s, es, t)
    ensures Inv(t)
    decreases |es|
  {
    hide Inv, Apply, Enabled;
    if es != [] {
      StepInv(s, es[0]);
      RunInv(Apply(s, es[0]), es[1..], t);
    }
  }

  lemma ReachableInv(t: State)
    requires Reachable(t)
    ensures Inv(t)
  {
    var s: State, es: seq<Event> :| Init(s) && Run(s, es, t);
    InitInv(s);
    RunInv(s, es, t);
  }

  // ----- Safety -----

  /** In every interleaving each direction forwards a prefix of what it received, at most one message
      behind, and nothing is received from the client or sent to the server after a Terminate. */
  lemma ForwardsInOrder(t: State)
    requires Reachable(t)
    ensures t.toServer <= t.fromClient && |t.fromClient| <= |t.toServer| + 1
    ensures t.toClient <= t.fromServer && |t.fromServer| <= |t.toClient| + 1
    ensures TerminateOnlyLast(t.fromClient) && TerminateOnlyLast(t.toServer)
  {
    ReachableInv(t);
  }

  /** While a message is being sent, or its acknowledgement is due, the client task waits for that
      acknowledgement: the next client.Receive, which reuses the buffer, has not begun. */
  lemma BufferIsNotReused(t: State)
    requires Reachable(t) && (t.main.MSending? || t.main.MAcking?)
    ensures t.client.CAwaitingAck?
    ensures t.main.MSending? ==> t.fromClient == t.toServer + [t.main.msg]
  {
    ReachableInv(t);
  }

  /** A nil result is returned only if the server hung up or a Terminate was forwarded. */
  lemma NilResultIsExplained(t: State)
    requires Reachable(t) && t.main == MExited(Nil)
    ensures t.serverHungUp || EndsWithTerminate(t.toServer)
  {
    ReachableInv(t);
  }

  // ----- What happened, and what is returned -----

  /** A call on a connection failed with this code. */
  predicate Fails(e: Event, code: nat) {
    e == ServerFails(code) || e == ClientRejects(code) || e == ClientFails(code) || e == ServerRejects(code)
  }

  predicate Unfailed(es: seq<Event>) {
    forall e <- es :: !e.ServerFails? && !e.ClientRejects? && !e.ClientFails? && !e.ServerRejects?
  }

  predicate Blamed(es: seq<Event>, err: Error) {
    err.Failed? ==> exists e <- es :: Fails(e, err.code)
  }

  /** Every error that is on its way comes from a call that failed. */
  predicate AllBlamed(es: seq<Event>, s: State) {
    && (forall err <- s.errChan :: Blamed(es, err))
    && (s.server.SReturning? ==> Blamed(es, s.server.err))
    && (s.client.CReturning? ==> Blamed(es, s.client.err))
    && (s.main.MReturning? ==> Blamed(es, s.main.err))
    && (s.main.MExited? ==> Blamed(es, s.main.err))
  }

  lemma BlamedLater(es: seq<Event>, e: Event, err: Error)
    requires Blamed(es, err)
    ensures Blamed(es + [e], err)
  {
    if err.Failed? {
      var f :| f in es && Fails(f, err.code);
      assert f in es + [e];
    }
  }

  lemma {:induction false} StepBlames(es: seq<Event>, s: State, e: Event)
    requires AllBlamed(es, s) && Enabled(s, e)
    ensures AllBlamed(es + [e], Apply(s, e))
  {
    hide Blamed;
    var t := Apply(s, e);
    forall err: Error | Blamed(es, err) ensures Blamed(es + [e], err) { BlamedLater(es, e, err); }
    forall err: Error | err.Failed? && Fails(e, err.code) ensures Blamed(es + [e], err) { NowBlamed(es, e, err); }
    NilBlamed(es + [e]);
    if e == MainTakesError { assert s.errChan[0] in s.errChan; }
  }

  lemma NowBlamed(es: seq<Event>, e: Event, err: Error)
    requires err.Failed? && Fails(e, err.code)
    ensures Blamed(es + [e], err)
  {
    assert e in es + [e];
  }

  lemma NilBlamed(es: seq<Event>)
    ensures Blamed(es, Nil)
  {
  }

  lemma {:induction false} RunBlames(before: seq<Event>, s: State, es: seq<Event>, t: State)
    requires AllBlamed(before, s) && Run(s, es, t)
    ensures AllBlamed(before + es, t)
    decreases |es|
  {
    hide AllBlamed, Apply, Enabled;
    if es == [] {
      assert before + es == before;
    } else {
      StepBlames(before, s, es[0]);
      assert before + es == before + [es[0]] + es[1..];
      RunBlames(before + [es[0]], Apply(s, es[0]), es[1..], t);
    }
  }

  /** An error is returned only if a call on a connection failed with it. */
  lemma {:induction false} ErrorResultIsExplained(s: State, es: seq<Event>, t: State, code: nat)
    requires Init(s) && Run(s, es, t) && t.main == MExited(Failed(code))
    ensures ServerFails(code) in es || ClientRejects(code) in es || ClientFails(code) in es || ServerRejects(code) in es
  {
    RunBlames([], s, es, t);
    assert [] + es == es;
  }

  /** If no call failed, the result can only be nil. */
  lemma {:induction false} NoFailureMeansNil(s: State, es: seq<Event>, t: State)
    requires Init(s) && Run(s, es, t) && t.main.MExited? && Unfailed(es)
    ensures t.main == MExited(Nil)
  {
    RunBlames([], s, es, t);
    assert [] + es == es;
  }

  /** The messages the connections delivered, in order. */
  function ClientMessages(es: seq<Event>): seq<Message> {
    if es == [] then []
    else (if es[0].ClientDelivers? then [es[0].msg] else []) + ClientMessages(es[1..])
  }

  function ServerMessages(es: seq<Event>): seq<Message> {
    if es == [] then []
    else (if es[0].ServerDelivers? then [es[0].msg] else []) + ServerMessages(es[1..])
  }

  function Count(es: seq<Event>, e: Event): nat {
    if es == [] then 0 else (if es[0] == e then 1 else 0) + Count(es[1..], e)
  }

  /** The logs of a state are what the run says: each message as delivered, and one sent for each Send that returned. */
  lemma {:induction false} LogsAreEvents(s: State, es: seq<Event>, t: State)
    requires Run(s, es, t)
    ensures t.fromClient == s.fromClient + ClientMessages(es) && t.fromServer == s.fromServer + ServerMessages(es)
    ensures |t.toServer| == |s.toServer| + Count(es, ServerAccepts)
    ensures |t.toClient| == |s.toClient| + Count(es, ClientAccepts)
    ensures t.serverHungUp <==> s.serverHungUp || ServerHangsUp in es
    decreases |es|
  {
    hide Apply, Enabled;
    if es != [] {
      LogsStep(s, es[0]);
      LogsAreEvents(Apply(s, es[0]), es[1..], t);
      assert es == [es[0]] + es[1..];
    }
  }

  lemma LogsStep(s: State, e: Event)
    requires Enabled(s, e)
    ensures var t := Apply(s, e);
            && t.fromClient == s.fromClient + (if e.ClientDelivers? then [e.msg] else [])
            && t.fromServer == s.fromServer + (if e.ServerDelivers? then [e.msg] else [])
            && |t.toServer| == |s.toServer| + (if e.ServerAccepts? then 1 else 0)
            && |t.toClient| == |s.toClient| + (if e.ClientAccepts? then 1 else 0)
            && (t.serverHungUp <==> s.serverHungUp || e.ServerHangsUp?)
  {
  }

  // ----- Copying goes on -----

  predicate IsQuiet(e: Event) {
    && !e.ServerHangsUp? && (e.ClientDelivers? ==> !e.msg.isTerminate)
    && !e.ServerFails? && !e.ClientRejects? && !e.ClientFails? && !e.ServerRejects?
  }

  /** Both tasks and the main loop are at work. */
  predicate Copying(s: State) {
    && MainRunning(s) && !s.done && s.errChan == []
    && (s.server.SReceiving? || s.server.SSending? || s.server.SPolling?)
    && (s.client.CReceiving? || s.client.COffering? || s.client.CAwaitingAck?)
    && (s.client.COffering? ==> !s.client.msg.isTerminate)
    && (s.main.MSending? ==> !s.main.msg.isTerminate)
  }

  /** As long as no call fails, the server does not hang up and no Terminate comes, nobody stops. */
  lemma {:induction false} QuietRunsCopy(s: State, es: seq<Event>, t: State)
    requires Copying(s) && Run(s, es, t) && forall e <- es :: IsQuiet(e)
    ensures Copying(t)
    decreases |es|
  {
    hide Copying, Apply, Enabled, IsQuiet;
    if es != [] {
      QuietStepCopies(s, es[0]);
      QuietRunsCopy(Apply(s, es[0]), es[1..], t);
    }
  }

  lemma QuietStepCopies(s: State, e: Event)
    requires Copying(s) && Enabled(s, e) && IsQuiet(e)
    ensures Copying(Apply(s, e))
  {
  }

  lemma InitCopies(s: State)
    requires Init(s)
    ensures Copying(s)
  {
  }

  lemma QuietSessionsGoOn(s: State, es: seq<Event>, t: State)
    requires Init(s) && Run(s, es, t) && forall e <- es :: IsQuiet(e)
    ensures Copying(t)
  {
    InitCopies(s);
    QuietRunsCopy(s, es, t);
  }

  lemma {:induction false} RunOn(s: State, es: seq<Event>, t: State, e: Event)
    requires Run(s, es, t) && Enabled(t, e)
    ensures Run(s, es + [e], Apply(t, e))
    decreases |es|
  {
    hide Apply, Enabled;
    if es == [] {
      assert (es + [e])[1..] == [];
    } else {
      assert (es + [e])[1..] == es[1..] + [e];
      RunOn(Apply(s, es[0]), es[1..], t, e);
    }
  }

  /** What the client has sent up to now reaches the server, without anything being awaited from elsewhere. */
  lemma {:induction false} ClientCatchesUp(t: State) returns (es: seq<Event>, u: State)
    requires Copying(t) && Inv(t)
    ensures Run(t, es, u) && |es| <= 3 && (forall e <- es :: e in {HandOver, ServerAccepts, Ack})
    ensures Copying(u) && Inv(u) && u.client == CReceiving && u.main == MSelecting
    ensures u.toServer == u.fromClient == t.fromClient && u.server == t.server && u.toClient == t.toClient
  {
    hide Errors, ServerSide, TerminateOnlyLast;
    es, u := [], t;
    if u.client.COffering? && u.main.MSelecting? { es, u := OneStep(t, es, u, HandOver); }
    if u.main.MSending? { es, u := OneStep(t, es, u, ServerAccepts); }
    if u.main.MAcking? { es, u := OneStep(t, es, u, Ack); }
  }

  lemma OneStep(t: State, es: seq<Event>, u: State, e: Event) returns (es': seq<Event>, u': State)
    requires Run(t, es, u) && Enabled(u, e) && Inv(u) && Copying(u) && IsQuiet(e)
    ensures es' == es + [e] && u' == Apply(u, e) && Run(t, es', u') && Inv(u') && Copying(u')
  {
    hide Apply, Enabled, Inv, Copying, IsQuiet;
    es', u' := es + [e], Apply(u, e);
    RunOn(t, es, u, e);
    StepInv(u, e);
    QuietStepCopies(u, e);
  }

  /** And so does one more message, whatever it is. */
  lemma {:induction false} ForwardsToServer(t: State, m: Message) returns (es: seq<Event>, u: State)
    requires Reachable(t) && Copying(t) && !m.isTerminate
    ensures Run(t, es, u) && |es| <= 7 && Copying(u)
    ensures u.toServer == t.fromClient + [m]
  {
    hide Inv, Copying;
    ReachableInv(t);
    es, u := ClientCatchesUp(t);
    es, u := OneStep(t, es, u, ClientDelivers(m));
    es, u := OneStep(t, es, u, HandOver);
    es, u := OneStep(t, es, u, ServerAccepts);
    es, u := OneStep(t, es, u, Ack);
  }

  lemma {:induction false} ForwardsToClient(t: State, m: Message) returns (es: seq<Event>, u: State)
    requires Reachable(t) && Copying(t)
    ensures Run(t, es, u) && |es| <= 4 && Copying(u)
    ensures u.toClient == t.fromServer + [m]
  {
    ReachableInv(t);
    es, u := [], t;
    if u.server.SSending? { es, u := OneStep(t, es, u, ClientAccepts); }
    if u.server.SPolling? { es, u := OneStep(t, es, u, ServerTaskPolls); }
    es, u := OneStep(t, es, u, ServerDelivers(m));
    es, u := OneStep(t, es, u, ClientAccepts);
  }

  // ----- The first result wins -----

  /** The results that both tasks put into errChan in the course of a run, in order. */
  function Reports(s: State, es: seq<Event>): seq<Error>
    decreases |es|
  {
    if es == [] || !Enabled(s, es[0]) then []
    else
      (if es[0] == ServerTaskReports then [s.server.err]
       else if es[0] == ClientTaskReports then [s.client.err] else [])
      + Reports(Apply(s, es[0]), es[1..])
  }

  /** Once the main loop has taken a result it does not return another one. */
  predicate Decided(s: State, err: Error) {
    s.main == MReturning(err) || s.main == MExited(err)
  }

  lemma {:induction false} StaysDecided(s: State, es: seq<Event>, t: State, err: Error)
    requires MainSide(s) && Decided(s, err) && Run(s, es, t)
    ensures Decided(t, err)
    decreases |es|
  {
    if es != [] { StaysDecided(Apply(s, es[0]), es[1..], t, err); }
  }

  /** The main loop returns what was reported first, unless its own Send ended the session before. */
  lemma {:induction false} FirstReportWins(s: State, es: seq<Event>, t: State)
    requires Inv(s) && MainRunning(s) && Run(s, es, t) && MainTakesError in es
    ensures s.errChan + Reports(s, es) != [] && Decided(t, (s.errChan + Reports(s, es))[0])
    decreases |es|
  {
    hide Apply, Enabled, MainRunning, Decided, Inv;
    var u := Apply(s, es[0]);
    assert es == [es[0]] + es[1..];
    StepInv(s, es[0]);
    InvMain(u);
    ReportStep(s, es[0]);
    if es[0] == MainTakesError {
      StaysDecided(u, es[1..], t, s.errChan[0]);
    } else if MainRunning(u) {
      FirstReportWins(u, es[1..], t);
      assert u.errChan + Reports(u, es[1..]) == s.errChan + Reports(s, es);
    } else {
      NeverSelectsAgain(u, es[1..], t);
    }
  }

  lemma InvMain(s: State)
    requires Inv(s)
    ensures MainSide(s)
  {
  }

  lemma ReportStep(s: State, e: Event)
    requires Enabled(s, e) && MainRunning(s)
    ensures e == MainTakesError ==> s.errChan != [] && Decided(Apply(s, e), s.errChan[0])
    ensures e == ServerTaskReports ==> s.server.SReturning? && Apply(s, e).errChan == s.errChan + [s.server.err]
    ensures e == ClientTaskReports ==> s.client.CReturning? && Apply(s, e).errChan == s.errChan + [s.client.err]
    ensures e !in {MainTakesError, ServerTaskReports, ClientTaskReports} ==> Apply(s, e).errChan == s.errChan
  {
  }

  lemma {:induction false} NeverSelectsAgain(s: State, es: seq<Event>, t: State)
    requires !MainRunning(s) && Run(s, es, t)
    ensures MainTakesError !in es
    decreases |es|
  {
    if es != [] {
      NeverSelectsAgain(Apply(s, es[0]), es[1..], t);
      assert es == [es[0]] + es[1..];
    }
  }

  // ----- Progress -----

  /** Some call on a connection is outstanding. */
  predicate WaitsForConnection(s: State) {
    s.server.SReceiving? || s.server.SSending? || s.client.CReceiving? || s.main.MSending?
  }

  predicate AllExited(s: State) {
    s.server.SExited? && s.client.CExited? && s.main.MExited?
  }

  /** The channels never wedge: a task that wants to report can, a due acknowledgement finds its receiver,
      and as long as no call on a connection is outstanding some event is possible until all have exited. */
  lemma NeverWedges(t: State)
    requires Reachable(t)
    ensures |t.errChan| <= CAPACITY
    ensures t.server.SReturning? ==> Enabled(t, ServerTaskReports)
    ensures t.client.CReturning? ==> Enabled(t, ClientTaskReports)
    ensures t.main.MAcking? ==> Enabled(t, Ack)
    ensures WaitsForConnection(t) || AllExited(t) || exists e :: Enabled(t, e)
  {
    ReachableInv(t);
    if !WaitsForConnection(t) && !AllExited(t) {
      if t.server.SPolling? { assert Enabled(t, ServerTaskPolls); }
      else if t.server.SReturning? { assert Enabled(t, ServerTaskReports); }
      else if t.client.CReturning? { assert Enabled(t, ClientTaskReports); }
      else if t.main.MReturning? { assert Enabled(t, MainClosesDone); }
      else if t.main.MAcking? { assert Enabled(t, Ack); }
      else if t.client.COffering? { assert if t.done then Enabled(t, ClientTaskSeesDone) else Enabled(t, HandOver); }
      else if t.client.CAwaitingAck? { assert Enabled(t, ClientTaskSeesDone); }
      else { assert Enabled(t, MainTakesError) by { NoSilentExit(t); } }
    }
  }

  /** While the main loop selects, every exited task has left its result in errChan. */
  predicate ResultsKept(s: State) {
    s.main.MSelecting? || s.main.MSending? || s.main.MAcking? ==> |s.errChan| == Exits(s)
  }

  lemma {:induction false} RunKeepsResults(s: State, es: seq<Event>, t: State)
    requires ResultsKept(s) && Run(s, es, t)
    ensures ResultsKept(t)
    decreases |es|
  {
    hide ResultsKept, Apply, Enabled;
    if es != [] {
      StepKeepsResults(s, es[0]);
      RunKeepsResults(Apply(s, es[0]), es[1..], t);
    }
  }

  lemma StepKeepsResults(s: State, e: Event)
    requires ResultsKept(s) && Enabled(s, e)
    ensures ResultsKept(Apply(s, e))
  {
  }

  lemma NoSilentExit(t: State)
    requires Reachable(t)
    ensures ResultsKept(t)
  {
    var s: State, es: seq<Event> :| Init(s) && Run(s, es, t);
    RunKeepsResults(s, es, t);
  }

  // ----- Ending -----

  predicate HangUpEndsTask(s: State) {
    s.serverHungUp ==> s.server.SReturning? || s.server.SExited?
  }

  lemma {:induction false} RunHangUpEndsTask(s: State, es: seq<Event>, t: State)
    requires HangUpEndsTask(s) && Run(s, es, t)
    ensures HangUpEndsTask(t)
    decreases |es|
  {
    if es != [] { RunHangUpEndsTask(Apply(s, es[0]), es[1..], t); }
  }

  /** A run of which only events that need nothing new from the connections are left to add. */
  ghost predicate Closing(s: State, es: seq<Event>, u: State) {
    Init(s) && Run(s, es, u) && Unfailed(es) && (u.serverHungUp || !MainRunning(u))
  }

  lemma OneMore(s: State, es: seq<Event>, u: State, e: Event) returns (es': seq<Event>, u': State)
    requires Closing(s, es, u) && Enabled(u, e)
    requires e in {ServerAccepts, Ack, ServerTaskReports, MainTakesError, MainClosesDone}
    ensures es' == es + [e] && u' == Apply(u, e) && Closing(s, es', u')
  {
    es', u' := es + [e], Apply(u, e);
    RunOn(s, es, u, e);
  }

  lemma ClosingFacts(s: State, es: seq<Event>, u: State)
    requires Closing(s, es, u)
    ensures MainRunning(u) ==> u.server.SReturning? || u.server.SExited?
    ensures u.server.SReturning? ==> Enabled(u, ServerTaskReports)
    ensures u.main.MAcking? ==> Enabled(u, Ack)
    ensures u.main.MSelecting? && u.server.SExited? ==> Enabled(u, MainTakesError)
    ensures u.main.MExited? ==> u.main == MExited(Nil)
  {
    RunHangUpEndsTask(s, es, u);
    NeverWedges(u);
    NoSilentExit(u);
    if u.main.MExited? { NoFailureMeansNil(s, es, u); }
  }

  /** The events still to come. */
  function ToClose(u: State): nat {
    match u.main
    case MSending(_) => 5
    case MAcking => 4
    case MSelecting => if u.server.SReturning? then 3 else 2
    case MReturning(_) => 1
    case MExited(_) => 0
  }

  function NextToClose(u: State): Event {
    match u.main
    case MSending(_) => ServerAccepts
    case MAcking => Ack
    case MSelecting => if u.server.SReturning? then ServerTaskReports else MainTakesError
    case MReturning(_) => MainClosesDone
    case MExited(_) => MainClosesDone
  }

  lemma StepCloses(s: State, es: seq<Event>, u: State)
    requires Closing(s, es, u) && !u.main.MExited?
    ensures Enabled(u, NextToClose(u)) && ToClose(Apply(u, NextToClose(u))) < ToClose(u)
  {
    ClosingFacts(s, es, u);
  }

  lemma {:induction false} Closes(s: State, es: seq<Event>, u: State) returns (more: seq<Event>, v: State)
    requires Closing(s, es, u)
    ensures Closing(s, es + more, v) && v.main.MExited? && |more| <= ToClose(u)
    ensures forall e <- more :: e in {ServerAccepts, Ack, ServerTaskReports, MainTakesError, MainClosesDone}
    decreases ToClose(u)
  {
    hide Closing, Apply, Enabled;
    if u.main.MExited? {
      more, v := [], u;
      assert es + more == es;
    } else {
      var e := NextToClose(u);
      StepCloses(s, es, u);
      var es', u' := OneMore(s, es, u, e);
      var rest;
      rest, v := Closes(s, es', u');
      more := [e] + rest;
      assert es + more == es' + rest;
    }
  }

  /** After a hang-up or a forwarded Terminate, if no call failed, the session can come to its end without
      anything further being delivered, and its result is nil. */
  lemma {:induction false} SessionEnds(s: State, es: seq<Event>, t: State) returns (more: seq<Event>, u: State)
    requires Init(s) && Run(s, es, t) && Unfailed(es) && (t.serverHungUp || EndsWithTerminate(t.toServer))
    ensures Run(s, es + more, u) && u.main == MExited(Nil) && |more| <= 5
    ensures forall e <- more :: e in {ServerAccepts, Ack, ServerTaskReports, MainTakesError, MainClosesDone}
  {
    hide Closing;
    IsClosing(s, es, t);
    more, u := Closes(s, es, t);
    ClosingFacts(s, es + more, u);
    ClosingRun(s, es + more, u);
  }

  lemma IsClosing(s: State, es: seq<Event>, t: State)
    requires Init(s) && Run(s, es, t) && Unfailed(es) && (t.serverHungUp || EndsWithTerminate(t.toServer))
    ensures Closing(s, es, t)
  {
    ReachableInv(t);
  }

  lemma ClosingRun(s: State, es: seq<Event>, u: State)
    requires Closing(s, es, u)
    ensures Run(s, es, u)
  {
  }

  /** How many more events the two tasks can take part in once done is closed. */
  function Remaining(s: State): nat {
    (match s.server
     case SReceiving => 4
     case SSending(_) => 3
     case SPolling => 2
     case SReturning(_) => 1
     case SExited => 0) +
    (match s.client
     case CReceiving => 3
     case COffering(_) => 2
     case CAwaitingAck => 2
     case CReturning(_) => 1
     case CExited => 0)
  }

  /** After done is closed everything winds down: every run from there has at most seven events. */
  lemma {:induction false} WindsDown(t: State, es: seq<Event>, u: State)
    requires Reachable(t) && t.done && Run(t, es, u)
    ensures u.done && |es| + Remaining(u) <= Remaining(t) <= 7
  {
    ReachableInv(t);
    WindsDownFrom(t, es, u);
  }

  lemma {:induction false} WindsDownFrom(t: State, es: seq<Event>, u: State)
    requires Inv(t) && t.done && Run(t, es, u)
    ensures u.done && |es| + Remaining(u) <= Remaining(t)
    decreases |es|
  {
    hide Inv, Apply, Enabled, Remaining;
    if es != [] {
      StepInv(t, es[0]);
      StepWindsDown(t, es[0]);
      WindsDownFrom(Apply(t, es[0]), es[1..], u);
    }
  }

  lemma StepWindsDown(t: State, e: Event)
    requires Inv(t) && t.done && Enabled(t, e)
    ensures Apply(t, e).done && Remaining(Apply(t, e)) < Remaining(t)
  {
  }

  /** And once done is closed, whichever task is not in a call on a connection can take its next step. */
  lemma DoneUnblocks(t: State)
    requires Reachable(t) && t.done
    ensures t.client.COffering? || t.client.CAwaitingAck? ==> Enabled(t, ClientTaskSeesDone)
    ensures t.client.CReturning? ==> Enabled(t, ClientTaskReports)
    ensures t.server.SPolling? ==> Enabled(t, ServerTaskPolls) && Apply(t, ServerTaskPolls).server.SReturning?
    ensures t.server.SReturning? ==> Enabled(t, ServerTaskReports)
  {
    ReachableInv(t);
  }
}
