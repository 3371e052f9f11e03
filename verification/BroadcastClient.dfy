/** The reconnecting broadcast client: one worker, any number of concurrent Close calls. */
module BroadcastClient {
  import opened Common

  /** Where a call of try stands. A try runs inside another one when onConnect sends its seek
      request through the client that is being connected. */
  datatype Pc =
    | TryHead
    | DoAction
    | Connecting
    | Streaming(raw: nat)
    | Storing(raw: nat)
    | OnConnect
    | Sending
    | AfterOnConnect(ok: bool)
    | ConnectFailed
    | Action
    | ActionFailed
    | TryFailed
    | Sleeping

  /** Where the Close call that holds the mutex stands. */
  datatype Closer = NoCloser | Marking | Signalling | Closing

  /** Connections are numbered as NewConnection returns them; next is the first unused number.
      The stream is set and cleared together with conn. returned holds what the worker's calls have
      returned, success or an error, in order. */
  datatype State = State(
    stopFlag: bool, stopChan: nat, conn: Option<nat>,
    next: nat, closed: set<nat>,
    stack: seq<Pc>, closer: Closer, closeReturned: bool, returned: seq<bool>)

  const STOP_CHAN_CAPACITY := 1

  function Init(): State {
    State(false, 0, None, 0, {}, [], NoCloser, false, [])
  }

  function Top(s: State): Pc
    requires s.stack != []
  {
    s.stack[|s.stack| - 1]
  }

  function Goto(s: State, pc: Pc): State
    requires s.stack != []
  {
    s.(stack := s.stack[..|s.stack| - 1] + [pc])
  }

  /** try returns: to the caller of the client, or to onConnect of the connect around it. */
  function Return(s: State, ok: bool): State
    requires s.stack != []
  {
    var rest := s.stack[..|s.stack| - 1];
    if rest == [] then s.(stack := [], returned := s.returned + [ok]) else s.(stack := rest[..|rest| - 1] + [AfterOnConnect(ok)])
  }

  /** connection.Close runs once; Disconnect also forgets the connection. */
  function Disconnected(s: State): State {
    if s.conn.None? then s else s.(closed := s.closed + {s.conn.value}, conn := None)
  }

  /** One step of the worker. `ok` is what the network, onConnect or the retry policy answers;
      a step that takes the mutex waits while a Close call holds it. */
  function Work(s: State, ok: bool): State
    requires s.stack != []
  {
    match Top(s)
    case TryHead => if s.stopFlag then Return(s, false) else Goto(s, DoAction)
    case DoAction => if s.conn.None? then Goto(s, Connecting) else Goto(s, Action)
    case Connecting => if ok then Goto(s, Streaming(s.next)).(next := s.next + 1) else Goto(s, TryFailed)
    case Streaming(c) => if ok then Goto(s, Storing(c)) else Goto(s, TryFailed).(closed := s.closed + {c})
    case Storing(c) =>
      if s.closer != NoCloser then s
      else Goto(s, if s.stopFlag then ConnectFailed else OnConnect).(conn := Some(c))
    case OnConnect =>
      if ok then Goto(s, Sending).(stack := s.stack[..|s.stack| - 1] + [Sending, TryHead])
      else Goto(s, AfterOnConnect(false))
    case Sending => s
    case AfterOnConnect(sent) =>
      if s.closer != NoCloser then s
      else Goto(s, if s.stopFlag || !sent then ConnectFailed else Action)
    case ConnectFailed => if s.closer != NoCloser then s else Goto(Disconnected(s), TryFailed)
    case Action => if s.stopFlag || !ok then Goto(s, ActionFailed) else Return(s, true)
    case ActionFailed => if s.closer != NoCloser then s else Goto(Disconnected(s), TryFailed)
    case TryFailed => if ok then Goto(s, Sleeping) else Return(s, false)
    case Sleeping =>
      if ok && s.stopChan > 0 then Goto(s, TryHead).(stopChan := s.stopChan - 1) else Goto(s, TryHead)
  }

  datatype Step =
    | Call               // the worker calls Recv or Send
    | Hangup             // the worker calls Disconnect
    | WorkerStep(ok: bool)
    | CloseStep          // a Close call takes the mutex, or the one inside goes on

  function Next(s: State, step: Step): State {
    match step
    case Call => if s.stack == [] then s.(stack := [TryHead]) else s
    case Hangup => if s.stack == [] && s.closer == NoCloser then Disconnected(s) else s
    case WorkerStep(ok) => if s.stack == [] then s else Work(s, ok)
    case CloseStep =>
      match s.closer
      case NoCloser => if s.stopFlag then s.(closeReturned := true) else s.(closer := Marking)
      case Marking => s.(stopFlag := true, closer := Signalling)
      case Signalling =>
        if s.stopChan < STOP_CHAN_CAPACITY then s.(stopChan := s.stopChan + 1, closer := Closing) else s
      case Closing =>
        s.(closed := if s.conn.Some? then s.closed + {s.conn.value} else s.closed,
           closer := NoCloser, closeReturned := true)
  }

  function Run(steps: seq<Step>): State {
    if steps == [] then Init() else Next(Run(steps[..|steps| - 1]), steps[|steps| - 1])
  }

  // ---------------------------------------------------------------- the invariant

  predicate InConnect(pc: Pc) {
    pc.Connecting? || pc.Streaming? || pc.Storing? || pc.OnConnect? || pc.Sending? || pc.AfterOnConnect? || pc.ConnectFailed?
  }

  /** The worker is outside connect. */
  ghost predicate Outside(s: State) {
    forall i :: 0 <= i < |s.stack| ==> !InConnect(s.stack[i])
  }

  ghost function Open(s: State): set<nat> {
    set c | 0 <= c < s.next && c !in s.closed
  }

  /** Only the innermost try runs; the others wait in their onConnect. */
  ghost predicate StackOk(s: State) {
    && (forall i :: 0 <= i < |s.stack| - 1 ==> s.stack[i] == Sending)
    && (s.stack != [] ==> Top(s) != Sending)
  }

  /** A connection that NewConnection has returned and connect has not stored yet. */
  ghost function Raw(s: State): Option<nat> {
    if s.stack == [] then None
    else match Top(s)
      case Streaming(c) => Some(c)
      case Storing(c) => Some(c)
      case _ => None
  }

  ghost predicate ConnOk(s: State) {
    && (s.conn.Some? ==> s.conn.value < s.next)
    && (forall c :: c in s.closed ==> c < s.next)
    && (Raw(s).Some? ==> s.conn.None? && Raw(s).value < s.next)
    && (forall c :: 0 <= c < s.next && c !in s.closed ==> s.conn == Some(c) || Raw(s) == Some(c))
    && (s.stack != [] ==> match Top(s)
        case Connecting => s.conn.None?
        case OnConnect => s.conn.Some?
        case AfterOnConnect(ok) => ok ==> s.conn.Some?
        case Action => s.conn.Some?
        case _ => true)
  }

  ghost predicate StopOk(s: State) {
    && s.stopChan <= STOP_CHAN_CAPACITY
    && (!s.stopFlag || s.closer == Signalling ==> s.stopChan == 0)
    && (s.closer == Marking ==> !s.stopFlag)
    && (s.closer == Signalling || s.closer == Closing ==> s.stopFlag)
    && (s.closeReturned ==> s.stopFlag && s.closer == NoCloser)
    && (s.stopFlag && s.closer == NoCloser && s.conn.Some? && s.conn.value !in s.closed ==>
        s.stack != [] && Top(s) == ConnectFailed)
  }

  ghost predicate Inv(s: State) {
    StackOk(s) && ConnOk(s) && StopOk(s)
  }

  lemma GotoKeepsStack(s: State, pc: Pc)
    requires StackOk(s) && s.stack != [] && pc != Sending
    ensures StackOk(Goto(s, pc)) && Top(Goto(s, pc)) == pc
  {
  }

  lemma ReturnKeepsInv(s: State, ok: bool)
    requires Inv(s) && s.stack != [] && Raw(s).None? && Top(s) != ConnectFailed && (ok ==> s.conn.Some?)
    ensures Inv(Return(s, ok))
  {
  }

  /** Up to the point where a new connection is in hand. */
  lemma DialKeepsInv(s: State, ok: bool)
    requires Inv(s) && s.stack != []
    requires Top(s).TryHead? || Top(s).DoAction? || Top(s).Connecting? || Top(s).Streaming?
    ensures Inv(Work(s, ok))
  {
    if Top(s).TryHead? && s.stopFlag {
      ReturnKeepsInv(s, false);
    }
  }

  /** From there to the end of connect. */
  lemma SetupKeepsInv(s: State, ok: bool)
    requires Inv(s) && s.stack != []
    requires Top(s).Storing? || Top(s).OnConnect? || Top(s).AfterOnConnect? || Top(s).ConnectFailed?
    ensures Inv(Work(s, ok))
  {
  }

  /** The action and what follows when it fails. */
  lemma ActKeepsInv(s: State, ok: bool)
    requires Inv(s) && s.stack != []
    requires Top(s).Action? || Top(s).ActionFailed? || Top(s).TryFailed? || Top(s).Sleeping?
    ensures Inv(Work(s, ok))
  {
    match Top(s) {
      case Action => if ok && !s.stopFlag { ReturnKeepsInv(s, true); } else { GotoKeepsStack(s, ActionFailed); }
      case ActionFailed => GotoKeepsStack(Disconnected(s), TryFailed);
      case TryFailed => if ok { GotoKeepsStack(s, Sleeping); } else { ReturnKeepsInv(s, false); }
      case Sleeping => GotoKeepsStack(s, TryHead);
    }
  }

  lemma WorkKeepsInv(s: State, ok: bool)
    requires Inv(s) && s.stack != []
    ensures Inv(Work(s, ok))
  {
    match Top(s) {
      case TryHead => DialKeepsInv(s, ok);
      case DoAction => DialKeepsInv(s, ok);
      case Connecting => DialKeepsInv(s, ok);
      case Streaming(_) => DialKeepsInv(s, ok);
      case Storing(_) => SetupKeepsInv(s, ok);
      case OnConnect => SetupKeepsInv(s, ok);
      case AfterOnConnect(_) => SetupKeepsInv(s, ok);
      case ConnectFailed => SetupKeepsInv(s, ok);
      case _ => ActKeepsInv(s, ok);
    }
  }

  lemma NextKeepsInv(s: State, step: Step)
    requires Inv(s)
    ensures Inv(Next(s, step))
  {
    if step.WorkerStep? && s.stack != [] {
      WorkKeepsInv(s, step.ok);
    }
  }

  lemma {:induction false} RunKeepsInv(steps: seq<Step>)
    ensures Inv(Run(steps))
  {
    if steps != [] {
      RunKeepsInv(steps[..|steps| - 1]);
      NextKeepsInv(Run(steps[..|steps| - 1]), steps[|steps| - 1]);
    }
  }

  // ---------------------------------------------------------------- the results

  /** In every interleaving at most one connection is open. */
  lemma {:induction false} AtMostOneOpen(steps: seq<Step>)
    ensures |Open(Run(steps))| <= 1
  {
    RunKeepsInv(steps);
    var s := Run(steps);
    if s.conn.Some? {
      SubsetOfOne(Open(s), s.conn.value);
    } else if Raw(s).Some? {
      SubsetOfOne(Open(s), Raw(s).value);
    } else {
      assert Open(s) == {};
    }
  }

  lemma SubsetOfOne(a: set<nat>, x: nat)
    requires forall c :: c in a ==> c == x
    ensures |a| <= 1
  {
    if a != {} {
      assert a == {x};
    }
  }

  /** No leak: once a Close has returned and the worker is outside connect, every connection
      ever opened is closed. */
  lemma {:induction false} NoLeak(steps: seq<Step>)
    ensures var s := Run(steps);
      s.closeReturned && Outside(s) ==> Open(s) == {}
  {
    RunKeepsInv(steps);
    var s := Run(steps);
    if s.stack != [] {
      assert Top(s) == s.stack[|s.stack| - 1];
    }
  }

  /** Close never waits for room in stopChan, and no action runs without a stream. */
  lemma {:induction false} NeverStuckNeverNil(steps: seq<Step>)
    ensures var s := Run(steps);
      && (s.closer == Signalling ==> s.stopChan < STOP_CHAN_CAPACITY)
      && (s.stack != [] && Top(s) == Action ==> s.conn.Some?)
  {
    RunKeepsInv(steps);
  }

  /** The worker can still open a connection after the stop flag is set only if it had already
      passed the check at the head of try. */
  ghost predicate MayOpen(s: State) {
    s.stack != [] && (Top(s) == DoAction || Top(s) == Connecting)
  }

  /** After the stop flag is set at most one more connection is opened, by a worker that had
      already passed the check at the head of try. */
  lemma {:induction false} AtMostOneAfterStop(before: seq<Step>, after: seq<Step>)
    requires Run(before).stopFlag
    ensures Run(before + after).stopFlag
    ensures CanReach(Run(before + after)) <= CanReach(Run(before))
    decreases |after|
  {
    if after == [] {
      assert before + after == before;
    } else {
      var all := before + after;
      var less := before + after[..|after| - 1];
      AtMostOneAfterStop(before, after[..|after| - 1]);
      assert all[..|all| - 1] == less && all[|all| - 1] == after[|after| - 1];
      AfterStopStep(Run(less), after[|after| - 1]);
    }
  }

  /** The number of connections opened so far, counting the one that may be on its way. */
  ghost function CanReach(s: State): nat {
    s.next + if MayOpen(s) then 1 else 0
  }

  lemma AfterStopStep(s: State, step: Step)
    requires s.stopFlag
    ensures Next(s, step).stopFlag && CanReach(Next(s, step)) <= CanReach(s)
  {
    if step.WorkerStep? && s.stack != [] {
      WorkAfterStop(s, step.ok);
    }
  }

  lemma WorkAfterStop(s: State, ok: bool)
    requires s.stopFlag && s.stack != []
    ensures Work(s, ok).stopFlag && CanReach(Work(s, ok)) <= CanReach(s)
  {
    var s' := Work(s, ok);
    match Top(s) {
      case TryHead => ReturnOpensNothing(s, false);
      case DoAction =>
      case Connecting =>
      case OnConnect => assert Top(s') == (if ok then TryHead else AfterOnConnect(false));
      case TryFailed => if !ok { ReturnOpensNothing(s, false); }
      case Action => assert s' == Goto(s, ActionFailed);
      case _ => assert s'.stack == s.stack || !MayOpen(s');
    }
  }

  lemma ReturnOpensNothing(s: State, ok: bool)
    requires s.stack != []
    ensures !MayOpen(Return(s, ok))
  {
  }

  // ---------------------------------------------------------------- what calls return

  /** Over every run: a try ends only with success, by an action that succeeded while the client was not
      stopped, or with an error, when the client is stopped at the head of the loop or the retry policy
      gives up; the caller gets that result, be it the worker or the onConnect around it. */
  lemma {:induction false} TryReturns(steps: seq<Step>, step: Step)
    ensures var s, s' := Run(steps), Next(Run(steps), step);
      if |s'.stack| >= |s.stack| then s'.returned == s.returned
      else
        && step.WorkerStep? && |s'.stack| == |s.stack| - 1
        && (Top(s).Action? || Top(s).TryHead? || Top(s).TryFailed?)
        && (Top(s).Action? ==> step.ok && !s.stopFlag)
        && (Top(s).TryHead? ==> s.stopFlag)
        && (Top(s).TryFailed? ==> !step.ok)
        && (if s'.stack == [] then s'.returned == s.returned + [Top(s).Action?]
            else Top(s') == AfterOnConnect(Top(s).Action?) && s'.returned == s.returned)
  {
    RunKeepsInv(steps);
    if step.WorkerStep? && Run(steps).stack != [] {
      WorkReturns(Run(steps), step.ok);
    }
  }

  lemma WorkReturns(s: State, ok: bool)
    requires s.stack != []
    ensures var s' := Work(s, ok); var ends := Top(s).Action? && ok && !s.stopFlag;
      if ends || (Top(s).TryHead? && s.stopFlag) || (Top(s).TryFailed? && !ok) then s' == Return(s, ends)
      else |s'.stack| >= |s.stack| && s'.returned == s.returned
  {
  }

  /** The action has failed and the worker is about to disconnect, or connection c is closed and will
      not be used again. */
  ghost predicate Dropping(s: State, waiting: seq<Pc>, c: nat) {
    && waiting != [] && waiting[|waiting| - 1] == ActionFailed
    && ((s.stack == waiting && s.conn == Some(c)) || Dropped(s, c))
  }

  ghost predicate Dropped(s: State, c: nat) { c in s.closed && c < s.next && s.conn != Some(c) && Raw(s) != Some(c) }

  lemma DroppedWork(s: State, ok: bool, c: nat)
    requires Inv(s) && s.stack != [] && Dropped(s, c)
    ensures Dropped(Work(s, ok), c)
  {
    WorkReturns(s, ok);
  }

  lemma DroppingWork(s: State, ok: bool, waiting: seq<Pc>, c: nat)
    requires Inv(s) && s.stack != [] && Dropping(s, waiting, c)
    ensures Dropping(Work(s, ok), waiting, c)
  {
    if Dropped(s, c) {
      DroppedWork(s, ok, c);
    }
  }

  lemma DroppingStep(s: State, step: Step, waiting: seq<Pc>, c: nat)
    requires Inv(s) && Dropping(s, waiting, c)
    ensures Dropping(Next(s, step), waiting, c)
  {
    if step.WorkerStep? && s.stack != [] {
      DroppingWork(s, step.ok, waiting, c);
    }
  }

  lemma {:induction false} DroppingRun(steps: seq<Step>, step: Step, waiting: seq<Pc>, c: nat)
    requires Dropping(Run(steps), waiting, c)
    ensures Dropping(Run(steps + [step]), waiting, c)
  {
    RunKeepsInv(steps);
    DroppingStep(Run(steps), step, waiting, c);
    assert (steps + [step])[..|steps|] == steps;
  }

  lemma {:induction false} StaysDropped(before: seq<Step>, more: seq<Step>, waiting: seq<Pc>, c: nat)
    requires Dropping(Run(before), waiting, c)
    ensures Dropping(Run(before + more), waiting, c)
    decreases |more|
  {
    if more == [] {
      assert before + more == before;
    } else {
      DroppingRun(before, more[0], waiting, c);
      StaysDropped(before + [more[0]], more[1..], waiting, c);
      assert before + more == before + [more[0]] + more[1..];
    }
  }

  /** An action that fails costs its connection: whatever happens next, as soon as the worker goes on
      the connection is closed, and it is never used again. */
  lemma {:induction false} FailedActionDisconnects(before: seq<Step>, ok: bool, more: seq<Step>, c: nat)
    requires var s := Run(before); s.stack != [] && Top(s) == Action && (s.stopFlag || !ok) && s.conn == Some(c)
    ensures var s, s' := Run(before), Run(before + [WorkerStep(ok)] + more);
      s'.stack == s.stack[..|s.stack| - 1] + [ActionFailed] || (c in s'.closed && s'.conn != Some(c))
  {
    var s := Run(before);
    var failed := before + [WorkerStep(ok)];
    assert failed[..|failed| - 1] == before;
    assert Run(failed) == Goto(s, ActionFailed);
    StaysDropped(failed, more, s.stack[..|s.stack| - 1] + [ActionFailed], c);
  }

  /** After a failed attempt the worker has no connection until it has made a new one. */
  ghost predicate NothingLeft(s: State) {
    s.stack != [] && (Top(s).TryFailed? || Top(s).Sleeping?) ==> s.conn.None?
  }

  lemma {:induction false} FailureLeavesNothing(steps: seq<Step>)
    ensures NothingLeft(Run(steps))
  {
    if steps != [] {
      FailureLeavesNothing(steps[..|steps| - 1]);
      RunKeepsInv(steps[..|steps| - 1]);
      StepLeavesNothing(Run(steps[..|steps| - 1]), steps[|steps| - 1]);
    }
  }

  lemma StepLeavesNothing(s: State, step: Step)
    requires Inv(s) && NothingLeft(s)
    ensures NothingLeft(Next(s, step))
  {
    if step.WorkerStep? && s.stack != [] {
      WorkLeavesNothing(s, step.ok);
    }
  }

  lemma WorkLeavesNothing(s: State, ok: bool)
    requires Inv(s) && NothingLeft(s) && s.stack != []
    ensures NothingLeft(Work(s, ok))
  {
    WorkReturns(s, ok);
  }

  /** Over every run, disconnecting while no call is under way leaves no connection open. */
  lemma {:induction false} HangupClosesAll(steps: seq<Step>)
    requires Run(steps).stack == [] && Run(steps).closer == NoCloser
    ensures var s := Next(Run(steps), Hangup); s.conn.None? && Open(s) == {}
  {
    RunKeepsInv(steps);
    NextKeepsInv(Run(steps), Hangup);
  }

  // ---------------------------------------------------------------- connections that are set up

  /** The connections whose onConnect has succeeded, with the client not stopped. */
  ghost function SetUp(steps: seq<Step>): set<nat> {
    if steps == [] then {}
    else
      var s, step := Run(steps[..|steps| - 1]), steps[|steps| - 1];
      SetUp(steps[..|steps| - 1]) +
      if step.WorkerStep? && s.stack != [] && Top(s) == AfterOnConnect(true) && !s.stopFlag && s.conn.Some?
      then {s.conn.value} else {}
  }

  /** Outside the onConnect of a connection only such a connection is in use. */
  ghost predicate InUseOk(s: State, done: set<nat>) {
    s.conn.Some? && s.conn.value !in done ==>
      |s.stack| > 1 || (s.stack != [] && (Top(s).OnConnect? || Top(s).AfterOnConnect? || Top(s).ConnectFailed?))
  }

  lemma {:induction false} RunKeepsInUse(steps: seq<Step>)
    ensures InUseOk(Run(steps), SetUp(steps))
  {
    if steps != [] {
      var before := steps[..|steps| - 1];
      RunKeepsInUse(before);
      RunKeepsInv(before);
      StepKeepsInUse(Run(before), steps[|steps| - 1], SetUp(before), SetUp(steps));
    }
  }

  lemma StepKeepsInUse(s: State, step: Step, done: set<nat>, done': set<nat>)
    requires Inv(s) && InUseOk(s, done) && done <= done'
    requires step.WorkerStep? && s.stack != [] && Top(s) == AfterOnConnect(true) && !s.stopFlag && s.conn.Some? ==>
      s.conn.value in done'
    ensures InUseOk(Next(s, step), done')
  {
    if step.WorkerStep? && s.stack != [] {
      WorkKeepsInUse(s, step.ok, done, done');
    }
  }

  lemma WorkKeepsInUse(s: State, ok: bool, done: set<nat>, done': set<nat>)
    requires Inv(s) && s.stack != [] && InUseOk(s, done) && done <= done'
    requires Top(s) == AfterOnConnect(true) && !s.stopFlag && s.conn.Some? ==> s.conn.value in done'
    ensures InUseOk(Work(s, ok), done')
  {
    WorkReturns(s, ok);
  }

  /** The worker's own actions run only on connections that have been set up. */
  lemma {:induction false} ActsOnlyWhenSetUp(steps: seq<Step>)
    ensures var s := Run(steps); s.stack == [Action] ==> s.conn.Some? && s.conn.value in SetUp(steps)
  {
    RunKeepsInUse(steps);
    RunKeepsInv(steps);
  }

  // ---------------------------------------------------------------- progress

  predicate Running(s: State) { !s.stopFlag && s.closer == NoCloser }

  /** The worker's next step leads from a to b. */
  predicate GoesTo(a: State, b: State, ok: bool) { a.stack != [] && b == Work(a, ok) }

  predicate GoesAt(path: seq<State>, i: nat)
    requires i + 1 < |path|
  {
    GoesTo(path[i], path[i + 1], true)
  }

  /** The worker goes from the first to the last of these states, with the network, onConnect and the
      retry policy answering well. */
  ghost predicate IsPath(path: seq<State>) { forall i :: 0 <= i < |path| - 1 ==> GoesAt(path, i) }

  lemma Further(path: seq<State>, s: State)
    requires IsPath(path) && path != [] && GoesTo(path[|path| - 1], s, true)
    ensures IsPath(path + [s])
  {
    var longer := path + [s];
    forall i | 0 <= i < |longer| - 1
      ensures GoesAt(longer, i)
    {
      assert i < |path| - 1 ==> GoesAt(path, i);
    }
  }

  lemma StepAlone(s: State, pc: Pc)
    requires |s.stack| == 1
    ensures Goto(s, pc) == s.(stack := [pc])
  {
  }

  /** A try with a connection acts on it. */
  lemma TriesAction(s: State)
    requires Running(s) && s.stack == [TryHead] && s.conn.Some?
    ensures var s1, s2 := s.(stack := [DoAction]), s.(stack := [Action]);
      GoesTo(s, s1, true) && GoesTo(s1, s2, true) && GoesTo(s2, s.(stack := [], returned := s.returned + [true]), true)
  {
    StepAlone(s, DoAction);
    StepAlone(s.(stack := [DoAction]), Action);
  }

  /** Without one it dials. */
  lemma Dials(s: State)
    requires Running(s) && s.stack == [TryHead] && s.conn.None?
    ensures var s1, s2 := s.(stack := [DoAction]), s.(stack := [Connecting]);
      var s3, s4 := s.(stack := [Streaming(s.next)], next := s.next + 1), s.(stack := [Storing(s.next)], next := s.next + 1);
      GoesTo(s, s1, true) && GoesTo(s1, s2, true) && GoesTo(s2, s3, true) && GoesTo(s3, s4, true)
  {
    StepAlone(s, DoAction);
    StepAlone(s.(stack := [DoAction]), Connecting);
    StepAlone(s.(stack := [Connecting]), Streaming(s.next));
    StepAlone(s.(stack := [Streaming(s.next)], next := s.next + 1), Storing(s.next));
  }

  /** It stores the new connection, and onConnect begins to send. */
  lemma Stores(s: State, c: nat)
    requires Running(s) && s.stack == [Storing(c)]
    ensures var s1, s2 := s.(stack := [OnConnect], conn := Some(c)), s.(stack := [Sending, TryHead], conn := Some(c));
      GoesTo(s, s1, true) && GoesTo(s1, s2, true)
  {
    StepAlone(s, OnConnect);
  }

  /** It sends through the new connection. */
  lemma Sends(s: State)
    requires Running(s) && s.conn.Some? && s.stack == [Sending, TryHead]
    ensures var s1, s2, s3 := s.(stack := [Sending, DoAction]), s.(stack := [Sending, Action]), s.(stack := [AfterOnConnect(true)]);
      GoesTo(s, s1, true) && GoesTo(s1, s2, true) && GoesTo(s2, s3, true)
  {
    assert [Sending, Action][..1] == [Sending] && [Sending][..0] == [];
  }

  /** And then the action is run. */
  lemma ActsWhenSetUp(s: State)
    requires Running(s) && s.stack == [AfterOnConnect(true)]
    ensures var s1 := s.(stack := [Action]);
      GoesTo(s, s1, true) && GoesTo(s1, s.(stack := [], returned := s.returned + [true]), true)
  {
    StepAlone(s, Action);
  }

  /** A call with a connection succeeds on it. */
  lemma ActsOnConnection(s: State) returns (path: seq<State>)
    requires Running(s) && s.stack == [] && s.conn.Some?
    ensures IsPath(path) && |path| == 4 && path[0] == Next(s, Call)
    ensures path[3] == s.(returned := s.returned + [true])
  {
    TriesAction(s.(stack := [TryHead]));
    path := [s.(stack := [TryHead])];
    Further(path, s.(stack := [DoAction]));
    path := path + [s.(stack := [DoAction])];
    Further(path, s.(stack := [Action]));
    path := path + [s.(stack := [Action])];
    Further(path, s.(stack := [], returned := s.returned + [true]));
    path := path + [s.(stack := [], returned := s.returned + [true])];
  }

  lemma DialsAndStores(s: State) returns (path: seq<State>)
    requires Running(s) && s.stack == [TryHead] && s.conn.None?
    ensures IsPath(path) && |path| == 7 && path[0] == s
    ensures path[6] == s.(stack := [Sending, TryHead], conn := Some(s.next), next := s.next + 1)
  {
    var t := s.(next := s.next + 1);
    Dials(s);
    Stores(t.(stack := [Storing(s.next)]), s.next);
    path := [s];
    Further(path, s.(stack := [DoAction]));
    path := path + [s.(stack := [DoAction])];
    Further(path, s.(stack := [Connecting]));
    path := path + [s.(stack := [Connecting])];
    Further(path, t.(stack := [Streaming(s.next)]));
    path := path + [t.(stack := [Streaming(s.next)])];
    Further(path, t.(stack := [Storing(s.next)]));
    path := path + [t.(stack := [Storing(s.next)])];
    Further(path, t.(stack := [OnConnect], conn := Some(s.next)));
    path := path + [t.(stack := [OnConnect], conn := Some(s.next))];
    Further(path, t.(stack := [Sending, TryHead], conn := Some(s.next)));
    path := path + [t.(stack := [Sending, TryHead], conn := Some(s.next))];
  }

  lemma SendsAndActs(s: State) returns (path: seq<State>)
    requires Running(s) && s.stack == [Sending, TryHead] && s.conn.Some?
    ensures IsPath(path) && |path| == 6 && path[0] == s
    ensures path[5] == s.(stack := [], returned := s.returned + [true])
  {
    Sends(s);
    ActsWhenSetUp(s.(stack := [AfterOnConnect(true)]));
    path := [s];
    Further(path, s.(stack := [Sending, DoAction]));
    path := path + [s.(stack := [Sending, DoAction])];
    Further(path, s.(stack := [Sending, Action]));
    path := path + [s.(stack := [Sending, Action])];
    Further(path, s.(stack := [AfterOnConnect(true)]));
    path := path + [s.(stack := [AfterOnConnect(true)])];
    Further(path, s.(stack := [Action]));
    path := path + [s.(stack := [Action])];
    Further(path, s.(stack := [], returned := s.returned + [true]));
    path := path + [s.(stack := [], returned := s.returned + [true])];
  }

  lemma {:induction false} Joined(a: seq<State>, b: seq<State>)
    requires IsPath(a) && IsPath(b) && a != [] && b != [] && a[|a| - 1] == b[0]
    ensures IsPath(a + b[1..])
    decreases |b|
  {
    if |b| == 1 {
      assert a + b[1..] == a;
    } else {
      assert GoesAt(b, 0);
      Further(a, b[1]);
      var rest := b[1..];
      forall i | 0 <= i < |rest| - 1
        ensures GoesAt(rest, i)
      {
        assert GoesAt(b, i + 1);
      }
      Joined(a + [b[1]], rest);
      assert a + b[1..] == a + [b[1]] + rest[1..];
    }
  }

  /** One without a connection makes one, lets onConnect send through it, and then succeeds on it. */
  lemma ConnectsAndActs(s: State) returns (path: seq<State>)
    requires Running(s) && s.stack == [] && s.conn.None?
    ensures IsPath(path) && |path| == 12 && path[0] == Next(s, Call)
    ensures path[11] == s.(returned := s.returned + [true], conn := Some(s.next), next := s.next + 1)
  {
    var a := DialsAndStores(s.(stack := [TryHead]));
    var b := SendsAndActs(a[6]);
    Joined(a, b);
    path := a + b[1..];
  }

  /** A call whose action fails, and which may be retried, gives up its connection and starts again
      without one. */
  lemma RetriesWithoutConnection(s: State, c: nat, ok: bool)
    requires Running(s) && s.stack == [Action] && s.conn == Some(c)
    ensures var dropped := s.(closed := s.closed + {c}, conn := None);
      && GoesTo(s, s.(stack := [ActionFailed]), false)
      && GoesTo(s.(stack := [ActionFailed]), dropped.(stack := [TryFailed]), ok)
      && GoesTo(dropped.(stack := [TryFailed]), dropped.(stack := [Sleeping]), true)
      && GoesTo(dropped.(stack := [Sleeping]), dropped.(stack := [TryHead]), false)
  {
    var dropped := s.(closed := s.closed + {c}, conn := None);
    StepAlone(s, ActionFailed);
    StepAlone(Disconnected(s.(stack := [ActionFailed])), TryFailed);
    StepAlone(dropped.(stack := [TryFailed]), Sleeping);
    StepAlone(dropped.(stack := [Sleeping]), TryHead);
  }
}
