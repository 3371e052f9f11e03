/** The request/response protocol between a chaincode's shim and the peer over one stream, and the
    query iterators the peer opens for a transaction. */
module ShimProtocol {

  /** What a chaincode asks for; the other state requests do not touch iterators. */
  datatype Req = OpenQuery | NextPage(id: nat) | CloseQuery(id: nat) | Other

  /** What the peer answers: an error, since the transaction has no context, the ledger gave no
      iterator, the iterator is not in the table or its page could not be read; a query response
      with the iterator and whether it has more; or the answer to another request. */
  datatype Answer =
    | NoContext
    | NotOpened(c: nat)
    | NotFound(c: nat, it: nat)
    | PageFailed(c: nat, it: nat)
    | Response(c: nat, it: nat, hasMore: bool)
    | Value

  /** The peer's goroutine for a request, once it has its entry in txidMap. c is the transaction
      context it found, it the iterator it works on. */
  datatype Phase =
    | Begun
    | InContext(c: nat)
    | Holding(c: nat, it: nat)   // opened, not yet in the context's table
    | Reading(c: nat, it: nat)   // in the table, getQueryResponse is reading
    | Closed(c: nat, it: nat)    // closed, not yet removed from the table
    | Finishing(a: Answer)       // the reply is ready

  /** Requests and their responses on the way. Sends are goroutines, so there is no order. */
  datatype Place = ToPeer | Spawned | Running(phase: Phase) | Replying(answer: Answer) | ToShim(answer: Answer)

  datatype Flight = Flight(tx: string, req: Req, place: Place)

  /** The shim's response channel of a transaction: its owner waits for the numbered request, or
      has its response and is about to delete the channel. */
  datatype Channel = Waiting(serial: nat) | Delivered(req: Req, answer: Answer)

  datatype Context = Context(tx: string, everOpened: set<nat>, table: set<nat>)

  /** The transaction contexts ever made, the iterators closed, and the number of the next one. */
  datatype Iterators = Iterators(contexts: map<nat, Context>, closed: set<nat>, nextIter: nat)

  /** msgs numbers the requests in the order of their creation. dropped and misdelivered record
      that the peer has dropped a request as a second one for its transaction, and that a
      response has met no channel or the wrong one. */
  datatype State = State(
    alive: bool,
    channels: map<string, Channel>, msgs: map<nat, Flight>, serial: nat,
    txidMap: set<string>,
    ctxOf: map<string, nat>, nextContext: nat, iters: Iterators,
    dropped: bool, misdelivered: bool)

  function Init(): State {
    State(true, map[], map[], 0, {}, map[], 0, Iterators(map[], {}, 0), false, false)
  }

  datatype Step =
    | Request(tx: string, req: Req)   // createChannel and the asynchronous send
    | Receive(n: nat)                 // the peer's stream loop starts a handler goroutine
    | Begin(n: nat)                   // createTXIDEntry
    | Process(n: nat, ok: bool)       // one step of the handler
    | Finish(n: nat)                  // deleteTXIDEntry
    | Reply(n: nat)                   // the response enters the stream
    | Deliver(n: nat)                 // sendChannel
    | Done(tx: string)                // deleteChannel
    | CreateContext(tx: string)
    | DeleteContext(tx: string)       // Execute is over or has timed out
    | Notify(tx: string)              // completion: close the iterators in the table
    | StreamEnd

  predicate At(s: State, n: nat, p: Place) { n in s.msgs && s.msgs[n].place == p }

  function Move(s: State, n: nat, p: Place): State
    requires n in s.msgs
  {
    s.(msgs := s.msgs[n := s.msgs[n].(place := p)])
  }

  /** What a step of a handler does to the iterators. */
  datatype Effect = Nothing | OpenIn(c: nat) | PutIn(c: nat, it: nat) | CloseIt(it: nat) | RemoveFrom(c: nat, it: nat)

  function Perform(i: Iterators, e: Effect): Iterators {
    match e
    case Nothing => i
    case OpenIn(c) =>
      if c !in i.contexts then i
      else i.(contexts := i.contexts[c := i.contexts[c].(everOpened := i.contexts[c].everOpened + {i.nextIter})],
              nextIter := i.nextIter + 1)
    case PutIn(c, it) =>
      if c !in i.contexts then i
      else i.(contexts := i.contexts[c := i.contexts[c].(table := i.contexts[c].table + {it})])
    case CloseIt(it) => i.(closed := i.closed + {it})
    case RemoveFrom(c, it) =>
      if c !in i.contexts then i
      else i.(contexts := i.contexts[c := i.contexts[c].(table := i.contexts[c].table - {it})])
  }

  /** The next step of a handler goroutine; ok is what the ledger answers: for a reader, that the
      page is full and the iterator is kept, and when it has been closed, that its rows were read. */
  function Handle(ctxOf: map<string, nat>, i: Iterators, m: Flight, phase: Phase, ok: bool): (Phase, Effect) {
    match phase
    case Begun => (if m.tx in ctxOf then InContext(ctxOf[m.tx]) else Finishing(NoContext), Nothing)
    case InContext(c) =>
      (match m.req
       case OpenQuery => if ok then (Holding(c, i.nextIter), OpenIn(c)) else (Finishing(NotOpened(c)), Nothing)
       case NextPage(id) => (if InTable(i, c, id) then Reading(c, id) else Finishing(NotFound(c, id)), Nothing)
       case CloseQuery(id) =>
         if InTable(i, c, id) then (Closed(c, id), CloseIt(id)) else (Finishing(Response(c, id, false)), Nothing)
       case Other => (Finishing(Value), Nothing))
    case Holding(c, it) => (Reading(c, it), PutIn(c, it))
    case Reading(c, it) => if ok then (Finishing(Response(c, it, true)), Nothing) else (Closed(c, it), CloseIt(it))
    case Closed(c, it) =>
      (Finishing(if ok || m.req.CloseQuery? then Response(c, it, false) else PageFailed(c, it)), RemoveFrom(c, it))
    case Finishing(a) => (Finishing(a), Nothing)
  }

  predicate InTable(i: Iterators, c: nat, it: nat) { c in i.contexts && it in i.contexts[c].table }

  function ProcessStep(s: State, n: nat, ok: bool): State
    requires n in s.msgs && s.msgs[n].place.Running?
  {
    var (phase, effect) := Handle(s.ctxOf, s.iters, s.msgs[n], s.msgs[n].place.phase, ok);
    Move(s, n, Running(phase)).(iters := Perform(s.iters, effect))
  }

  function Next(s: State, step: Step): State {
    if !s.alive then s
    else
      match step
      case Request(tx, req) =>
        if tx in s.channels then s // "Channel exists"
        else s.(channels := s.channels[tx := Waiting(s.serial)],
                msgs := s.msgs[s.serial := Flight(tx, req, ToPeer)], serial := s.serial + 1)
      case Receive(n) => if At(s, n, ToPeer) then Move(s, n, Spawned) else s
      case Begin(n) =>
        if !At(s, n, Spawned) then s
        else if s.msgs[n].tx in s.txidMap then s.(msgs := s.msgs - {n}, dropped := true)
        else Move(s, n, Running(Begun)).(txidMap := s.txidMap + {s.msgs[n].tx})
      case Process(n, ok) =>
        if n in s.msgs && s.msgs[n].place.Running? then ProcessStep(s, n, ok) else s
      case Finish(n) =>
        if n in s.msgs && s.msgs[n].place.Running? && s.msgs[n].place.phase.Finishing?
        then Move(s, n, Replying(s.msgs[n].place.phase.a)).(txidMap := s.txidMap - {s.msgs[n].tx}) else s
      case Reply(n) =>
        if n in s.msgs && s.msgs[n].place.Replying? then Move(s, n, ToShim(s.msgs[n].place.answer)) else s
      case Deliver(n) =>
        if !(n in s.msgs && s.msgs[n].place.ToShim?) then s
        else
          var tx := s.msgs[n].tx;
          if tx in s.channels && s.channels[tx] == Waiting(n)
          then s.(msgs := s.msgs - {n}, channels := s.channels[tx := Delivered(s.msgs[n].req, s.msgs[n].place.answer)])
          else s.(msgs := s.msgs - {n}, misdelivered := true)
      case Done(tx) =>
        if tx in s.channels && s.channels[tx].Delivered? then s.(channels := s.channels - {tx}) else s
      case CreateContext(tx) =>
        if tx in s.ctxOf then s
        else s.(ctxOf := s.ctxOf[tx := s.nextContext], nextContext := s.nextContext + 1,
                iters := s.iters.(contexts := s.iters.contexts[s.nextContext := Context(tx, {}, {})]))
      case DeleteContext(tx) => s.(ctxOf := s.ctxOf - {tx})
      case Notify(tx) =>
        if tx in s.ctxOf && s.ctxOf[tx] in s.iters.contexts
        then s.(iters := s.iters.(closed := s.iters.closed + s.iters.contexts[s.ctxOf[tx]].table)) else s
      case StreamEnd => s.(alive := false)
  }

  function Run(steps: seq<Step>): State {
    if steps == [] then Init() else Next(Run(steps[..|steps| - 1]), steps[|steps| - 1])
  }

  // ---------------------------------------------------------------- requests and responses

  /** Every request or response on the way is the one its transaction's channel waits for. */
  ghost predicate ProtocolOk(s: State) {
    && (forall n :: n in s.msgs ==> n < s.serial && s.msgs[n].tx in s.channels && s.channels[s.msgs[n].tx] == Waiting(n))
    && (forall tx :: tx in s.channels && s.channels[tx].Waiting? ==>
        s.channels[tx].serial in s.msgs && s.msgs[s.channels[tx].serial].tx == tx)
    && (forall n :: n in s.msgs ==> (s.msgs[n].place.Running? <==> s.msgs[n].tx in s.txidMap))
    && (forall tx :: tx in s.txidMap ==> tx in s.channels && s.channels[tx].Waiting?)
    && !s.dropped && !s.misdelivered
  }

  lemma ProcessKeepsProtocol(s: State, n: nat, ok: bool)
    requires ProtocolOk(s) && n in s.msgs && s.msgs[n].place.Running?
    ensures ProtocolOk(ProcessStep(s, n, ok))
  {
  }

  lemma NextKeepsProtocol(s: State, step: Step)
    requires ProtocolOk(s)
    ensures ProtocolOk(Next(s, step))
  {
    if step.Begin? || step.Process? || step.Finish? {
      WorkKeepsProtocol(s, step);
    } else if step.Deliver? {
      DeliveryKeepsProtocol(s, step.n);
    }
  }

  lemma WorkKeepsProtocol(s: State, step: Step)
    requires ProtocolOk(s) && (step.Begin? || step.Process? || step.Finish?)
    ensures ProtocolOk(Next(s, step))
  {
    if step.Process? && step.n in s.msgs && s.msgs[step.n].place.Running? {
      ProcessKeepsProtocol(s, step.n, step.ok);
    }
  }

  lemma DeliveryKeepsProtocol(s: State, n: nat)
    requires ProtocolOk(s)
    ensures ProtocolOk(Next(s, Deliver(n)))
  {
  }

  lemma {:induction false} RunKeepsProtocol(steps: seq<Step>)
    ensures ProtocolOk(Run(steps))
  {
    if steps != [] {
      RunKeepsProtocol(steps[..|steps| - 1]);
      NextKeepsProtocol(Run(steps[..|steps| - 1]), steps[|steps| - 1]);
    }
  }

  /** In every interleaving each transaction has at most one request or response on the way or in
      work, and only while the shim holds its channel; so the peer never drops a request and every
      response delivered is the answer to the request that is waited for. */
  lemma {:induction false} OneAtATime(steps: seq<Step>, a: nat, b: nat)
    ensures var s := Run(steps);
      && (a in s.msgs ==> s.msgs[a].tx in s.channels && s.channels[s.msgs[a].tx] == Waiting(a))
      && (a in s.msgs && b in s.msgs && s.msgs[a].tx == s.msgs[b].tx ==> a == b)
      && !s.dropped && !s.misdelivered
  {
    RunKeepsProtocol(steps);
  }

  /** Nobody waits in vain: a waiting channel's request is on its way, in work or answered. */
  lemma {:induction false} AnswerOnItsWay(steps: seq<Step>, tx: string)
    ensures var s := Run(steps);
      tx in s.channels && s.channels[tx].Waiting? ==>
      s.channels[tx].serial in s.msgs && s.msgs[s.channels[tx].serial].tx == tx
  {
    RunKeepsProtocol(steps);
  }

  /** The step a request takes next at this place, on whichever side it is. */
  function OwnStep(p: Place, n: nat, ok: bool): Step {
    match p
    case ToPeer => Receive(n)
    case Spawned => Begin(n)
    case Running(phase) => if phase.Finishing? then Finish(n) else Process(n, ok)
    case Replying(_) => Reply(n)
    case ToShim(_) => Deliver(n)
  }

  /** How many of these steps it takes at most until the answer is there. */
  function StepsLeft(p: Place): nat {
    match p
    case ToPeer => 9
    case Spawned => 8
    case Running(phase) =>
      (match phase
       case Begun => 7
       case InContext(_) => 6
       case Holding(_, _) => 5
       case Reading(_, _) => 4
       case Closed(_, _) => 3
       case Finishing(_) => 2)
    case Replying(_) => 1
    case ToShim(_) => 0
  }

  lemma ProcessHelps(s: State, n: nat, ok: bool)
    requires n in s.msgs && s.msgs[n].place.Running? && !s.msgs[n].place.phase.Finishing?
    ensures var s' := ProcessStep(s, n, ok);
      s'.alive == s.alive && s'.channels == s.channels && n in s'.msgs &&
      s'.msgs[n].tx == s.msgs[n].tx && s'.msgs[n].req == s.msgs[n].req &&
      StepsLeft(s'.msgs[n].place) < StepsLeft(s.msgs[n].place)
  {
  }

  lemma OwnStepHelps(s: State, n: nat, ok: bool)
    requires ProtocolOk(s) && s.alive && n in s.msgs
    ensures var p := s.msgs[n].place; var s' := Next(s, OwnStep(p, n, ok));
      && s'.alive
      && (p.ToShim? ==> s.msgs[n].tx in s'.channels && s'.channels[s.msgs[n].tx] == Delivered(s.msgs[n].req, p.answer))
      && (!p.ToShim? ==> s'.channels == s.channels && n in s'.msgs &&
                         s'.msgs[n].tx == s.msgs[n].tx && s'.msgs[n].req == s.msgs[n].req &&
                         StepsLeft(s'.msgs[n].place) < StepsLeft(p))
  {
    if s.msgs[n].place.Running? && !s.msgs[n].place.phase.Finishing? {
      ProcessHelps(s, n, ok);
    }
  }

  /** The shim waits for this request, which is on its way, in work or answered. */
  ghost predicate Awaits(s: State, tx: string, n: nat, req: Req) {
    && s.alive && tx in s.channels && s.channels[tx] == Waiting(n)
    && n in s.msgs && s.msgs[n].tx == tx && s.msgs[n].req == req
  }

  /** The answer to this request is there. */
  ghost predicate HasAnswerTo(s: State, tx: string, req: Req) {
    tx in s.channels && s.channels[tx].Delivered? && s.channels[tx].req == req
  }

  lemma {:induction false} AnswerStep(steps: seq<Step>, tx: string, n: nat, req: Req, ok: bool)
    requires Awaits(Run(steps), tx, n, req)
    ensures var p := Run(steps).msgs[n].place; var s' := Run(steps + [OwnStep(p, n, ok)]);
      if p.ToShim? then HasAnswerTo(s', tx, req)
      else Awaits(s', tx, n, req) && StepsLeft(s'.msgs[n].place) < StepsLeft(p)
  {
    RunKeepsProtocol(steps);
    OwnStepHelps(Run(steps), n, ok);
    var more := steps + [OwnStep(Run(steps).msgs[n].place, n, ok)];
    assert more[..|more| - 1] == steps;
  }

  /** The steps are all of this request. */
  ghost predicate AllOwned(steps: seq<Step>, n: nat, ok: bool) {
    forall i :: 0 <= i < |steps| ==> steps[i] in {Receive(n), Begin(n), Process(n, ok), Finish(n), Reply(n), Deliver(n)}
  }

  lemma {:induction false} AnswerWithin(steps: seq<Step>, tx: string, n: nat, req: Req, ok: bool, k: nat) returns (more: seq<Step>)
    requires Awaits(Run(steps), tx, n, req) && StepsLeft(Run(steps).msgs[n].place) <= k
    ensures |more| <= k + 1 && AllOwned(more, n, ok)
    ensures HasAnswerTo(Run(steps + more), tx, req)
    decreases k
  {
    var p := Run(steps).msgs[n].place;
    AnswerStep(steps, tx, n, req, ok);
    more := [OwnStep(p, n, ok)];
    if !p.ToShim? {
      var rest := AnswerWithin(steps + more, tx, n, req, ok, k - 1);
      assert steps + (more + rest) == steps + more + rest;
      more := more + rest;
    }
  }

  /** Nobody waits for ever: at any point of any run, at most ten steps of the waiting request alone,
      whatever the ledger answers, bring its answer. */
  lemma {:induction false} AnswerArrives(steps: seq<Step>, tx: string, n: nat, ok: bool) returns (more: seq<Step>)
    requires var s := Run(steps); s.alive && tx in s.channels && s.channels[tx] == Waiting(n)
    ensures n in Run(steps).msgs && |more| <= 10 && AllOwned(more, n, ok)
    ensures HasAnswerTo(Run(steps + more), tx, Run(steps).msgs[n].req)
  {
    RunKeepsProtocol(steps);
    more := AnswerWithin(steps, tx, n, Run(steps).msgs[n].req, ok, 9);
  }

  /** A request made while the transaction has no other one is answered like this, and then the
      transaction can make the next one. */
  lemma {:induction false} RequestIsAnswered(steps: seq<Step>, tx: string, req: Req, ok: bool) returns (more: seq<Step>)
    requires Run(steps).alive && tx !in Run(steps).channels
    ensures |more| <= 10 && AllOwned(more, Run(steps).serial, ok)
    ensures var s' := Run(steps + [Request(tx, req)] + more);
      HasAnswerTo(s', tx, req) && (s'.alive ==> tx !in Next(s', Done(tx)).channels)
  {
    var asked := steps + [Request(tx, req)];
    assert asked[..|asked| - 1] == steps;
    more := AnswerWithin(asked, tx, Run(steps).serial, req, ok, 9);
  }

  // ---------------------------------------------------------------- query iterators

  ghost predicate OwnContext(i: Iterators, c: nat, tx: string) { c in i.contexts && i.contexts[c].tx == tx }

  /** The iterator is the one the request is about. */
  ghost predicate ForReq(i: Iterators, req: Req, c: nat, it: nat) {
    match req
    case OpenQuery => c in i.contexts && it in i.contexts[c].everOpened
    case NextPage(id) => it == id
    case CloseQuery(id) => it == id
    case Other => false
  }

  /** An iterator of the context that is not in the table is closed. */
  ghost predicate GoneFor(i: Iterators, c: nat, it: nat) {
    !InTable(i, c, it) && (c in i.contexts && it in i.contexts[c].everOpened ==> it in i.closed)
  }

  /** What an answer to a request means for the iterators. */
  ghost predicate AnswerOk(i: Iterators, tx: string, req: Req, a: Answer) {
    match a
    case NoContext => true
    case NotOpened(c) => OwnContext(i, c, tx) && req == OpenQuery
    case NotFound(c, it) => OwnContext(i, c, tx) && req == NextPage(it) && !InTable(i, c, it)
    case PageFailed(c, it) => OwnContext(i, c, tx) && ForReq(i, req, c, it) && !req.CloseQuery? && GoneFor(i, c, it)
    case Response(c, it, hasMore) =>
      && OwnContext(i, c, tx) && ForReq(i, req, c, it)
      && (if hasMore then InTable(i, c, it) && !req.CloseQuery? else GoneFor(i, c, it))
    case Value => req == Other
  }

  /** The context and iterator a goroutine works with. */
  ghost predicate PhaseOk(i: Iterators, m: Flight, phase: Phase) {
    match phase
    case Begun => true
    case InContext(c) => OwnContext(i, c, m.tx)
    case Holding(c, it) => OwnContext(i, c, m.tx) && it in i.contexts[c].everOpened && m.req == OpenQuery
    case Reading(c, it) =>
      OwnContext(i, c, m.tx) && InTable(i, c, it) && it in i.contexts[c].everOpened && ForReq(i, m.req, c, it) && !m.req.CloseQuery?
    case Closed(c, it) => OwnContext(i, c, m.tx) && it in i.closed && ForReq(i, m.req, c, it)
    case Finishing(a) => AnswerOk(i, m.tx, m.req, a)
  }

  ghost predicate FlightOk(i: Iterators, m: Flight) {
    match m.place
    case Running(phase) => PhaseOk(i, m, phase)
    case Replying(a) => AnswerOk(i, m.tx, m.req, a)
    case ToShim(a) => AnswerOk(i, m.tx, m.req, a)
    case _ => true
  }

  ghost predicate HeldIn(s: State, c: nat, it: nat) {
    exists n :: n in s.msgs && s.msgs[n].place == Running(Holding(c, it))
  }

  /** An iterator a transaction has opened is closed, or in its table, or in the hands of a request
      in work. */
  ghost predicate ContextOk(s: State, c: nat) {
    c in s.iters.contexts ==>
      && s.iters.contexts[c].table <= s.iters.contexts[c].everOpened
      && (forall it :: it in s.iters.contexts[c].everOpened ==> it < s.iters.nextIter)
      && forall it :: it in s.iters.contexts[c].everOpened ==>
          it in s.iters.closed || it in s.iters.contexts[c].table || HeldIn(s, c, it)
  }

  ghost predicate ContextsOf(s: State) {
    && (forall tx :: tx in s.ctxOf ==> OwnContext(s.iters, s.ctxOf[tx], tx))
    && (forall c :: c in s.iters.contexts ==> c < s.nextContext)
  }

  /** What the shim has been told and not yet handed on is so. */
  ghost predicate DeliveredOk(s: State) {
    forall tx :: tx in s.channels && s.channels[tx].Delivered? ==>
      AnswerOk(s.iters, tx, s.channels[tx].req, s.channels[tx].answer)
  }

  ghost predicate IteratorsOk(s: State) {
    && (forall n :: n in s.msgs ==> FlightOk(s.iters, s.msgs[n]))
    && ContextsOf(s) && DeliveredOk(s)
    && (forall c :: ContextOk(s, c))
  }

  lemma {:induction false} RunKeepsIterators(steps: seq<Step>)
    ensures IteratorsOk(Run(steps))
  {
    if steps != [] {
      RunKeepsIterators(steps[..|steps| - 1]);
      RunKeepsProtocol(steps[..|steps| - 1]);
      NextKeepsIterators(Run(steps[..|steps| - 1]), steps[|steps| - 1]);
    }
  }

  /** The contexts of a transaction are as they were, and what was closed is closed. */
  ghost predicate Keeps(i: Iterators, i': Iterators, tx: string) {
    && (forall c :: OwnContext(i, c, tx) ==> c in i'.contexts && i'.contexts[c] == i.contexts[c])
    && i.closed <= i'.closed
  }

  lemma AnswerStays(i: Iterators, i': Iterators, tx: string, req: Req, a: Answer)
    requires Keeps(i, i', tx) && AnswerOk(i, tx, req, a)
    ensures AnswerOk(i', tx, req, a)
  {
    if !a.NoContext? && !a.Value? {
      assert OwnContext(i, a.c, tx);
    }
  }

  lemma FlightStays(i: Iterators, i': Iterators, m: Flight)
    requires Keeps(i, i', m.tx) && FlightOk(i, m)
    ensures FlightOk(i', m)
  {
    match m.place {
      case ToPeer =>
      case Spawned =>
      case Replying(a) => AnswerStays(i, i', m.tx, m.req, a);
      case ToShim(a) => AnswerStays(i, i', m.tx, m.req, a);
      case Running(phase) =>
        if phase.Finishing? {
          AnswerStays(i, i', m.tx, m.req, phase.a);
        } else if !phase.Begun? {
          assert OwnContext(i, phase.c, m.tx);
        }
    }
  }

  /** A request that has an iterator in its hands keeps it. */
  ghost predicate HoldersStay(s: State, s': State) {
    forall n :: n in s.msgs && s.msgs[n].place.Running? && s.msgs[n].place.phase.Holding? ==>
      n in s'.msgs && s'.msgs[n].place == s.msgs[n].place
  }

  lemma StillHeld(s: State, s': State, c: nat)
    requires HoldersStay(s, s')
    ensures forall it :: HeldIn(s, c, it) ==> HeldIn(s', c, it)
  {
  }

  /** Requests are where they were or moved on with their answer; an answer delivered was on its way. */
  ghost predicate MovesOn(s: State, s': State) {
    && (forall n :: n in s'.msgs ==>
        || s'.msgs[n].place in {ToPeer, Spawned, Running(Begun)}
        || (n in s.msgs && (s'.msgs[n] == s.msgs[n] || MovedOn(s.msgs[n], s'.msgs[n]))))
    && forall tx :: tx in s'.channels && s'.channels[tx].Delivered? ==>
        (tx in s.channels && s'.channels[tx] == s.channels[tx]) ||
        exists n :: n in s.msgs && s.msgs[n].tx == tx && DeliveredBy(s.msgs[n], s'.channels[tx])
  }

  predicate MovedOn(m: Flight, m': Flight) {
    && m'.tx == m.tx && m'.req == m.req
    && ((m.place.Running? && m.place.phase.Finishing? && m'.place == Replying(m.place.phase.a))
        || (m.place.Replying? && m'.place == ToShim(m.place.answer)))
  }

  predicate DeliveredBy(m: Flight, ch: Channel) {
    m.place.ToShim? && ch == Delivered(m.req, m.place.answer)
  }

  /** Steps that leave the contexts alone and close at most more iterators. */
  lemma FrameKeepsIterators(s: State, s': State)
    requires IteratorsOk(s)
    requires s'.iters.contexts == s.iters.contexts && s'.iters.nextIter == s.iters.nextIter
    requires s'.nextContext == s.nextContext && s.iters.closed <= s'.iters.closed
    requires forall tx :: tx in s'.ctxOf ==> tx in s.ctxOf && s'.ctxOf[tx] == s.ctxOf[tx]
    requires HoldersStay(s, s') && MovesOn(s, s')
    ensures IteratorsOk(s')
  {
    forall c
      ensures ContextOk(s', c)
    {
      assert ContextOk(s, c);
      StillHeld(s, s', c);
    }
    forall n | n in s'.msgs
      ensures FlightOk(s'.iters, s'.msgs[n])
    {
      if n in s.msgs {
        FlightStays(s.iters, s'.iters, s.msgs[n]);
      }
    }
    FrameKeepsDelivered(s, s');
  }

  lemma FrameKeepsDelivered(s: State, s': State)
    requires DeliveredOk(s) && (forall n :: n in s.msgs ==> FlightOk(s.iters, s.msgs[n]))
    requires s'.iters.contexts == s.iters.contexts && s.iters.closed <= s'.iters.closed && MovesOn(s, s')
    ensures DeliveredOk(s')
  {
    forall tx | tx in s'.channels && s'.channels[tx].Delivered?
      ensures AnswerOk(s'.iters, tx, s'.channels[tx].req, s'.channels[tx].answer)
    {
      AnswerStays(s.iters, s'.iters, tx, s'.channels[tx].req, s'.channels[tx].answer);
    }
  }

  lemma NewContextKeepsIterators(s: State, tx: string)
    requires IteratorsOk(s)
    ensures IteratorsOk(Next(s, CreateContext(tx)))
  {
    var s' := Next(s, CreateContext(tx));
    assert forall t :: Keeps(s.iters, s'.iters, t);
    forall c
      ensures ContextOk(s', c)
    {
      assert ContextOk(s, c);
      StillHeld(s, s', c);
    }
    forall n | n in s'.msgs
      ensures FlightOk(s'.iters, s'.msgs[n])
    {
      FlightStays(s.iters, s'.iters, s.msgs[n]);
    }
    forall t | t in s'.channels && s'.channels[t].Delivered?
      ensures AnswerOk(s'.iters, t, s'.channels[t].req, s'.channels[t].answer)
    {
      AnswerStays(s.iters, s'.iters, t, s.channels[t].req, s.channels[t].answer);
    }
  }

  lemma NextKeepsIterators(s: State, step: Step)
    requires IteratorsOk(s) && ProtocolOk(s)
    ensures IteratorsOk(Next(s, step))
  {
    if step.Process? {
      if s.alive && step.n in s.msgs && s.msgs[step.n].place.Running? {
        ProcessKeepsIterators(s, step.n, step.ok);
      }
    } else if step.CreateContext? {
      NewContextKeepsIterators(s, step.tx);
    } else {
      OnlyMovesOn(s, step);
      OthersLeaveContexts(s, step);
      FrameKeepsIterators(s, Next(s, step));
    }
  }

  lemma OthersLeaveContexts(s: State, step: Step)
    requires !step.Process? && !step.CreateContext?
    ensures var s' := Next(s, step);
      && s'.iters.contexts == s.iters.contexts && s'.iters.nextIter == s.iters.nextIter
      && s'.nextContext == s.nextContext && s.iters.closed <= s'.iters.closed
      && forall tx :: tx in s'.ctxOf ==> tx in s.ctxOf && s'.ctxOf[tx] == s.ctxOf[tx]
  {
  }

  lemma OnlyMovesOn(s: State, step: Step)
    requires ProtocolOk(s) && !step.Process? && !step.CreateContext?
    ensures HoldersStay(s, Next(s, step)) && MovesOn(s, Next(s, step))
  {
    var s' := Next(s, step);
    if step.Deliver? && s.alive && step.n in s.msgs && s.msgs[step.n].place.ToShim? {
      var m := s.msgs[step.n];
      assert s'.channels == s.channels[m.tx := Delivered(m.req, m.place.answer)];
      assert DeliveredBy(m, s'.channels[m.tx]);
    }
  }

  /** The effect of a handler's step is on a context of its own transaction. */
  lemma EffectIsOwn(s: State, n: nat, ok: bool, tx: string)
    requires n in s.msgs && s.msgs[n].place.Running? && FlightOk(s.iters, s.msgs[n]) && tx != s.msgs[n].tx
    ensures Keeps(s.iters, ProcessStep(s, n, ok).iters, tx)
  {
  }

  /** What a handler's step leaves it with. */
  lemma OwnPhase(s: State, n: nat, ok: bool)
    requires IteratorsOk(s) && ProtocolOk(s) && n in s.msgs && s.msgs[n].place.Running?
    ensures FlightOk(ProcessStep(s, n, ok).iters, ProcessStep(s, n, ok).msgs[n])
  {
    var m := s.msgs[n];
    assert FlightOk(s.iters, m);
    if m.place.phase.InContext? {
      assert ContextOk(s, m.place.phase.c);
      if m.req.CloseQuery? {
        NotHeldByOthers(s, n, m.place.phase.c, m.req.id);
      }
    }
  }

  /** While a request of a transaction is in work no other one holds an iterator of its contexts. */
  lemma NotHeldByOthers(s: State, n: nat, c: nat, it: nat)
    requires IteratorsOk(s) && ProtocolOk(s) && n in s.msgs && OwnContext(s.iters, c, s.msgs[n].tx)
    ensures HeldIn(s, c, it) ==> s.msgs[n].place == Running(Holding(c, it))
  {
    if HeldIn(s, c, it) {
      var k :| k in s.msgs && s.msgs[k].place == Running(Holding(c, it));
      assert FlightOk(s.iters, s.msgs[k]);
    }
  }

  lemma ProcessKeepsIterators(s: State, n: nat, ok: bool)
    requires IteratorsOk(s) && ProtocolOk(s) && n in s.msgs && s.msgs[n].place.Running?
    ensures IteratorsOk(ProcessStep(s, n, ok))
  {
    var s' := ProcessStep(s, n, ok);
    assert FlightOk(s.iters, s.msgs[n]);
    forall c
      ensures ContextOk(s', c)
    {
      assert ContextOk(s, c);
      ProcessKeepsContext(s, n, ok, c);
    }
    forall k | k in s'.msgs
      ensures FlightOk(s'.iters, s'.msgs[k])
    {
      if k == n {
        OwnPhase(s, n, ok);
      } else {
        EffectIsOwn(s, n, ok, s.msgs[k].tx);
        FlightStays(s.iters, s'.iters, s.msgs[k]);
      }
    }
    ProcessKeepsDelivered(s, n, ok);
    ProcessKeepsContexts(s, n, ok);
  }

  lemma ProcessKeepsContexts(s: State, n: nat, ok: bool)
    requires ContextsOf(s) && n in s.msgs && s.msgs[n].place.Running?
    ensures ContextsOf(ProcessStep(s, n, ok))
  {
  }

  lemma ProcessKeepsDelivered(s: State, n: nat, ok: bool)
    requires DeliveredOk(s) && ProtocolOk(s) && n in s.msgs && s.msgs[n].place.Running? && FlightOk(s.iters, s.msgs[n])
    ensures DeliveredOk(ProcessStep(s, n, ok))
  {
    var s' := ProcessStep(s, n, ok);
    forall tx | tx in s'.channels && s'.channels[tx].Delivered?
      ensures AnswerOk(s'.iters, tx, s'.channels[tx].req, s'.channels[tx].answer)
    {
      EffectIsOwn(s, n, ok, tx);
      AnswerStays(s.iters, s'.iters, tx, s.channels[tx].req, s.channels[tx].answer);
    }
  }

  /** Other requests keep what they hold, and this one holds what its step leaves it with. */
  lemma HeldAfter(s: State, n: nat, ok: bool, c: nat, it: nat)
    requires n in s.msgs && s.msgs[n].place.Running?
    ensures HeldIn(s, c, it) && s.msgs[n].place != Running(Holding(c, it)) ==> HeldIn(ProcessStep(s, n, ok), c, it)
    ensures Handle(s.ctxOf, s.iters, s.msgs[n], s.msgs[n].place.phase, ok).0 == Holding(c, it) ==>
      HeldIn(ProcessStep(s, n, ok), c, it)
  {
    var s' := ProcessStep(s, n, ok);
    assert s'.msgs[n].place == Running(Handle(s.ctxOf, s.iters, s.msgs[n], s.msgs[n].place.phase, ok).0);
    if HeldIn(s, c, it) && s.msgs[n].place != Running(Holding(c, it)) {
      var k :| k in s.msgs && s.msgs[k].place == Running(Holding(c, it));
      assert s'.msgs[k] == s.msgs[k];
    }
  }

  lemma ProcessKeepsContext(s: State, n: nat, ok: bool, c: nat)
    requires ContextOk(s, c) && n in s.msgs && s.msgs[n].place.Running? && FlightOk(s.iters, s.msgs[n])
    ensures ContextOk(ProcessStep(s, n, ok), c)
  {
    var s' := ProcessStep(s, n, ok);
    if c in s'.iters.contexts {
      forall it | it in s'.iters.contexts[c].everOpened
        ensures it in s'.iters.closed || it in s'.iters.contexts[c].table || HeldIn(s', c, it)
      {
        HeldAfter(s, n, ok, c, it);
      }
    }
  }

  // ---------------------------------------------------------------- what the answers mean

  /** The answer a request has got, on its way back or delivered. */
  predicate Answered(s: State, tx: string, req: Req, a: Answer) {
    || (tx in s.channels && s.channels[tx] == Delivered(req, a))
    || exists n :: n in s.msgs && s.msgs[n].tx == tx && s.msgs[n].req == req &&
        s.msgs[n].place in {Running(Finishing(a)), Replying(a), ToShim(a)}
  }

  /** Over every run, a request that has its answer has done what the answer says: a query response
      with more to come has its iterator in the table, one without has it closed and out of the table;
      a page that could not be read likewise; and an iterator was not found because it was not there. */
  lemma {:induction false} AnswersAreSo(steps: seq<Step>, tx: string, req: Req, a: Answer)
    requires Answered(Run(steps), tx, req, a)
    ensures AnswerOk(Run(steps).iters, tx, req, a)
  {
    RunKeepsIterators(steps);
    var s := Run(steps);
    if !(tx in s.channels && s.channels[tx] == Delivered(req, a)) {
      var n :| n in s.msgs && s.msgs[n].tx == tx && s.msgs[n].req == req &&
        s.msgs[n].place in {Running(Finishing(a)), Replying(a), ToShim(a)};
      assert FlightOk(s.iters, s.msgs[n]);
    }
  }

  predicate Ready(s: State, n: nat, a: Answer) { n in s.msgs && s.msgs[n].place == Running(Finishing(a)) }

  /** And the other errors have their reasons: a request is told that there is no context only if there
      is none, and that no iterator was opened or its page not read only if the ledger failed. */
  lemma ErrorsHaveReasons(s: State, n: nat, ok: bool, a: Answer)
    requires s.alive && !Ready(s, n, a) && Ready(Next(s, Process(n, ok)), n, a)
    ensures a.NoContext? ==> s.msgs[n].tx !in s.ctxOf
    ensures a.NotOpened? || a.PageFailed? ==> !ok
  {
  }

  /** Only requests about iterators touch them. */
  lemma {:induction false} OthersLeaveIterators(steps: seq<Step>, n: nat, ok: bool)
    requires n in Run(steps).msgs && Run(steps).msgs[n].req == Other
    ensures Next(Run(steps), Process(n, ok)).iters == Run(steps).iters
  {
    RunKeepsIterators(steps);
    assert FlightOk(Run(steps).iters, Run(steps).msgs[n]);
  }

  lemma ContextStep(s: State, step: Step, tx: string)
    requires tx in s.ctxOf && step != DeleteContext(tx)
    ensures tx in Next(s, step).ctxOf && Next(s, step).ctxOf[tx] == s.ctxOf[tx]
  {
  }

  /** A transaction gets a context of its own. */
  lemma {:induction false} ContextMade(steps: seq<Step>, tx: string)
    requires Run(steps).alive
    ensures var s, s' := Run(steps), Next(Run(steps), CreateContext(tx));
      tx in s'.ctxOf && forall t :: t in s.ctxOf && t != tx ==> s.ctxOf[t] != s'.ctxOf[tx]
  {
    RunKeepsIterators(steps);
    var s := Run(steps);
    forall t | t in s.ctxOf
      ensures s.ctxOf[t] < s.nextContext && s.iters.contexts[s.ctxOf[t]].tx == t
    {
      assert OwnContext(s.iters, s.ctxOf[t], t);
    }
  }

  /** And has it until that is deleted. */
  lemma {:induction false} ContextLasts(before: seq<Step>, more: seq<Step>, tx: string)
    requires tx in Run(before).ctxOf && DeleteContext(tx) !in more
    ensures tx in Run(before + more).ctxOf && Run(before + more).ctxOf[tx] == Run(before).ctxOf[tx]
  {
    if more == [] {
      assert before + more == before;
    } else {
      var all, last := before + more, |more| - 1;
      assert all[..|all| - 1] == before + more[..last] && all[|all| - 1] == more[last];
      ContextLasts(before, more[..last], tx);
      ContextStep(Run(before + more[..last]), more[last], tx);
    }
  }

  /** The request stays at or behind the point where it has found context c. */
  ghost predicate Tracks(s: State, n: nat, c: nat, id: nat) {
    && n < s.serial && c in s.iters.contexts && id in s.iters.contexts[c].everOpened
    && (n in s.msgs ==>
        && s.msgs[n].req == CloseQuery(id)
        && s.msgs[n].place in {Running(InContext(c)), Running(Closed(c, id)), Running(Finishing(Response(c, id, false))),
                               Replying(Response(c, id, false)), ToShim(Response(c, id, false))})
  }

  lemma TrackStep(s: State, step: Step, n: nat, c: nat, id: nat)
    requires ProtocolOk(s) && ContextsOf(s) && Tracks(s, n, c, id)
    ensures Tracks(Next(s, step), n, c, id)
  {
  }

  lemma {:induction false} StaysTracked(before: seq<Step>, more: seq<Step>, n: nat, c: nat, id: nat)
    requires Tracks(Run(before), n, c, id)
    ensures Tracks(Run(before + more), n, c, id)
  {
    if more == [] {
      assert before + more == before;
    } else {
      var all, last := before + more, |more| - 1;
      assert all[..|all| - 1] == before + more[..last] && all[|all| - 1] == more[last];
      StaysTracked(before, more[..last], n, c, id);
      RunKeepsProtocol(before + more[..last]);
      RunKeepsIterators(before + more[..last]);
      TrackStep(Run(before + more[..last]), more[last], n, c, id);
    }
  }

  predicate HasAnswer(m: Flight) {
    (m.place.Running? && m.place.phase.Finishing?) || m.place.Replying? || m.place.ToShim?
  }

  /** A request to close an iterator that it finds in its context's table: whatever else happens, when
      it has its answer the iterator is closed and out of the table. */
  lemma {:induction false} CloseQueryCloses(before: seq<Step>, more: seq<Step>, n: nat, c: nat, id: nat)
    requires var s := Run(before);
      n in s.msgs && s.msgs[n].req == CloseQuery(id) && s.msgs[n].place == Running(InContext(c)) && InTable(s.iters, c, id)
    ensures var s := Run(before + more);
      n in s.msgs && HasAnswer(s.msgs[n]) ==> id in s.iters.closed && !InTable(s.iters, c, id)
  {
    RunKeepsProtocol(before);
    RunKeepsIterators(before);
    assert ContextOk(Run(before), c);
    StaysTracked(before, more, n, c, id);
    RunKeepsIterators(before + more);
    var s := Run(before + more);
    if n in s.msgs && HasAnswer(s.msgs[n]) {
      assert FlightOk(s.iters, s.msgs[n]);
    }
  }

  /** A reader of a page, asked for by opening a query or for the next page: it keeps its iterator
      exactly if the page is full, and otherwise its next step leaves it closed and out of the table. */
  lemma {:induction false} PageKeepsOrCloses(steps: seq<Step>, n: nat, c: nat, it: nat, full: bool, ok: bool)
    requires var s := Run(steps); s.alive && n in s.msgs && s.msgs[n].place == Running(Reading(c, it))
    ensures var s' := Next(Run(steps), Process(n, full));
      if full then Ready(s', n, Response(c, it, true)) && InTable(s'.iters, c, it)
      else
        var s'' := Next(s', Process(n, ok));
        && it in s'.iters.closed && it in s''.iters.closed && !InTable(s''.iters, c, it)
        && Ready(s'', n, if ok then Response(c, it, false) else PageFailed(c, it))
  {
    RunKeepsIterators(steps);
    assert FlightOk(Run(steps).iters, Run(steps).msgs[n]);
  }

  /** A new query: a fresh iterator, which is in the table when its first page is read. */
  lemma {:induction false} OpenPutsInTable(steps: seq<Step>, n: nat, c: nat, ok: bool)
    requires var s := Run(steps);
      s.alive && n in s.msgs && s.msgs[n].place == Running(InContext(c)) && s.msgs[n].req == OpenQuery
    ensures var s, it := Run(steps), Run(steps).iters.nextIter;
      var s' := Next(Next(s, Process(n, true)), Process(n, ok));
      && s'.msgs[n].place == Running(Reading(c, it)) && InTable(s'.iters, c, it)
      && forall d :: d in s.iters.contexts ==> it !in s.iters.contexts[d].everOpened
  {
    RunKeepsIterators(steps);
    var s := Run(steps);
    assert FlightOk(s.iters, s.msgs[n]);
    forall d | d in s.iters.contexts
      ensures s.iters.nextIter !in s.iters.contexts[d].everOpened
    {
      assert ContextOk(s, d);
    }
  }

  /** The transaction a step works for. */
  function TxOf(s: State, step: Step): string {
    match step
    case Process(n, _) => if n in s.msgs then s.msgs[n].tx else ""
    case Notify(tx) => tx
    case _ => ""
  }

  /** An iterator is closed only on behalf of the transaction that has opened it. */
  lemma {:induction false} ClosedByItsOwner(steps: seq<Step>, step: Step, it: nat)
    requires var s := Run(steps); it !in s.iters.closed && it in Next(s, step).iters.closed
    ensures var s := Run(steps);
      exists c :: OwnContext(s.iters, c, TxOf(s, step)) && it in s.iters.contexts[c].everOpened
  {
    RunKeepsIterators(steps);
    var s := Run(steps);
    if step.Process? {
      var m := s.msgs[step.n];
      assert FlightOk(s.iters, m);
      assert ContextOk(s, m.place.phase.c);
      assert OwnContext(s.iters, m.place.phase.c, m.tx);
    } else {
      assert step.Notify? && OwnContext(s.iters, s.ctxOf[step.tx], step.tx);
      assert ContextOk(s, s.ctxOf[step.tx]);
    }
  }

  /** An iterator leaves a transaction's table only when it has been closed. */
  lemma {:induction false} RemovedOnlyClosed(steps: seq<Step>, step: Step, c: nat, it: nat)
    requires var s := Run(steps); InTable(s.iters, c, it) && !InTable(Next(s, step).iters, c, it)
    ensures it in Next(Run(steps), step).iters.closed
  {
    RunKeepsIterators(steps);
    OnlyClosedLeave(Run(steps), step, c, it);
  }

  lemma OnlyClosedLeave(s: State, step: Step, c: nat, it: nat)
    requires IteratorsOk(s)
    ensures InTable(s.iters, c, it) && !InTable(Next(s, step).iters, c, it) ==> it in Next(s, step).iters.closed
  {
    if step.Process? {
      if s.alive && step.n in s.msgs && s.msgs[step.n].place.Running? {
        assert FlightOk(s.iters, s.msgs[step.n]);
      }
    } else if !step.CreateContext? {
      OthersLeaveContexts(s, step);
    }
  }

  ghost predicate InWork(s: State, tx: string) {
    exists n :: n in s.msgs && s.msgs[n].tx == tx && s.msgs[n].place.Running?
  }

  /** After this completion of a transaction every iterator it ever opened is closed. */
  ghost predicate AllClosedBy(s: State, tx: string) {
    && tx in s.ctxOf && s.ctxOf[tx] in s.iters.contexts
    && s.iters.contexts[s.ctxOf[tx]].everOpened <= Next(s, Notify(tx)).iters.closed
  }

  /** When completion is notified while no request of the transaction is in work, every iterator
      it ever opened is closed. */
  lemma {:induction false} NotifyClosesAll(steps: seq<Step>, tx: string)
    requires var s := Run(steps); s.alive && tx in s.ctxOf && !InWork(s, tx)
    ensures AllClosedBy(Run(steps), tx)
  {
    RunKeepsIterators(steps);
    var s := Run(steps);
    var c := s.ctxOf[tx];
    assert ContextOk(s, c);
    forall it | it in s.iters.contexts[c].everOpened
      ensures it in Next(s, Notify(tx)).iters.closed
    {
      HolderInWork(s, c, it);
    }
  }

  lemma HolderInWork(s: State, c: nat, it: nat)
    requires IteratorsOk(s) && c in s.iters.contexts
    ensures HeldIn(s, c, it) ==> InWork(s, s.iters.contexts[c].tx)
  {
    if HeldIn(s, c, it) {
      var n :| n in s.msgs && s.msgs[n].place == Running(Holding(c, it));
      assert FlightOk(s.iters, s.msgs[n]);
    }
  }

  /** In particular when the shim holds no channel for the transaction, that is, when the
      chaincode has returned from all its calls. */
  lemma {:induction false} CompletionClosesAll(steps: seq<Step>, tx: string)
    requires var s := Run(steps); s.alive && tx in s.ctxOf && tx !in s.channels
    ensures AllClosedBy(Run(steps), tx)
  {
    RunKeepsProtocol(steps);
    NotifyClosesAll(steps, tx);
  }
}
