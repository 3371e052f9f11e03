/** The reference-counted lock of each container: lock objects are made on demand and dropped with
    their last user, while any number of goroutines run VMCProcess. */
module ContainerLocks {
  import opened Common

  /** Where a goroutine is. lock is the object it has found in containerLocks. */
  datatype Pc =
    | Idle
    | WantLock(id: string)                  // lockContainer: waiting for the global lock
    | Looking(id: string)                   // has it
    | Registered(id: string, lock: nat)     // has made or counted up the entry
    | Waiting(id: string, lock: nat)        // released the global lock, waits for the container lock
    | Working(id: string, lock: nat)        // req.do
    | WantUnlock(id: string, lock: nat)     // unlockContainer: waiting for the global lock
    | Unlocking(id: string, lock: nat)      // has it, the container lock is still locked
    | Released(id: string, lock: nat)       // has unlocked the container lock
    | Leaving                               // has counted down, still has the global lock

  datatype RefCountedLock = RefCountedLock(refCount: int, locked: bool)

  datatype Fault = Panic | NoLockToUnlock | UnlockOfUnlocked

  /** locks is the heap of lock objects; a fault records that a branch was taken that should not be. */
  datatype State = State(
    pcs: map<nat, Pc>, global: bool,
    containerLocks: map<string, nat>, locks: map<nat, RefCountedLock>, next: nat,
    faults: set<Fault>)

  function Init(): State { State(map[], false, map[], map[], 0, {}) }

  function PcOf(s: State, t: nat): Pc { if t in s.pcs then s.pcs[t] else Idle }

  function At(s: State, t: nat, pc: Pc): State { s.(pcs := s.pcs[t := pc]) }

  function LockOf(s: State, l: nat): RefCountedLock {
    if l in s.locks then s.locks[l] else RefCountedLock(0, false)
  }

  /** lockContainer's lookup, under the global lock. */
  function Register(s: State, t: nat, id: string): State {
    if id in s.containerLocks then CountUp(s, t, id, s.containerLocks[id]) else MakeLock(s, t, id)
  }

  function CountUp(s: State, t: nat, id: string, l: nat): State {
    At(s, t, Registered(id, l)).(locks := s.locks[l := LockOf(s, l).(refCount := LockOf(s, l).refCount + 1)])
  }

  function MakeLock(s: State, t: nat, id: string): State {
    At(s, t, Registered(id, s.next)).(
      containerLocks := s.containerLocks[id := s.next],
      locks := s.locks[s.next := RefCountedLock(1, false)], next := s.next + 1)
  }

  function Take(s: State, t: nat, id: string, l: nat): State {
    At(s, t, Working(id, l)).(locks := s.locks[l := LockOf(s, l).(locked := true)])
  }

  /** unlockContainer's lookup, under the global lock; the object found may differ from the one
      the goroutine locked. */
  function Unlock(s: State, t: nat, id: string): State {
    if id !in s.containerLocks then At(s, t, Leaving).(faults := s.faults + {NoLockToUnlock})
    else
      var l := s.containerLocks[id];
      if LockOf(s, l).refCount <= 0 then At(s, t, Leaving).(faults := s.faults + {Panic})
      else if !LockOf(s, l).locked then At(s, t, Leaving).(faults := s.faults + {UnlockOfUnlocked})
      else At(s, t, Released(id, l)).(locks := s.locks[l := LockOf(s, l).(locked := false)])
  }

  function CountDown(s: State, t: nat, id: string, l: nat): State {
    var left := LockOf(s, l).refCount - 1;
    var s1 := At(s, t, Leaving).(locks := s.locks[l := LockOf(s, l).(refCount := left)]);
    if left == 0 then s1.(containerLocks := s.containerLocks - {id}) else s1
  }

  /** Where a step that does not touch the container locks leads, and what becomes of the global
      lock; a goroutine that has to wait for it stays where it is. */
  function Flow(pc: Pc, global: bool, id: string): (Pc, bool) {
    match pc
    case Idle => (WantLock(id), global)
    case WantLock(i) => if global then (pc, true) else (Looking(i), true)
    case Registered(i, l) => (Waiting(i, l), false)
    case Working(i, l) => (WantUnlock(i, l), global)
    case WantUnlock(i, l) => if global then (pc, true) else (Unlocking(i, l), true)
    case Leaving => (Idle, false)
    case _ => (pc, global)
  }

  function Move(s: State, t: nat, to: (Pc, bool)): State { At(s, t, to.0).(global := to.1) }

  /** One step of goroutine t, if it can take one; an idle one starts a request for container id. */
  function Next(s: State, t: nat, id: string): State {
    match PcOf(s, t)
    case Looking(i) => Register(s, t, i)
    case Waiting(i, l) => if LockOf(s, l).locked then s else Take(s, t, i, l)
    case Unlocking(i, l) => Unlock(s, t, i)
    case Released(i, l) => CountDown(s, t, i, l)
    case _ => Move(s, t, Flow(PcOf(s, t), s.global, id))
  }

  datatype Turn = Turn(thread: nat, id: string)

  function Run(turns: seq<Turn>): State {
    if turns == [] then Init()
    else
      var last := turns[|turns| - 1];
      Next(Run(turns[..|turns| - 1]), last.thread, last.id)
  }

  // ---------------------------------------------------------------- the invariant

  predicate InGlobal(pc: Pc) {
    pc.Looking? || pc.Registered? || pc.Unlocking? || pc.Released? || pc.Leaving?
  }

  /** Counts in the reference count. */
  predicate Counted(pc: Pc) {
    pc.Registered? || pc.Waiting? || pc.Working? || pc.WantUnlock? || pc.Unlocking? || pc.Released?
  }

  /** Has the container lock. */
  predicate Holds(pc: Pc) { pc.Working? || pc.WantUnlock? || pc.Unlocking? }

  ghost predicate Uses(s: State, t: nat, l: nat) { Counted(PcOf(s, t)) && PcOf(s, t).lock == l }

  ghost predicate Owns(s: State, t: nat, l: nat) { Holds(PcOf(s, t)) && PcOf(s, t).lock == l }

  ghost function Users(s: State, l: nat): set<nat> { set t | t in s.pcs && Uses(s, t, l) }

  /** The global lock has one owner. */
  ghost predicate GlobalOk(s: State) {
    && (forall t :: InGlobal(PcOf(s, t)) ==> s.global)
    && (forall t, u :: InGlobal(PcOf(s, t)) && InGlobal(PcOf(s, u)) ==> t == u)
    && (s.global ==> exists t :: InGlobal(PcOf(s, t)))
  }

  /** Everyone who waits for or has a container's lock means the object in the table. */
  ghost predicate TableOk(s: State) {
    && (forall id :: id in s.containerLocks ==> s.containerLocks[id] < s.next)
    && (forall i, j :: i in s.containerLocks && j in s.containerLocks && s.containerLocks[i] == s.containerLocks[j] ==> i == j)
    && (forall t :: Counted(PcOf(s, t)) ==>
        PcOf(s, t).id in s.containerLocks && s.containerLocks[PcOf(s, t).id] == PcOf(s, t).lock)
  }

  /** The count is the number of those, and positive. */
  ghost predicate CountOk(s: State, l: nat) { LockOf(s, l).refCount == |Users(s, l)| > 0 }

  /** A lock is locked exactly while one goroutine owns it. */
  ghost predicate LockedOk(s: State, l: nat) {
    && (forall t :: Owns(s, t, l) ==> LockOf(s, l).locked)
    && (forall t, u :: Owns(s, t, l) && Owns(s, u, l) ==> t == u)
    && (LockOf(s, l).locked ==> exists t :: Owns(s, t, l))
  }

  ghost predicate EntriesOk(s: State) {
    forall id :: id in s.containerLocks ==> CountOk(s, s.containerLocks[id]) && LockedOk(s, s.containerLocks[id])
  }

  ghost predicate LocksOk(s: State) { TableOk(s) && EntriesOk(s) && s.faults == {} }

  ghost predicate Inv(s: State) { GlobalOk(s) && LocksOk(s) }

  ghost predicate OnlyMoves(s: State, s': State, t: nat) {
    && (forall u :: u != t ==> PcOf(s', u) == PcOf(s, u))
    && (forall u :: u != t ==> (u in s'.pcs <==> u in s.pcs))
  }

  lemma OthersStay(s: State, t: nat, id: string)
    ensures OnlyMoves(s, Next(s, t, id), t)
  {
    var pc := PcOf(s, t);
    if pc.Looking? || pc.Waiting? || pc.Unlocking? || pc.Released? {
      LockStepMoves(s, t, pc.id);
    } else {
      AtMoves(s, Next(s, t, id), t, Flow(pc, s.global, id).0);
    }
  }

  lemma AtMoves(s: State, s': State, t: nat, pc: Pc)
    requires s'.pcs == s.pcs[t := pc]
    ensures OnlyMoves(s, s', t)
  {
  }

  /** The steps that touch the container locks. */
  lemma LockStepMoves(s: State, t: nat, id: string)
    requires var pc := PcOf(s, t); pc.Looking? || pc.Waiting? || pc.Unlocking? || pc.Released?
    ensures OnlyMoves(s, Next(s, t, id), t)
  {
    var pc := PcOf(s, t);
    if pc.Looking? {
      RegisterMoves(s, t, pc.id);
    } else if pc.Waiting? {
      AtMoves(s, Take(s, t, pc.id, pc.lock), t, Working(pc.id, pc.lock));
    } else if pc.Unlocking? {
      UnlockMoves(s, t, pc.id);
    } else {
      AtMoves(s, CountDown(s, t, pc.id, pc.lock), t, Leaving);
    }
  }

  lemma RegisterMoves(s: State, t: nat, id: string)
    ensures OnlyMoves(s, Register(s, t, id), t)
  {
    AtMoves(s, Register(s, t, id), t, Registered(id, if id in s.containerLocks then s.containerLocks[id] else s.next));
  }

  lemma UnlockMoves(s: State, t: nat, id: string)
    ensures OnlyMoves(s, Unlock(s, t, id), t)
  {
    var released := id in s.containerLocks && LockOf(s, s.containerLocks[id]).refCount > 0 && LockOf(s, s.containerLocks[id]).locked;
    AtMoves(s, Unlock(s, t, id), t, if released then Released(id, s.containerLocks[id]) else Leaving);
  }

  lemma KeepsGlobal(s: State, t: nat, id: string)
    requires GlobalOk(s)
    ensures GlobalOk(Next(s, t, id))
  {
    OthersStay(s, t, id);
    var s' := Next(s, t, id);
    GlobalChange(s, t, id);
    if s'.global && !InGlobal(PcOf(s', t)) {
      var u :| InGlobal(PcOf(s, u));
      assert InGlobal(PcOf(s', u));
    }
    forall u | InGlobal(PcOf(s', u)) && u != t
      ensures s'.global && !InGlobal(PcOf(s', t))
    {
      assert InGlobal(PcOf(s, u));
    }
  }

  lemma GlobalChange(s: State, t: nat, id: string)
    ensures var s' := Next(s, t, id);
      && (InGlobal(PcOf(s', t)) ==> InGlobal(PcOf(s, t)) || !s.global)
      && (!InGlobal(PcOf(s, t)) && !InGlobal(PcOf(s', t)) ==> s'.global == s.global)
      && (InGlobal(PcOf(s, t)) && !InGlobal(PcOf(s', t)) ==> !s'.global)
      && (InGlobal(PcOf(s', t)) ==> s'.global == (s.global || !InGlobal(PcOf(s, t))))
  {
  }

  lemma CountMove(a: set<nat>, b: set<nat>, t: nat)
    requires a - {t} == b - {t}
    ensures |b| == |a| + (if t in b then 1 else 0) - (if t in a then 1 else 0)
  {
    assert a == if t in a then (a - {t}) + {t} else a - {t};
    assert b == if t in b then (b - {t}) + {t} else b - {t};
  }

  function One(b: bool): int { if b then 1 else 0 }

  lemma CountKept(s: State, s': State, t: nat, l: nat)
    requires OnlyMoves(s, s', t) && LockOf(s, l).refCount == |Users(s, l)|
    requires LockOf(s', l).refCount == LockOf(s, l).refCount + One(Uses(s', t, l)) - One(Uses(s, t, l)) > 0
    ensures CountOk(s', l)
  {
    CountMove(Users(s, l), Users(s', l), t);
  }

  /** A lock that goroutine t neither takes nor gives back. */
  lemma LockedKept(s: State, s': State, t: nat, l: nat)
    requires OnlyMoves(s, s', t) && LockedOk(s, l)
    requires LockOf(s', l).locked == LockOf(s, l).locked && (Owns(s', t, l) <==> Owns(s, t, l))
    ensures LockedOk(s', l)
  {
    assert forall u :: Owns(s', u, l) <==> Owns(s, u, l);
  }

  lemma MoveKeeps(s: State, t: nat, to: (Pc, bool))
    requires LocksOk(s) && SameUse(PcOf(s, t), to.0)
    ensures LocksOk(Move(s, t, to))
  {
    var s' := Move(s, t, to);
    assert OnlyMoves(s, s', t);
    forall i | i in s'.containerLocks
      ensures CountOk(s', s'.containerLocks[i]) && LockedOk(s', s'.containerLocks[i])
    {
      CountKept(s, s', t, s'.containerLocks[i]);
      LockedKept(s, s', t, s'.containerLocks[i]);
    }
  }

  predicate SameUse(pc: Pc, pc': Pc) {
    && Counted(pc') == Counted(pc) && Holds(pc') == Holds(pc)
    && (Counted(pc) ==> pc'.id == pc.id && pc'.lock == pc.lock)
  }

  lemma CountUpKeeps(s: State, t: nat, id: string)
    requires LocksOk(s) && PcOf(s, t) == Looking(id) && id in s.containerLocks
    ensures LocksOk(CountUp(s, t, id, s.containerLocks[id]))
  {
    var s' := CountUp(s, t, id, s.containerLocks[id]);
    assert OnlyMoves(s, s', t);
    forall i | i in s'.containerLocks
      ensures CountOk(s', s'.containerLocks[i]) && LockedOk(s', s'.containerLocks[i])
    {
      CountKept(s, s', t, s'.containerLocks[i]);
      LockedKept(s, s', t, s'.containerLocks[i]);
    }
  }

  lemma MakeLockKeepsTable(s: State, t: nat, id: string)
    requires TableOk(s) && PcOf(s, t) == Looking(id) && id !in s.containerLocks
    ensures TableOk(MakeLock(s, t, id))
  {
    assert OnlyMoves(s, MakeLock(s, t, id), t);
  }

  lemma MakeLockKeeps(s: State, t: nat, id: string)
    requires LocksOk(s) && PcOf(s, t) == Looking(id) && id !in s.containerLocks
    ensures LocksOk(MakeLock(s, t, id))
  {
    var s' := MakeLock(s, t, id);
    MakeLockKeepsTable(s, t, id);
    assert OnlyMoves(s, s', t);
    NewEntry(s, t, id);
    forall i | i in s.containerLocks
      ensures CountOk(s', s.containerLocks[i]) && LockedOk(s', s.containerLocks[i])
    {
      CountKept(s, s', t, s.containerLocks[i]);
      LockedKept(s, s', t, s.containerLocks[i]);
    }
  }

  lemma NewEntry(s: State, t: nat, id: string)
    requires TableOk(s) && PcOf(s, t) == Looking(id)
    ensures CountOk(MakeLock(s, t, id), s.next) && LockedOk(MakeLock(s, t, id), s.next)
  {
    var s' := MakeLock(s, t, id);
    forall u
      ensures Uses(s', u, s.next) <==> u == t
      ensures !Owns(s', u, s.next)
    {
      assert u != t ==> PcOf(s', u) == PcOf(s, u);
    }
    assert Users(s', s.next) == {t};
  }

  lemma TakeKeeps(s: State, t: nat, id: string, l: nat)
    requires LocksOk(s) && PcOf(s, t) == Waiting(id, l) && !LockOf(s, l).locked
    ensures LocksOk(Take(s, t, id, l))
  {
    var s' := Take(s, t, id, l);
    assert OnlyMoves(s, s', t);
    forall i | i in s'.containerLocks
      ensures CountOk(s', s'.containerLocks[i]) && LockedOk(s', s'.containerLocks[i])
    {
      var k := s'.containerLocks[i];
      CountKept(s, s', t, k);
      if k == l {
        assert forall u :: u != t ==> Owns(s', u, k) == Owns(s, u, k);
        assert Owns(s', t, l);
      } else {
        LockedKept(s, s', t, k);
      }
    }
  }

  /** Unlocking finds the object that was locked: no branch is taken that should not be. */
  lemma UnlockFinds(s: State, t: nat, id: string, l: nat)
    requires LocksOk(s) && PcOf(s, t) == Unlocking(id, l)
    ensures Unlock(s, t, id) == At(s, t, Released(id, l)).(locks := s.locks[l := LockOf(s, l).(locked := false)])
    ensures LockedOk(s, l)
  {
    assert Owns(s, t, l);
    assert CountOk(s, s.containerLocks[id]);
  }

  lemma UnlockKeeps(s: State, t: nat, id: string, l: nat)
    requires LocksOk(s) && PcOf(s, t) == Unlocking(id, l)
    ensures LocksOk(Unlock(s, t, id))
  {
    var s' := Unlock(s, t, id);
    UnlockFinds(s, t, id, l);
    assert OnlyMoves(s, s', t);
    forall i | i in s'.containerLocks
      ensures CountOk(s', s'.containerLocks[i]) && LockedOk(s', s'.containerLocks[i])
    {
      var k := s'.containerLocks[i];
      CountKept(s, s', t, k);
      if k == l {
        assert Owns(s, t, l);
        assert forall u :: u != t ==> Owns(s', u, k) == Owns(s, u, k);
        assert forall u :: !Owns(s', u, l);
      } else {
        LockedKept(s, s', t, k);
      }
    }
  }

  /** The entry goes only with its last user. */
  lemma LastUser(s: State, t: nat, u: nat, l: nat)
    requires Uses(s, t, l) && Uses(s, u, l) && |Users(s, l)| == 1
    ensures t == u
  {
    var users := Users(s, l);
    assert t in users && u in users;
    CountMove(users, users - {t}, t);
    assert users - {t} == {};
  }

  lemma CountDownKeepsTable(s: State, t: nat, id: string, l: nat)
    requires LocksOk(s) && PcOf(s, t) == Released(id, l)
    ensures TableOk(CountDown(s, t, id, l))
  {
    var s' := CountDown(s, t, id, l);
    assert OnlyMoves(s, s', t);
    assert Uses(s, t, l);
    assert CountOk(s, s.containerLocks[id]);
    forall u | Counted(PcOf(s', u))
      ensures PcOf(s', u).id in s'.containerLocks && s'.containerLocks[PcOf(s', u).id] == PcOf(s', u).lock
    {
      assert Counted(PcOf(s, u));
      if PcOf(s, u).id == id && LockOf(s, l).refCount == 1 {
        LastUser(s, t, u, l);
      }
    }
  }

  lemma CountDownEntry(s: State, t: nat, id: string, l: nat, k: nat)
    requires PcOf(s, t) == Released(id, l) && CountOk(s, k) && LockedOk(s, k)
    requires k == l ==> LockOf(s, l).refCount != 1
    ensures CountOk(CountDown(s, t, id, l), k) && LockedOk(CountDown(s, t, id, l), k)
  {
    var s' := CountDown(s, t, id, l);
    assert OnlyMoves(s, s', t);
    CountKept(s, s', t, k);
    LockedKept(s, s', t, k);
  }

  lemma CountDownKeeps(s: State, t: nat, id: string, l: nat)
    requires LocksOk(s) && PcOf(s, t) == Released(id, l)
    ensures LocksOk(CountDown(s, t, id, l))
  {
    var s' := CountDown(s, t, id, l);
    CountDownKeepsTable(s, t, id, l);
    forall i | i in s'.containerLocks
      ensures CountOk(s', s'.containerLocks[i]) && LockedOk(s', s'.containerLocks[i])
    {
      CountDownEntry(s, t, id, l, s.containerLocks[i]);
    }
  }

  lemma FlowKeepsUse(pc: Pc, global: bool, id: string)
    ensures SameUse(pc, Flow(pc, global, id).0)
  {
  }

  lemma KeepsLocks(s: State, t: nat, id: string)
    requires LocksOk(s)
    ensures LocksOk(Next(s, t, id))
  {
    var pc := PcOf(s, t);
    if pc.Looking? {
      if pc.id in s.containerLocks {
        CountUpKeeps(s, t, pc.id);
      } else {
        MakeLockKeeps(s, t, pc.id);
      }
    } else if pc.Waiting? {
      if !LockOf(s, pc.lock).locked {
        TakeKeeps(s, t, pc.id, pc.lock);
      }
    } else if pc.Unlocking? {
      UnlockKeeps(s, t, pc.id, pc.lock);
    } else if pc.Released? {
      CountDownKeeps(s, t, pc.id, pc.lock);
    } else {
      FlowKeepsUse(pc, s.global, id);
      MoveKeeps(s, t, Flow(pc, s.global, id));
    }
  }

  lemma {:induction false} RunKeepsInv(turns: seq<Turn>)
    ensures Inv(Run(turns))
  {
    if turns != [] {
      var last := turns[|turns| - 1];
      var s := Run(turns[..|turns| - 1]);
      RunKeepsInv(turns[..|turns| - 1]);
      KeepsGlobal(s, last.thread, last.id);
      KeepsLocks(s, last.thread, last.id);
    }
  }

  // ---------------------------------------------------------------- what every run keeps

  /** No two goroutines have the lock of one container, whichever lock objects they found. */
  lemma {:induction false} MutualExclusion(turns: seq<Turn>, t: nat, u: nat)
    ensures var s := Run(turns);
      Holds(PcOf(s, t)) && Holds(PcOf(s, u)) && PcOf(s, t).id == PcOf(s, u).id ==> t == u
  {
    RunKeepsInv(turns);
    var s := Run(turns);
    if Holds(PcOf(s, t)) && Holds(PcOf(s, u)) && PcOf(s, t).id == PcOf(s, u).id {
      assert Owns(s, t, PcOf(s, t).lock);
      assert Owns(s, u, PcOf(s, t).lock);
    }
  }

  /** The goroutines that wait for, have or are just giving back a container's lock. */
  ghost function Interested(s: State, id: string): set<nat> {
    set t | t in s.pcs && Counted(PcOf(s, t)) && PcOf(s, t).id == id
  }

  /** An entry exists exactly while someone is interested; it counts them; they all mean its lock. */
  lemma {:induction false} EntryCountsUsers(turns: seq<Turn>, id: string)
    ensures var s := Run(turns);
      && (id in s.containerLocks <==> Interested(s, id) != {})
      && (id in s.containerLocks ==> LockOf(s, s.containerLocks[id]).refCount == |Interested(s, id)|)
      && (forall t :: t in Interested(s, id) ==> id in s.containerLocks && PcOf(s, t).lock == s.containerLocks[id])
  {
    RunKeepsInv(turns);
    var s := Run(turns);
    if id in s.containerLocks {
      assert Interested(s, id) == Users(s, s.containerLocks[id]);
    }
  }

  /** The panic, "no lock to unlock" and unlocking an unlocked lock never happen. */
  lemma {:induction false} NoFaults(turns: seq<Turn>)
    ensures Run(turns).faults == {}
  {
    RunKeepsInv(turns);
  }

  predicate CanStep(s: State, t: nat) { PcOf(Next(s, t, ""), t) != PcOf(s, t) }

  lemma Enabled(s: State, t: nat)
    requires LocksOk(s)
    ensures InGlobal(PcOf(s, t)) || (Holds(PcOf(s, t)) && !s.global) ==> CanStep(s, t)
    ensures PcOf(s, t).WantLock? && !s.global ==> CanStep(s, t)
    ensures PcOf(s, t).Waiting? && !LockOf(s, PcOf(s, t).lock).locked ==> CanStep(s, t)
  {
    if PcOf(s, t).Unlocking? {
      UnlockFinds(s, t, PcOf(s, t).id, PcOf(s, t).lock);
    }
  }

  /** As long as a request is under way, some goroutine can take a step. */
  lemma {:induction false} NeverStuck(turns: seq<Turn>, t: nat)
    requires PcOf(Run(turns), t) != Idle
    ensures var s := Run(turns); exists u :: PcOf(s, u) != Idle && CanStep(s, u)
  {
    RunKeepsInv(turns);
    var s := Run(turns);
    var u := t;
    if s.global {
      u :| InGlobal(PcOf(s, u));
    } else if PcOf(s, t).Waiting? && LockOf(s, PcOf(s, t).lock).locked {
      u :| Owns(s, u, s.containerLocks[PcOf(s, t).id]);
    }
    Enabled(s, u);
    assert PcOf(s, u) != Idle && CanStep(s, u);
  }

  // ---------------------------------------------------------------- whose lock

  /** The container goroutine t has last asked for. */
  function Asked(turns: seq<Turn>, t: nat): Option<string> {
    if turns == [] then None
    else
      var front, last := turns[..|turns| - 1], turns[|turns| - 1];
      if last.thread == t && PcOf(Run(front), t).Idle? then Some(last.id) else Asked(front, t)
  }

  predicate WorksFor(pc: Pc, asked: Option<string>) { !pc.Idle? && !pc.Leaving? ==> asked == Some(pc.id) }

  lemma OwnStep(s: State, t: nat, id: string)
    ensures var pc, pc' := PcOf(s, t), PcOf(Next(s, t, id), t);
      && (pc.Idle? ==> pc' == WantLock(id))
      && (!pc.Idle? && !pc'.Idle? && !pc'.Leaving? ==> !pc.Leaving? && pc'.id == pc.id)
  {
  }

  /** Over every run, a goroutine that waits for, has or gives back a lock means the container it was
      asked for. */
  lemma {:induction false} LocksWhatWasAsked(turns: seq<Turn>, t: nat)
    ensures WorksFor(PcOf(Run(turns), t), Asked(turns, t))
  {
    if turns != [] {
      var front, last := turns[..|turns| - 1], turns[|turns| - 1];
      LocksWhatWasAsked(front, t);
      OthersStay(Run(front), last.thread, last.id);
      OwnStep(Run(front), last.thread, last.id);
    }
  }
}
