/** Runs of a peer that validates, commits, dies and recovers: what its stores hold. */
module RecoveredState {
  import opened Common
  import opened KvLedger
  import opened Mvcc
  import opened Calculations

  /** A block as it was submitted and as it was stored, with the flags validation gave it. */
  datatype Logged = Logged(raw: Block, stored: Block)

  ghost predicate WellFormed(b: Logged) { |b.raw.txs| == |b.raw.flags| && |b.stored.txs| == |b.stored.flags| }

  /** What one application does to the state: a commit validates the submitted block, recovery
      replays the stored one without the checks. */
  ghost function Effect(db: DB, app: Application<Logged>, savepoint: Height): DB
    requires WellFormed(app.block)
  {
    match app
    case Committed(b) => Mvcc.Commit(db, b.raw, true, savepoint).0
    case Recommitted(b) => Mvcc.Commit(db, b.stored, false, savepoint).0
  }

  /** The state database after the applications it has seen. */
  ghost function StateAfter(apps: seq<Application<Logged>>, savepoints: nat -> Height): DB
    requires forall j :: 0 <= j < |apps| ==> WellFormed(apps[j].block)
  {
    if apps == [] then map[]
    else
      var n := |apps| - 1;
      Effect(StateAfter(apps[..n], savepoints), apps[n], savepoints(n))
  }

  // ---------------------------------------------------------------- runs

  /** A submitted block is validated against the state database as the peer finds it. */
  datatype Event = Submit(raw: Block, accepted: bool, power: nat) | Restart(stateKept: nat, historyKept: nat, power: nat)

  ghost predicate AllWellFormed(p: Peer<Logged>) {
    && (forall j :: 0 <= j < |p.disk.blocks| ==> WellFormed(p.disk.blocks[j]))
    && forall j :: 0 <= j < |p.disk.state.applied| ==> WellFormed(p.disk.state.applied[j].block)
  }

  lemma AppliedWellFormed(d: Disk<Logged>)
    requires Recoverable(d) && forall j :: 0 <= j < |d.blocks| ==> WellFormed(d.blocks[j])
    ensures forall j :: 0 <= j < |d.state.applied| ==> WellFormed(d.state.applied[j].block)
  {
    forall j | 0 <= j < |d.state.applied|
      ensures WellFormed(d.state.applied[j].block)
    {
      assert Strip(d.state.applied)[j] == d.blocks[j];
    }
  }

  ghost function StateOf(p: Peer<Logged>, savepoints: nat -> Height): DB
    requires AllWellFormed(p)
  {
    StateAfter(p.disk.state.applied, savepoints)
  }

  ghost function Validated(p: Peer<Logged>, raw: Block, savepoints: nat -> Height): Logged
    requires AllWellFormed(p) && |raw.txs| == |raw.flags|
  {
    Logged(raw, Mvcc.Commit(StateOf(p, savepoints), raw, true, savepoints(|p.disk.blocks|)).1)
  }

  ghost function Next(p: Peer<Logged>, e: Event, savepoints: nat -> Height): (p': Peer<Logged>)
    requires KvLedger.Inv(p) && AllWellFormed(p) && (e.Submit? ==> |e.raw.txs| == |e.raw.flags|)
    ensures KvLedger.Inv(p') && AllWellFormed(p')
  {
    match e
    case Submit(raw, accepted, power) =>
      var p' := KvLedger.Next(p, KvLedger.Commit(Validated(p, raw, savepoints), accepted, power));
      SubmitStores(p, Validated(p, raw, savepoints), accepted, power);
      AppliedWellFormed(p'.disk);
      p'
    case Restart(s, h, power) =>
      var p' := KvLedger.Next(p, Reopen(s, h, power));
      RestartKeepsBlocks(p, s, h, power);
      AppliedWellFormed(p'.disk);
      p'
  }

  lemma SubmitStores(p: Peer<Logged>, b: Logged, accepted: bool, power: nat)
    requires KvLedger.Inv(p)
    ensures KvLedger.Next(p, KvLedger.Commit(b, accepted, power)).disk.blocks ==
      if p.up && accepted && power > 0 then p.disk.blocks + [b] else p.disk.blocks
  {
    if p.up && accepted {
      CommitSafe(p.disk, b, power);
    }
  }

  lemma RestartKeepsBlocks(p: Peer<Logged>, s: nat, h: nat, power: nat)
    requires KvLedger.Inv(p)
    ensures KvLedger.Next(p, Reopen(s, h, power)).disk.blocks == p.disk.blocks
  {
    LoseRecoverable(p.disk, s, h);
    RecoverySafe(Lose(p.disk, s, h), power);
  }

  ghost predicate Submittable(es: seq<Event>) {
    forall i :: 0 <= i < |es| && es[i].Submit? ==> |es[i].raw.txs| == |es[i].raw.flags|
  }

  ghost function Run(es: seq<Event>, savepoints: nat -> Height): (p: Peer<Logged>)
    requires Submittable(es)
    ensures KvLedger.Inv(p) && AllWellFormed(p)
  {
    if es == [] then Peer(Empty(), true) else Next(Run(es[..|es| - 1], savepoints), es[|es| - 1], savepoints)
  }

  // ---------------------------------------------------------------- what the stores hold

  function Raws(bs: seq<Logged>): (r: seq<Block>)
    ensures |r| == |bs| && forall j :: 0 <= j < |bs| ==> r[j] == bs[j].raw
  {
    seq(|bs|, j requires 0 <= j < |bs| => bs[j].raw)
  }

  function Stored(bs: seq<Logged>): (r: seq<Block>)
    ensures |r| == |bs| && forall j :: 0 <= j < |bs| ==> r[j] == bs[j].stored
  {
    seq(|bs|, j requires 0 <= j < |bs| => bs[j].stored)
  }

  /** Replaying a block after this state would lose nothing. */
  ghost predicate Safe(db: DB, raw: Block, savepoint: Height)
    requires |raw.txs| == |raw.flags|
  {
    CalFree(raw) || (Fresh(db, raw, savepoint) && forall k :: !Lost(db, raw, savepoint, k))
  }

  ghost predicate Proper(raws: seq<Block>) { forall j :: 0 <= j < |raws| ==> |raws[j].txs| == |raws[j].flags| }

  /** Every block, committed without interruption after those before it, is safe. */
  ghost predicate SafeChain(raws: seq<Block>, savepoints: nat -> Height)
    requires Proper(raws)
  {
    raws != [] ==>
      var n := |raws| - 1;
      SafeChain(raws[..n], savepoints) && Safe(CommitAll(map[], raws[..n], savepoints).0, raws[n], savepoints(n))
  }

  /** The blocks are stored with the flags that committing them without interruption gives. */
  ghost predicate RightlyStored(bs: seq<Logged>, savepoints: nat -> Height)
    requires Proper(Raws(bs))
  {
    Stored(bs) == CommitAll(map[], Raws(bs), savepoints).1
  }

  /** A safe block has the same effect whichever way it reaches the database. */
  lemma EitherWay(db: DB, app: Application<Logged>, savepoint: Height)
    requires WellFormed(app.block) && Safe(db, app.block.raw, savepoint)
    requires app.block.stored == Mvcc.Commit(db, app.block.raw, true, savepoint).1
    ensures Effect(db, app, savepoint) == Mvcc.Commit(db, app.block.raw, true, savepoint).0
  {
    if CalFree(app.block.raw) {
      ReplayIsCommit(db, app.block.raw, savepoint, savepoint);
    } else {
      ReplayIsCommitIff(db, app.block.raw, savepoint, savepoint);
    }
  }

  lemma FrontOf(bs: seq<Logged>, savepoints: nat -> Height)
    requires bs != [] && Proper(Raws(bs)) && RightlyStored(bs, savepoints)
    ensures var n := |bs| - 1;
      && Raws(bs[..n]) == Raws(bs)[..n] && Proper(Raws(bs[..n])) && RightlyStored(bs[..n], savepoints)
      && bs[n].stored == Mvcc.Commit(CommitAll(map[], Raws(bs)[..n], savepoints).0, bs[n].raw, true, savepoints(n)).1
  {
    var n := |bs| - 1;
    assert Raws(bs[..n]) == Raws(bs)[..n];
    var all := CommitAll(map[], Raws(bs), savepoints).1;
    assert all[..n] == CommitAll(map[], Raws(bs)[..n], savepoints).1;
    assert Stored(bs[..n]) == Stored(bs)[..n];
    assert Stored(bs)[n] == all[n];
  }

  /** Whichever way safe blocks have reached the state database, it holds what committing them
      without interruption gives. */
  lemma {:induction false} AnyMix(apps: seq<Application<Logged>>, savepoints: nat -> Height)
    requires forall j :: 0 <= j < |apps| ==> WellFormed(apps[j].block)
    requires Proper(Raws(Strip(apps))) && RightlyStored(Strip(apps), savepoints) && SafeChain(Raws(Strip(apps)), savepoints)
    ensures StateAfter(apps, savepoints) == CommitAll(map[], Raws(Strip(apps)), savepoints).0
  {
    if apps != [] {
      var n, bs := |apps| - 1, Strip(apps);
      assert Strip(apps[..n]) == bs[..n];
      FrontOf(bs, savepoints);
      AnyMix(apps[..n], savepoints);
      EitherWay(CommitAll(map[], Raws(bs)[..n], savepoints).0, apps[n], savepoints(n));
    }
  }

  lemma ProperRaws(p: Peer<Logged>)
    requires AllWellFormed(p)
    ensures Proper(Raws(p.disk.blocks))
  {
  }

  /** A peer that is up and whose chain is safe has the state of a peer that was never interrupted. */
  lemma StateIsRight(p: Peer<Logged>, savepoints: nat -> Height)
    requires KvLedger.Inv(p) && AllWellFormed(p) && p.up && Proper(Raws(p.disk.blocks))
    requires RightlyStored(p.disk.blocks, savepoints) && SafeChain(Raws(p.disk.blocks), savepoints)
    ensures StateOf(p, savepoints) == CommitAll(map[], Raws(p.disk.blocks), savepoints).0
  {
    AnyMix(p.disk.state.applied, savepoints);
  }

  lemma OneMore(bs: seq<Logged>, b: Logged, savepoints: nat -> Height)
    requires Proper(Raws(bs)) && RightlyStored(bs, savepoints) && |b.raw.txs| == |b.raw.flags|
    requires b.stored == Mvcc.Commit(CommitAll(map[], Raws(bs), savepoints).0, b.raw, true, savepoints(|bs|)).1
    ensures Raws(bs + [b]) == Raws(bs) + [b.raw] && Proper(Raws(bs + [b])) && RightlyStored(bs + [b], savepoints)
  {
    var raws := Raws(bs + [b]);
    assert raws == Raws(bs) + [b.raw];
    assert raws[..|bs|] == Raws(bs);
    assert Stored(bs + [b]) == Stored(bs) + [b.stored];
  }

  /** Over every run: the stored blocks carry the flags that an uninterrupted peer would have given
      them, and whenever the peer is up its state database is that of an uninterrupted peer, if the
      blocks are safe. */
  lemma {:induction false} RecoveryRestoresState(es: seq<Event>, savepoints: nat -> Height)
    requires Submittable(es)
    ensures var p := Run(es, savepoints); var raws := Raws(p.disk.blocks);
      && Proper(raws)
      && (SafeChain(raws, savepoints) ==>
           && Stored(p.disk.blocks) == CommitAll(map[], raws, savepoints).1
           && (p.up ==> StateOf(p, savepoints) == CommitAll(map[], raws, savepoints).0))
  {
    var p := Run(es, savepoints);
    ProperRaws(p);
    if SafeChain(Raws(p.disk.blocks), savepoints) {
      StoredRightly(es, savepoints);
      if p.up {
        StateIsRight(p, savepoints);
      }
    }
  }

  lemma {:induction false} StoredRightly(es: seq<Event>, savepoints: nat -> Height)
    requires Submittable(es) && Proper(Raws(Run(es, savepoints).disk.blocks))
    requires SafeChain(Raws(Run(es, savepoints).disk.blocks), savepoints)
    ensures RightlyStored(Run(es, savepoints).disk.blocks, savepoints)
  {
    if es != [] {
      var front := es[..|es| - 1];
      var p := Run(front, savepoints);
      ProperRaws(p);
      match es[|es| - 1] {
        case Restart(s, h, power) =>
          RestartKeepsBlocks(p, s, h, power);
          StoredRightly(front, savepoints);
        case Submit(raw, accepted, power) =>
          SubmitStores(p, Validated(p, raw, savepoints), accepted, power);
          if p.up && accepted && power > 0 {
            FrontIsSafe(p.disk.blocks, Validated(p, raw, savepoints), savepoints);
            StoredRightly(front, savepoints);
            StoresRightly(p, raw, savepoints);
          } else {
            StoredRightly(front, savepoints);
          }
      }
    }
  }

  lemma FrontIsSafe(bs: seq<Logged>, b: Logged, savepoints: nat -> Height)
    requires Proper(Raws(bs)) && Proper(Raws(bs + [b])) && SafeChain(Raws(bs + [b]), savepoints)
    ensures SafeChain(Raws(bs), savepoints)
  {
    assert Raws(bs + [b])[..|bs|] == Raws(bs);
  }

  lemma StoresRightly(p: Peer<Logged>, raw: Block, savepoints: nat -> Height)
    requires KvLedger.Inv(p) && AllWellFormed(p) && p.up && Proper(Raws(p.disk.blocks)) && |raw.txs| == |raw.flags|
    requires RightlyStored(p.disk.blocks, savepoints) && SafeChain(Raws(p.disk.blocks), savepoints)
    ensures var bs := p.disk.blocks + [Validated(p, raw, savepoints)];
      Proper(Raws(bs)) && RightlyStored(bs, savepoints)
  {
    StateIsRight(p, savepoints);
    OneMore(p.disk.blocks, Validated(p, raw, savepoints), savepoints);
  }

  // ---------------------------------------------------------------- runs without deaths

  /** A block that is accepted and reaches the state database leaves there what validating and
      committing it gives, whatever the block; a refused one leaves everything as it was. */
  lemma SubmitReaches(p: Peer<Logged>, raw: Block, power: nat, savepoints: nat -> Height)
    requires KvLedger.Inv(p) && AllWellFormed(p) && p.up && |raw.txs| == |raw.flags|
    ensures Next(p, Submit(raw, false, power), savepoints) == p
    ensures power >= 2 ==>
      var (db, stored) := Mvcc.Commit(StateOf(p, savepoints), raw, true, savepoints(|p.disk.blocks|));
      var p' := Next(p, Submit(raw, true, power), savepoints);
      && StateOf(p', savepoints) == db && p'.disk.blocks == p.disk.blocks + [Logged(raw, stored)]
      && (p'.up <==> power >= 3)
  {
    if power >= 2 {
      var b := Validated(p, raw, savepoints);
      CommitReaches(p.disk, b, power);
      CommitSafe(p.disk, b, power);
      var apps := p.disk.state.applied + [Committed(b)];
      assert apps[..|apps| - 1] == p.disk.state.applied;
      assert |Strip(p.disk.state.applied)| == |p.disk.blocks|;
    }
  }

  /** Blocks are submitted one after the other, and the peer lives through every commit. */
  ghost predicate Uninterrupted(es: seq<Event>) {
    forall i :: 0 <= i < |es| ==> es[i].Submit? && es[i].power >= 3
  }

  ghost function AcceptedOf(es: seq<Event>): seq<Block>
    requires Uninterrupted(es)
  {
    if es == [] then []
    else AcceptedOf(es[..|es| - 1]) + if es[|es| - 1].accepted then [es[|es| - 1].raw] else []
  }

  /** The peer is up and has exactly these blocks, with the flags and the state that committing them
      in turn gives. */
  ghost predicate HasCommitted(p: Peer<Logged>, raws: seq<Block>, savepoints: nat -> Height)
    requires AllWellFormed(p)
  {
    && p.up && Raws(p.disk.blocks) == raws && Proper(raws)
    && (StateOf(p, savepoints), Stored(p.disk.blocks)) == CommitAll(map[], raws, savepoints)
  }

  lemma OneCommitted(p: Peer<Logged>, raws: seq<Block>, raw: Block, power: nat, savepoints: nat -> Height)
    requires KvLedger.Inv(p) && AllWellFormed(p) && HasCommitted(p, raws, savepoints)
    requires |raw.txs| == |raw.flags| && power >= 3
    ensures HasCommitted(Next(p, Submit(raw, true, power), savepoints), raws + [raw], savepoints)
  {
    SubmitReaches(p, raw, power, savepoints);
    OneMore(p.disk.blocks, Validated(p, raw, savepoints), savepoints);
    assert (raws + [raw])[..|raws|] == raws;
  }

  /** Over every such run, whatever the blocks. */
  lemma {:induction false} UninterruptedRun(es: seq<Event>, savepoints: nat -> Height)
    requires Submittable(es) && Uninterrupted(es)
    ensures HasCommitted(Run(es, savepoints), AcceptedOf(es), savepoints)
  {
    if es != [] {
      var front, e := es[..|es| - 1], es[|es| - 1];
      UninterruptedRun(front, savepoints);
      if e.accepted {
        OneCommitted(Run(front, savepoints), AcceptedOf(front), e.raw, e.power, savepoints);
      } else {
        SubmitReaches(Run(front, savepoints), e.raw, e.power, savepoints);
      }
    }
  }

  /** What a restart that ends leaves, after any run and whatever the state database has kept: the state
      after the applications it kept, with the stored blocks it lacks replayed on top. */
  lemma {:induction false} RestartReplays(es: seq<Event>, savepoints: nat -> Height, s: nat, h: nat, power: nat)
    requires Submittable(es)
    ensures var p := Run(es, savepoints); var p' := Next(p, Restart(s, h, power), savepoints);
      var kept := Keep(p.disk.state, s).applied;
      && p'.disk.blocks == p.disk.blocks
      && (p'.up ==> |kept| <= |p.disk.blocks| && p'.disk.state.applied == kept + AsReplayed(p.disk.blocks[|kept|..]))
  {
    var p := Run(es, savepoints);
    LoseRecoverable(p.disk, s, h);
    RecoveryReplays(Lose(p.disk, s, h), power);
    RestartKeepsBlocks(p, s, h, power);
  }

  lemma CrashReplays(p: Peer<Logged>, raw: Block, s: nat, h: nat, power: nat, savepoints: nat -> Height)
    requires KvLedger.Inv(p) && AllWellFormed(p) && p.up && |raw.txs| == |raw.flags|
    requires power >= 2 && s >= |p.disk.blocks| && h >= |p.disk.blocks|
    ensures var b := Validated(p, raw, savepoints);
      var p' := Next(Next(p, Submit(raw, true, 1), savepoints), Restart(s, h, power), savepoints);
      p'.up && p'.disk.blocks == p.disk.blocks + [b] && p'.disk.state.applied == p.disk.state.applied + [Recommitted(b)]
  {
    var b := Validated(p, raw, savepoints);
    var p1 := Next(p, Submit(raw, true, 1), savepoints);
    assert p1 == Peer(p.disk.(blocks := p.disk.blocks + [b]), false);
    assert Lose(p1.disk, s, h) == p1.disk;
    LostBlockReplayed(p.disk, b, power);
  }

  lemma CrashedState(p: Peer<Logged>, raw: Block, s: nat, h: nat, power: nat, savepoints: nat -> Height)
    requires KvLedger.Inv(p) && AllWellFormed(p) && p.up && |raw.txs| == |raw.flags|
    requires power >= 2 && s >= |p.disk.blocks| && h >= |p.disk.blocks|
    ensures var p' := Crashed(p, raw, s, h, power, savepoints);
      && p'.up && Raws(p'.disk.blocks) == Raws(p.disk.blocks) + [raw]
      && StateOf(p', savepoints) ==
        Mvcc.Commit(StateOf(p, savepoints), Validated(p, raw, savepoints).stored, false, savepoints(|p.disk.blocks|)).0
  {
    var b := Validated(p, raw, savepoints);
    CrashReplays(p, raw, s, h, power, savepoints);
    assert Raws(p.disk.blocks + [b]) == Raws(p.disk.blocks) + [raw];
    var apps := p.disk.state.applied + [Recommitted(b)];
    assert apps[..|apps| - 1] == p.disk.state.applied;
    assert |Strip(p.disk.state.applied)| == |p.disk.blocks|;
  }

  /** A block is stored, the peer dies before the databases are written, and is started again. */
  ghost function Crashed(p: Peer<Logged>, raw: Block, s: nat, h: nat, power: nat, savepoints: nat -> Height): (p': Peer<Logged>)
    requires KvLedger.Inv(p) && AllWellFormed(p) && |raw.txs| == |raw.flags|
    ensures KvLedger.Inv(p') && AllWellFormed(p')
  {
    Next(Next(p, Submit(raw, true, 1), savepoints), Restart(s, h, power), savepoints)
  }

  /** And it takes safe blocks: a block that is lost by such a death and replayed leaves the state of
      an uninterrupted peer exactly if no key is lost. */
  lemma {:induction false} CrashRestoresIff(es: seq<Event>, savepoints: nat -> Height, raw: Block, s: nat, h: nat, power: nat)
    requires Submittable(es) && |raw.txs| == |raw.flags| && Run(es, savepoints).up && Proper(Raws(Run(es, savepoints).disk.blocks))
    requires var raws := Raws(Run(es, savepoints).disk.blocks);
      && SafeChain(raws, savepoints) && power >= 2 && s >= |raws| && h >= |raws|
      && Fresh(CommitAll(map[], raws, savepoints).0, raw, savepoints(|raws|))
    ensures var p := Run(es, savepoints); var raws := Raws(p.disk.blocks); var db := CommitAll(map[], raws, savepoints).0;
      var p' := Crashed(p, raw, s, h, power, savepoints);
      && p'.up && Raws(p'.disk.blocks) == raws + [raw]
      && (StateOf(p', savepoints) == Mvcc.Commit(db, raw, true, savepoints(|raws|)).0 <==>
          forall k :: !Lost(db, raw, savepoints(|raws|), k))
  {
    var p := Run(es, savepoints);
    var raws := Raws(p.disk.blocks);
    RecoveryRestoresState(es, savepoints);
    CrashedState(p, raw, s, h, power, savepoints);
    ReplayIsCommitIff(CommitAll(map[], raws, savepoints).0, raw, savepoints(|raws|), savepoints(|raws|));
  }

  /** After any such run with at least one block, a block that makes a new counter is lost: an
      uninterrupted peer has the counter, and this one does not. */
  lemma {:induction false} CrashLosesCounter(es: seq<Event>, savepoints: nat -> Height, k: Key, op: Op, number: nat, s: nat, h: nat, power: nat)
    requires Submittable(es) && Run(es, savepoints).up && Proper(Raws(Run(es, savepoints).disk.blocks))
    requires var raws := Raws(Run(es, savepoints).disk.blocks); var db := CommitAll(map[], raws, savepoints).0;
      && raws != [] && SafeChain(raws, savepoints) && power >= 2 && s >= |raws| && h >= |raws|
      && k !in db && Fresh(db, CounterBlock(k, op, number), savepoints(|raws|))
    ensures var p := Run(es, savepoints); var raws := Raws(p.disk.blocks); var db := CommitAll(map[], raws, savepoints).0;
      var raw, savepoint := CounterBlock(k, op, number), savepoints(|raws|);
      var p' := Crashed(p, raw, s, h, power, savepoints);
      && p'.up && Raws(p'.disk.blocks) == raws + [raw] && k !in StateOf(p', savepoints)
      && Find(Mvcc.Commit(db, raw, true, savepoint).0, k) == Some(Entry(op("0"), savepoint))
      && exists l :: Lost(db, raw, savepoint, l)
  {
    var p := Run(es, savepoints);
    var raws, raw := Raws(p.disk.blocks), CounterBlock(k, op, number);
    RecoveryRestoresState(es, savepoints);
    CrashRestoresIff(es, savepoints, raw, s, h, power);
    CrashedState(p, raw, s, h, power, savepoints);
    CounterIsLost(CommitAll(map[], raws, savepoints).0, k, op, number, savepoints(|raws|), savepoints(|raws|));
  }

  /** There is such a run: a first block without chaincode transactions, as every chain has. */
  lemma CounterInSecondBlock(savepoints: nat -> Height, k: Key, op: Op)
    requires savepoints(1) == Height(0, 0)
    ensures var es := [Submit(GENESIS, true, 3)];
      && Submittable(es) && Run(es, savepoints).up && Raws(Run(es, savepoints).disk.blocks) == [GENESIS]
      && CommitAll(map[], [GENESIS], savepoints).0 == map[] && SafeChain([GENESIS], savepoints)
      && Fresh(map[], CounterBlock(k, op, 1), savepoints(1))
  {
    GenesisStored(savepoints);
    FirstCommit(GENESIS, savepoints);
    GenesisWritesNothing(savepoints(0));
  }

  const GENESIS: Block := Block(0, [OtherType], [Valid])

  lemma GenesisWritesNothing(savepoint: Height)
    ensures Mvcc.Commit(map[], GENESIS, true, savepoint).0 == map[] && CalFree(GENESIS)
  {
    assert Prepare(map[], GENESIS, true, savepoint, 0) == Prepared(NO_UPDATES, [Valid]);
    assert Prepare(map[], GENESIS, true, savepoint, 1) == Prepared(NO_UPDATES, [Valid]);
    assert MoveCals(NO_UPDATES) == map[];
    SameFind(Apply(map[], map[]), map[]);
  }

  lemma GenesisStored(savepoints: nat -> Height)
    ensures var es := [Submit(GENESIS, true, 3)];
      Submittable(es) && Run(es, savepoints).up && Raws(Run(es, savepoints).disk.blocks) == [GENESIS]
  {
    var es := [Submit(GENESIS, true, 3)];
    assert es[..0] == [];
    var p := Run(es[..0], savepoints);
    var b := Validated(p, GENESIS, savepoints);
    SubmitStores(p, b, true, 3);
    CommitSafe(p.disk, b, 3);
    assert p.disk.blocks + [b] == [b];
  }

  lemma FirstCommit(raw: Block, savepoints: nat -> Height)
    requires |raw.txs| == |raw.flags|
    ensures CommitAll(map[], [raw], savepoints).0 == Mvcc.Commit(map[], raw, true, savepoints(0)).0
  {
    assert [raw][..0] == [];
    assert CommitAll(map[], [raw][..0], savepoints).0 == map[];
  }
}
