/** One ledger: block store, state database and history database, written one after the other.
    Every store write is atomic; the peer may die in the gap before any of them. */
module KvLedger {
  import opened Common

  datatype DbKind = StateDB | HistoryDB

  /** How a block reached a database: by Commit, or by CommitLostBlock during recovery. */
  datatype Application<+B> = Committed(block: B) | Recommitted(block: B)

  /** A database: its savepoint and the applications it has seen, both written in one batch. */
  datatype Store<+B> = Store(savepoint: Option<nat>, applied: seq<Application<B>>)

  datatype Disk<+B> = Disk(blocks: seq<B>, state: Store<B>, history: Store<B>)

  function Db<B>(d: Disk<B>, k: DbKind): Store<B> {
    match k
    case StateDB => d.state
    case HistoryDB => d.history
  }

  function Height<B>(d: Disk<B>, k: DbKind): nat {
    |Db(d, k).applied|
  }

  function Strip<B>(apps: seq<Application<B>>): (bs: seq<B>)
    ensures |bs| == |apps| && forall i :: 0 <= i < |apps| ==> bs[i] == apps[i].block
  {
    seq(|apps|, i requires 0 <= i < |apps| => apps[i].block)
  }

  // ---------------------------------------------------------------- what has to hold

  /** The database has seen the first blocks of the chain, each once and in order, and its
      savepoint is the number of the last of them. */
  ghost predicate Synced<B>(st: Store<B>, blocks: seq<B>) {
    && Strip(st.applied) <= blocks
    && st.savepoint == if st.applied == [] then None else Some(|st.applied| - 1)
  }

  ghost predicate Recoverable<B>(d: Disk<B>) {
    Synced(d.state, d.blocks) && Synced(d.history, d.blocks)
  }

  /** Each database holds every stored block exactly once, in the order of the chain. */
  ghost predicate CaughtUp<B>(d: Disk<B>) {
    Recoverable(d) && Strip(d.state.applied) == d.blocks && Strip(d.history.applied) == d.blocks
  }

  lemma WholeChain<B>(d: Disk<B>)
    requires Recoverable(d) && Height(d, StateDB) == |d.blocks| == Height(d, HistoryDB)
    ensures CaughtUp(d)
  {
    assert d.blocks[..|d.blocks|] == d.blocks;
  }

  // ---------------------------------------------------------------- the store writes, with a limited life

  /** What a sequence of store writes leaves when the peer lives through `power` more of them. */
  datatype Outcome<+B> = Outcome(disk: Disk<B>, power: nat, alive: bool)

  function Applied<B>(d: Disk<B>, k: DbKind, n: nat, a: Application<B>): Disk<B> {
    match k
    case StateDB => d.(state := Store(Some(n), d.state.applied + [a]))
    case HistoryDB => d.(history := Store(Some(n), d.history.applied + [a]))
  }

  function WriteDb<B>(d: Disk<B>, k: DbKind, n: nat, a: Application<B>, power: nat): Outcome<B> {
    if power == 0 then Outcome(d, 0, false) else Outcome(Applied(d, k, n, a), power - 1, true)
  }

  /** Block n into each of the databases in turn. */
  function Each<B>(d: Disk<B>, n: nat, dbs: seq<DbKind>, power: nat): Outcome<B>
    requires n < |d.blocks|
    decreases dbs
  {
    if dbs == [] then Outcome(d, power, true)
    else
      var o := WriteDb(d, dbs[0], n, Recommitted(d.blocks[n]), power);
      if o.alive then Each(o.disk, n, dbs[1..], o.power) else o
  }

  /** The blocks from n up to but not including end. */
  function Replay<B>(d: Disk<B>, n: nat, end: nat, dbs: seq<DbKind>, power: nat): Outcome<B>
    requires end <= |d.blocks|
    decreases end - n
  {
    if n >= end then Outcome(d, power, true)
    else
      EachKeepsBlocks(d, n, dbs, power);
      var o := Each(d, n, dbs, power);
      if o.alive then Replay(o.disk, n + 1, end, dbs, o.power) else o
  }

  lemma {:induction false} EachKeepsBlocks<B>(d: Disk<B>, n: nat, dbs: seq<DbKind>, power: nat)
    requires n < |d.blocks|
    ensures Each(d, n, dbs, power).disk.blocks == d.blocks
    decreases dbs
  {
    if dbs != [] && power > 0 {
      EachKeepsBlocks(Applied(d, dbs[0], n, Recommitted(d.blocks[n])), n, dbs[1..], power - 1);
    }
  }

  lemma {:induction false} ReplayKeepsBlocks<B>(d: Disk<B>, n: nat, end: nat, dbs: seq<DbKind>, power: nat)
    requires end <= |d.blocks|
    ensures Replay(d, n, end, dbs, power).disk.blocks == d.blocks
    decreases end - n
  {
    if n < end {
      EachKeepsBlocks(d, n, dbs, power);
      var o := Each(d, n, dbs, power);
      if o.alive {
        ReplayKeepsBlocks(o.disk, n + 1, end, dbs, o.power);
      }
    }
  }

  // ---------------------------------------------------------------- recovery

  function FirstLost<B>(st: Store<B>): nat {
    match st.savepoint
    case None => 0
    case Some(n) => n + 1
  }

  predicate ShouldRecover<B>(st: Store<B>, last: nat) {
    st.savepoint != Some(last)
  }

  datatype Recoverer = Recoverer(first: nat, db: DbKind)

  /** Bring the lagging database up to the other one, then both together. */
  function CatchUp<B>(d: Disk<B>, lag: Recoverer, other: Recoverer, power: nat): Outcome<B>
    requires other.first <= |d.blocks|
  {
    ReplayKeepsBlocks(d, lag.first, other.first, [lag.db], power);
    var o := Replay(d, lag.first, other.first, [lag.db], power);
    if o.alive then Replay(o.disk, other.first, |d.blocks|, [lag.db, other.db], o.power) else o
  }

  /** recoverDBs. */
  ghost function Recover<B>(d: Disk<B>, power: nat): Outcome<B>
    requires Recoverable(d)
  {
    if d.blocks == [] then Outcome(d, power, true)
    else
      var last := |d.blocks| - 1;
      var s, h := Recoverer(FirstLost(d.state), StateDB), Recoverer(FirstLost(d.history), HistoryDB);
      match (ShouldRecover(d.state, last), ShouldRecover(d.history, last))
      case (false, false) => Outcome(d, power, true)
      case (true, false) => Replay(d, s.first, last + 1, [StateDB], power)
      case (false, true) => Replay(d, h.first, last + 1, [HistoryDB], power)
      case (true, true) => if s.first > h.first then CatchUp(d, h, s, power) else CatchUp(d, s, h, power)
  }

  /** One database steps from n to n + 1. */
  lemma ApplyNext<B>(d: Disk<B>, k: DbKind, a: Application<B>)
    requires Recoverable(d) && Height(d, k) < |d.blocks| && a.block == d.blocks[Height(d, k)]
    ensures Recoverable(Applied(d, k, Height(d, k), a))
  {
    var n := Height(d, k);
    var d' := Applied(d, k, n, a);
    assert Strip(Db(d', k).applied) == Strip(Db(d, k).applied) + [d.blocks[n]];
  }

  lemma {:induction false} ReplayAlone<B>(d: Disk<B>, n: nat, end: nat, k: DbKind, other: DbKind, power: nat)
    requires Recoverable(d) && k != other && Height(d, k) == n <= end <= |d.blocks|
    ensures var o := Replay(d, n, end, [k], power);
      && Recoverable(o.disk) && o.disk.blocks == d.blocks && Db(o.disk, other) == Db(d, other)
      && (o.alive ==> Height(o.disk, k) == end)
      && (o.alive <==> power >= end - n) && (o.alive ==> o.power == power - (end - n))
    decreases end - n
  {
    if n < end && power > 0 {
      var a := Recommitted(d.blocks[n]);
      ApplyNext(d, k, a);
      assert [k][1..] == [];
      assert Each(d, n, [k], power) == Outcome(Applied(d, k, n, a), power - 1, true);
      ReplayAlone(Applied(d, k, n, a), n + 1, end, k, other, power - 1);
    }
  }

  lemma {:induction false} ReplayTogether<B>(d: Disk<B>, n: nat, end: nat, k: DbKind, l: DbKind, power: nat)
    requires Recoverable(d) && k != l && Height(d, k) == n == Height(d, l) && n <= end <= |d.blocks|
    ensures var o := Replay(d, n, end, [k, l], power);
      && Recoverable(o.disk) && o.disk.blocks == d.blocks
      && (o.alive ==> Height(o.disk, k) == end == Height(o.disk, l))
      && (o.alive <==> power >= 2 * (end - n)) && (o.alive ==> o.power == power - 2 * (end - n))
    decreases end - n
  {
    if n < end {
      EachOfTwo(d, n, k, l, power);
      if power > 1 {
        var a := Recommitted(d.blocks[n]);
        ReplayTogether(Applied(Applied(d, k, n, a), l, n, a), n + 1, end, k, l, power - 2);
      }
    }
  }

  /** One block into two databases in turn, with the peer dying before either. */
  lemma EachOfTwo<B>(d: Disk<B>, n: nat, k: DbKind, l: DbKind, power: nat)
    requires Recoverable(d) && k != l && Height(d, k) == n == Height(d, l) && n < |d.blocks|
    ensures var a := Recommitted(d.blocks[n]); var d1 := Applied(d, k, n, a);
      && Recoverable(d1) && Recoverable(Applied(d1, l, n, a))
      && Each(d, n, [k, l], power) ==
        if power == 0 then Outcome(d, 0, false)
        else if power == 1 then Outcome(d1, 0, false)
        else Outcome(Applied(d1, l, n, a), power - 2, true)
  {
    var a := Recommitted(d.blocks[n]);
    ApplyNext(d, k, a);
    var d1 := Applied(d, k, n, a);
    ApplyNext(d1, l, a);
    assert [k, l][1..] == [l] && [l][1..] == [];
    if power > 0 {
      assert Each(d1, n, [l], power - 1) == WriteDb(d1, l, n, a, power - 1);
    }
  }

  /** However far recovery gets, recovery can be started again; when it ends, both databases
      hold the whole chain; and it ends when the peer lives through two writes a block. */
  lemma RecoverySafe<B>(d: Disk<B>, power: nat)
    requires Recoverable(d)
    ensures var o := Recover(d, power);
      && Recoverable(o.disk) && o.disk.blocks == d.blocks
      && (o.alive ==> CaughtUp(o.disk))
      && (power >= 2 * |d.blocks| ==> o.alive)
  {
    var top := |d.blocks|;
    var s, h := Height(d, StateDB), Height(d, HistoryDB);
    var o := Recover(d, power);
    assert FirstLost(d.state) == s && FirstLost(d.history) == h;
    if top == 0 || (s == top && h == top) {
      WholeChain(d);
    } else if h == top {
      ReplayAlone(d, s, top, StateDB, HistoryDB, power);
    } else if s == top {
      ReplayAlone(d, h, top, HistoryDB, StateDB, power);
    } else if s > h {
      CatchUpSafe(d, Recoverer(h, HistoryDB), Recoverer(s, StateDB), power);
    } else {
      CatchUpSafe(d, Recoverer(s, StateDB), Recoverer(h, HistoryDB), power);
    }
    if o.alive {
      WholeChain(o.disk);
    }
  }

  lemma CatchUpSafe<B>(d: Disk<B>, lag: Recoverer, other: Recoverer, power: nat)
    requires Recoverable(d) && lag.db != other.db
    requires Height(d, lag.db) == lag.first <= other.first == Height(d, other.db) <= |d.blocks|
    ensures var o := CatchUp(d, lag, other, power);
      && Recoverable(o.disk) && o.disk.blocks == d.blocks
      && (o.alive ==> Height(o.disk, lag.db) == |d.blocks| == Height(o.disk, other.db))
      && (power >= 2 * |d.blocks| ==> o.alive)
  {
    ReplayAlone(d, lag.first, other.first, lag.db, other.db, power);
    var o := Replay(d, lag.first, other.first, [lag.db], power);
    if o.alive {
      ReplayTogether(o.disk, other.first, |d.blocks|, lag.db, other.db, o.power);
    }
  }

  /** The database has kept what it had, and only replays have been added. */
  ghost predicate OnlyReplayed<B>(st: Store<B>, st': Store<B>) {
    st.applied <= st'.applied && forall i :: |st.applied| <= i < |st'.applied| ==> st'.applied[i].Recommitted?
  }

  ghost predicate OnlyReplays<B>(d: Disk<B>, d': Disk<B>) {
    OnlyReplayed(d.state, d'.state) && OnlyReplayed(d.history, d'.history)
  }

  lemma {:induction false} EachReplays<B>(d: Disk<B>, n: nat, dbs: seq<DbKind>, power: nat)
    requires n < |d.blocks|
    ensures OnlyReplays(d, Each(d, n, dbs, power).disk)
    decreases dbs
  {
    if dbs != [] && power > 0 {
      EachReplays(Applied(d, dbs[0], n, Recommitted(d.blocks[n])), n, dbs[1..], power - 1);
    }
  }

  lemma {:induction false} ReplayReplays<B>(d: Disk<B>, n: nat, end: nat, dbs: seq<DbKind>, power: nat)
    requires end <= |d.blocks|
    ensures OnlyReplays(d, Replay(d, n, end, dbs, power).disk)
    decreases end - n
  {
    if n < end {
      EachReplays(d, n, dbs, power);
      EachKeepsBlocks(d, n, dbs, power);
      var o := Each(d, n, dbs, power);
      if o.alive {
        ReplayReplays(o.disk, n + 1, end, dbs, o.power);
      }
    }
  }

  lemma CatchUpReplays<B>(d: Disk<B>, lag: Recoverer, other: Recoverer, power: nat)
    requires other.first <= |d.blocks|
    ensures OnlyReplays(d, CatchUp(d, lag, other, power).disk)
  {
    ReplayKeepsBlocks(d, lag.first, other.first, [lag.db], power);
    ReplayReplays(d, lag.first, other.first, [lag.db], power);
    var o := Replay(d, lag.first, other.first, [lag.db], power);
    if o.alive {
      ReplayReplays(o.disk, other.first, |d.blocks|, [lag.db, other.db], o.power);
    }
  }

  function AsReplayed<B>(bs: seq<B>): (apps: seq<Application<B>>)
    ensures |apps| == |bs| && forall i :: 0 <= i < |bs| ==> apps[i] == Recommitted(bs[i])
  {
    seq(|bs|, i requires 0 <= i < |bs| => Recommitted(bs[i]))
  }

  /** Recovery adds to what a database has seen exactly the blocks it lacks, in order, replayed. */
  lemma RecoveryReplays<B>(d: Disk<B>, power: nat)
    requires Recoverable(d)
    ensures var o := Recover(d, power);
      && OnlyReplays(d, o.disk)
      && (o.alive ==>
           && o.disk.state.applied == d.state.applied + AsReplayed(d.blocks[|d.state.applied|..])
           && o.disk.history.applied == d.history.applied + AsReplayed(d.blocks[|d.history.applied|..]))
  {
    var o := Recover(d, power);
    RecoverReplays(d, power);
    RecoverySafe(d, power);
    if o.alive {
      MissingReplayed(d.blocks, d.state, o.disk.state);
      MissingReplayed(d.blocks, d.history, o.disk.history);
    }
  }

  lemma RecoverReplays<B>(d: Disk<B>, power: nat)
    requires Recoverable(d)
    ensures OnlyReplays(d, Recover(d, power).disk)
  {
    if d.blocks != [] {
      var top := |d.blocks|;
      var s, h := Recoverer(FirstLost(d.state), StateDB), Recoverer(FirstLost(d.history), HistoryDB);
      ReplayReplays(d, s.first, top, [StateDB], power);
      ReplayReplays(d, h.first, top, [HistoryDB], power);
      CatchUpReplays(d, h, s, power);
      CatchUpReplays(d, s, h, power);
    }
  }

  lemma MissingReplayed<B>(blocks: seq<B>, st: Store<B>, st': Store<B>)
    requires OnlyReplayed(st, st') && Strip(st'.applied) == blocks
    ensures st'.applied == st.applied + AsReplayed(blocks[|st.applied|..])
  {
    forall i | |st.applied| <= i < |blocks|
      ensures st'.applied[i] == Recommitted(blocks[i])
    {
      assert Strip(st'.applied)[i] == st'.applied[i].block;
    }
  }

  // ---------------------------------------------------------------- commit

  /** Commit of an accepted block: block store, then state database, then history database. */
  function CommitBlock<B>(d: Disk<B>, b: B, power: nat): Outcome<B> {
    if power == 0 then Outcome(d, 0, false)
    else
      var d1 := d.(blocks := d.blocks + [b]);
      var o := WriteDb(d1, StateDB, |d.blocks|, Committed(b), power - 1);
      if o.alive then WriteDb(o.disk, HistoryDB, |d.blocks|, Committed(b), o.power) else o
  }

  lemma CommitSafe<B>(d: Disk<B>, b: B, power: nat)
    requires CaughtUp(d)
    ensures var o := CommitBlock(d, b, power);
      && Recoverable(o.disk)
      && o.disk.blocks == (if power == 0 then d.blocks else d.blocks + [b])
      && (o.alive <==> power >= 3) && (o.alive ==> CaughtUp(o.disk))
  {
    if power > 0 {
      var d1 := d.(blocks := d.blocks + [b]);
      ApplyNext(d1, StateDB, Committed(b));
      var d2 := Applied(d1, StateDB, |d.blocks|, Committed(b));
      ApplyNext(d2, HistoryDB, Committed(b));
      WholeChain(Applied(d2, HistoryDB, |d.blocks|, Committed(b)));
    }
  }

  /** What a commit leaves in each store, however many writes the peer lives through: the block, and
      in each database the block as validation prepared it. */
  lemma CommitReaches<B>(d: Disk<B>, b: B, power: nat)
    requires CaughtUp(d)
    ensures var o := CommitBlock(d, b, power);
      && o.disk.blocks == d.blocks + (if power >= 1 then [b] else [])
      && o.disk.state.applied == d.state.applied + (if power >= 2 then [Committed(b)] else [])
      && o.disk.history.applied == d.history.applied + (if power >= 3 then [Committed(b)] else [])
  {
  }

  /** A block that was stored and reached neither database is replayed into both. */
  lemma LostBlockReplayed<B>(d: Disk<B>, b: B, power: nat)
    requires CaughtUp(d) && power >= 2
    ensures var o := Recover(d.(blocks := d.blocks + [b]), power);
      o.alive && o.disk.blocks == d.blocks + [b] && o.disk.state.applied == d.state.applied + [Recommitted(b)]
  {
    var n, d1 := |d.blocks|, d.(blocks := d.blocks + [b]);
    var a := Recommitted(b);
    assert FirstLost(d1.state) == n == FirstLost(d1.history);
    assert [StateDB, HistoryDB][1..] == [HistoryDB] && [HistoryDB][1..] == [];
    var d2 := Applied(d1, StateDB, n, a);
    assert Each(d2, n, [HistoryDB], power - 1) == Outcome(Applied(d2, HistoryDB, n, a), power - 2, true);
    var d3 := Applied(d2, HistoryDB, n, a);
    assert Each(d1, n, [StateDB, HistoryDB], power) == Outcome(d3, power - 2, true);
    assert Replay(d3, n + 1, n + 1, [StateDB, HistoryDB], power - 2) == Outcome(d3, power - 2, true);
    assert Replay(d1, n, n + 1, [StateDB, HistoryDB], power) == Outcome(d3, power - 2, true);
    assert Replay(d1, n, n, [StateDB], power) == Outcome(d1, power, true);
    assert CatchUp(d1, Recoverer(n, StateDB), Recoverer(n, HistoryDB), power) == Outcome(d3, power - 2, true);
    assert ShouldRecover(d1.state, n) && ShouldRecover(d1.history, n);
  }

  // ---------------------------------------------------------------- runs

  /** Commit: a block, whether validation and AddBlock accept it, and how many store writes the
      peer lives through. Reopen: the peer starts again; since the databases are written without
      sync, it may find only the first few applications of each, and it may die again. */
  datatype Event<+B> = Commit(block: B, accepted: bool, power: nat)
                     | Reopen(stateKept: nat, historyKept: nat, power: nat)

  datatype Peer<+B> = Peer(disk: Disk<B>, up: bool)

  function Keep<B>(st: Store<B>, n: nat): Store<B> {
    if n >= |st.applied| then st
    else Store(if n == 0 then None else Some(n - 1), st.applied[..n])
  }

  function Lose<B>(d: Disk<B>, s: nat, h: nat): Disk<B> {
    d.(state := Keep(d.state, s), history := Keep(d.history, h))
  }

  lemma LoseRecoverable<B>(d: Disk<B>, s: nat, h: nat)
    requires Recoverable(d)
    ensures Recoverable(Lose(d, s, h))
  {
    var d' := Lose(d, s, h);
    assert Strip(d'.state.applied) == Strip(d.state.applied)[..|d'.state.applied|];
    assert Strip(d'.history.applied) == Strip(d.history.applied)[..|d'.history.applied|];
  }

  ghost predicate Inv<B>(p: Peer<B>) {
    Recoverable(p.disk) && (p.up ==> CaughtUp(p.disk))
  }

  ghost function Next<B>(p: Peer<B>, e: Event<B>): (p': Peer<B>)
    requires Inv(p)
    ensures Inv(p')
    ensures p.disk.blocks <= p'.disk.blocks
  {
    match e
    case Commit(b, accepted, power) =>
      if !p.up || !accepted then p
      else
        CommitSafe(p.disk, b, power);
        var o := CommitBlock(p.disk, b, power);
        Peer(o.disk, o.alive)
    case Reopen(s, h, power) =>
      LoseRecoverable(p.disk, s, h);
      RecoverySafe(Lose(p.disk, s, h), power);
      var o := Recover(Lose(p.disk, s, h), power);
      Peer(o.disk, o.alive)
  }

  function Empty<B>(): Disk<B> { Disk([], Store(None, []), Store(None, [])) }

  ghost function Run<B>(es: seq<Event<B>>): (p: Peer<B>)
    ensures Inv(p)
  {
    if es == [] then Peer(Empty(), true) else Next(Run(es[..|es| - 1]), es[|es| - 1])
  }

  /** Over every run of commits and restarts, with the peer dying before any store write, also
      during recovery: whenever it is up, each database has seen every stored block exactly once
      and in order; no stored block is ever lost; and a restart that is not cut short succeeds. */
  lemma {:induction false} EveryRunRecovers<B>(es: seq<Event<B>>, more: seq<Event<B>>, s: nat, h: nat)
    ensures var p, p' := Run(es), Run(es + more);
      && (p'.up ==> Strip(p'.disk.state.applied) == p'.disk.blocks == Strip(p'.disk.history.applied))
      && p.disk.blocks <= p'.disk.blocks
      && Next(p', Reopen(s, h, 2 * |p'.disk.blocks|)).up
    decreases |more|
  {
    if more == [] {
      assert es + more == es;
    } else {
      EveryRunRecovers(es, more[..|more| - 1], s, h);
      assert (es + more)[..|es + more| - 1] == es + more[..|more| - 1];
    }
    var p' := Run(es + more);
    LoseRecoverable(p'.disk, s, h);
    RecoverySafe(Lose(p'.disk, s, h), 2 * |p'.disk.blocks|);
  }

  /** The blocks that were accepted while the peer was up and lived to store them, in order. */
  ghost function Accepted<B>(es: seq<Event<B>>): seq<B> {
    if es == [] then []
    else
      var front, e := es[..|es| - 1], es[|es| - 1];
      Accepted(front) + if e.Commit? && e.accepted && e.power > 0 && Run(front).up then [e.block] else []
  }

  /** Over every run the block store holds exactly these. */
  lemma {:induction false} StoredAreAccepted<B>(es: seq<Event<B>>)
    ensures Run(es).disk.blocks == Accepted(es)
  {
    if es != [] {
      var p, e := Run(es[..|es| - 1]), es[|es| - 1];
      StoredAreAccepted(es[..|es| - 1]);
      match e {
        case Commit(b, accepted, power) =>
          if p.up && accepted {
            CommitReaches(p.disk, b, power);
          }
        case Reopen(s, h, power) =>
          LoseRecoverable(p.disk, s, h);
          RecoverySafe(Lose(p.disk, s, h), power);
      }
    }
  }

  // ---------------------------------------------------------------- the code

  datatype CommitResult = Done | Refused | Died

  class Ledger<B> {
    var blocks: seq<B>
    var state: Store<B>
    var history: Store<B>

    constructor (d: Disk<B>)
      ensures Contents() == d
    {
      blocks, state, history := d.blocks, d.state, d.history;
    }

    ghost function Contents(): Disk<B>
      reads this
    {
      Disk(blocks, state, history)
    }

    /** r.CommitLostBlock(block) for one of the two recoverables. */
    method CommitLostBlock(db: DbKind, n: nat)
      requires n < |blocks|
      modifies this
      ensures Contents() == Applied(old(Contents()), db, n, Recommitted(old(blocks)[n]))
    {
      match db {
        case StateDB => state := Store(Some(n), state.applied + [Recommitted(blocks[n])]);
        case HistoryDB => history := Store(Some(n), history.applied + [Recommitted(blocks[n])]);
      }
    }

    /** The inner loop of recommitLostBlocks: one block into each of the databases. */
    method RecommitBlock(n: nat, dbs: seq<DbKind>, power: nat) returns (ok: bool, rest: nat)
      requires n < |blocks|
      modifies this
      ensures Outcome(Contents(), rest, ok) == Each(old(Contents()), n, dbs, power)
      ensures blocks == old(blocks)
    {
      rest := power;
      for i := 0 to |dbs|
        invariant blocks == old(blocks)
        invariant Each(Contents(), n, dbs[i..], rest) == Each(old(Contents()), n, dbs, power)
      {
        assert dbs[i..][0] == dbs[i] && dbs[i..][1..] == dbs[i + 1..];
        if rest == 0 {
          return false, 0;
        }
        CommitLostBlock(dbs[i], n);
        rest := rest - 1;
      }
      return true, rest;
    }

    /** Recommits the blocks from first up to and including last. */
    method RecommitLostBlocks(first: nat, last: nat, dbs: seq<DbKind>, power: nat) returns (ok: bool, rest: nat)
      requires last < |blocks|
      modifies this
      ensures Outcome(Contents(), rest, ok) == Replay(old(Contents()), first, last + 1, dbs, power)
      ensures blocks == old(blocks)
    {
      rest := power;
      var blockNumber := first;
      while blockNumber <= last
        invariant first <= blockNumber && blocks == old(blocks)
        invariant Replay(Contents(), blockNumber, last + 1, dbs, rest) == Replay(old(Contents()), first, last + 1, dbs, power)
      {
        ok, rest := RecommitBlock(blockNumber, dbs, rest);
        if !ok {
          return;
        }
        blockNumber := blockNumber + 1;
      }
      return true, rest;
    }

    /** recoverDBs: replays the lost suffix, with the catch-up bound recoverers[1].first - 1
        never below zero. */
    method RecoverDBs(power: nat) returns (ok: bool, rest: nat)
      requires Recoverable(Contents())
      modifies this
      ensures Outcome(Contents(), rest, ok) == Recover(old(Contents()), power)
      ensures Recoverable(Contents()) && (ok ==> CaughtUp(Contents()))
    {
      RecoverySafe(Contents(), power);
      if |blocks| == 0 {
        return true, power;
      }
      var last := |blocks| - 1;
      var recoverers := [];
      if ShouldRecover(state, last) {
        recoverers := recoverers + [Recoverer(FirstLost(state), StateDB)];
      }
      if ShouldRecover(history, last) {
        recoverers := recoverers + [Recoverer(FirstLost(history), HistoryDB)];
      }
      if |recoverers| == 0 {
        return true, power;
      }
      if |recoverers| == 1 {
        ok, rest := RecommitLostBlocks(recoverers[0].first, last, [recoverers[0].db], power);
        return;
      }
      if recoverers[0].first > recoverers[1].first {
        recoverers := [recoverers[1], recoverers[0]];
      }
      ok, rest := RecommitBoth(recoverers[0], recoverers[1], power);
    }

    /** The lagging database up to the other one, then both together. */
    method RecommitBoth(lag: Recoverer, other: Recoverer, power: nat) returns (ok: bool, rest: nat)
      requires lag.first <= other.first < |blocks|
      modifies this
      ensures Outcome(Contents(), rest, ok) == CatchUp(old(Contents()), lag, other, power)
    {
      rest := power;
      if lag.first != other.first {
        var bound: nat := other.first - 1;
        ok, rest := RecommitLostBlocks(lag.first, bound, [lag.db], power);
        if !ok {
          return;
        }
      }
      ok, rest := RecommitLostBlocks(other.first, |blocks| - 1, [lag.db, other.db], rest);
    }

    /** Commit of the next block. ValidateAndPrepare or AddBlock may refuse it; after AddBlock
        a failing database write panics, which is the peer dying there. */
    method Commit(block: B, accepted: bool, power: nat) returns (r: CommitResult, rest: nat)
      requires CaughtUp(Contents())
      modifies this
      ensures r.Refused? <==> !accepted
      ensures r.Refused? ==> Contents() == old(Contents()) && rest == power
      ensures !r.Refused? ==> Outcome(Contents(), rest, r.Done?) == CommitBlock(old(Contents()), block, power)
      ensures Recoverable(Contents()) && (!r.Died? ==> CaughtUp(Contents()))
    {
      if !accepted {
        return Refused, power;
      }
      CommitSafe(Contents(), block, power);
      var n := |blocks|;
      if power == 0 {
        return Died, 0;
      }
      blocks := blocks + [block];
      if power == 1 {
        return Died, 0;
      }
      state := Store(Some(n), state.applied + [Committed(block)]);
      if power == 2 {
        return Died, 0;
      }
      history := Store(Some(n), history.applied + [Committed(block)]);
      return Done, power - 3;
    }
  }
}
