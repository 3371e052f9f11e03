/** Creation of ledgers: the id store with its under-construction flag, on top of the ledgers. */
module LedgerProvider {
  import opened Common
  import opened KvLedger
  import Lex

  /** What survives the process: the id store (its flag and the ids it lists) and the stores of
      each ledger. */
  datatype Sys<+B> = Sys(flag: Option<string>, listed: set<string>, ledgers: map<string, Disk<B>>)

  function DiskOf<B>(s: Sys<B>, id: string): Disk<B> {
    if id in s.ledgers then s.ledgers[id] else Empty()
  }

  function ChainHeight<B>(s: Sys<B>, id: string): nat { |DiskOf(s, id).blocks| }

  function WithDisk<B>(s: Sys<B>, id: string, d: Disk<B>): Sys<B> {
    s.(ledgers := s.ledgers[id := d])
  }

  /** createLedgerID: one batch that adds the id and removes the flag. */
  function AddId<B>(s: Sys<B>, id: string): Sys<B> {
    s.(listed := s.listed + {id}, flag := None)
  }

  // ---------------------------------------------------------------- operations

  datatype CreateResult = Created | Exists | OpenFailed | CommitFailed | CreateDied

  /** Create, with the peer living through `power` more store writes. */
  ghost function CreateLedger<B>(s: Sys<B>, id: string, genesis: B, opens: bool, accepted: bool, power: nat)
    : (Sys<B>, CreateResult)
    requires LedgerOk(s, id)
  {
    if id in s.listed then (s, Exists)
    else if power == 0 then (s, CreateDied)
    else
      var s1 := s.(flag := Some(id));
      if opens then Build(s1, id, genesis, accepted, power - 1)
      else if power == 1 then (s1, CreateDied)
      else (s1.(flag := None), OpenFailed)
  }

  /** The rest of Create, once the flag is set and the stores are open. */
  ghost function Build<B>(s1: Sys<B>, id: string, genesis: B, accepted: bool, power: nat)
    : (Sys<B>, CreateResult)
    requires Recoverable(DiskOf(s1, id))
  {
    var o := Recover(DiskOf(s1, id), power);
    var s2 := WithDisk(s1, id, o.disk);
    if !o.alive then (s2, CreateDied)
    else if !accepted || o.disk.blocks != [] then (s2, CommitFailed)
    else
      var c := CommitBlock(o.disk, genesis, o.power);
      var s3 := WithDisk(s1, id, c.disk);
      if !c.alive || c.power == 0 then (s3, CreateDied) else (AddId(s3, id), Created)
  }

  /** A creation that succeeds leaves the flag clear and the id listed, so the ids can be listed. */
  lemma CreatedIsListed<B>(s: Sys<B>, id: string, genesis: B, opens: bool, accepted: bool, power: nat)
    requires LedgerOk(s, id)
    ensures var (s', r) := CreateLedger(s, id, genesis, opens, accepted, power);
      r == Created ==> s'.flag == None && s'.listed == s.listed + {id}
  {
  }

  datatype RecoveryResult = Recovered | RecoveryDied | DataInconsistency | AlreadyListed

  /** recoverUnderConstructionLedger, run before the provider is usable. */
  ghost function RecoverProvider<B>(s: Sys<B>, power: nat): (Sys<B>, RecoveryResult)
    requires SysOk(s)
  {
    if s.flag == None || s.flag == Some("") then (s, Recovered)
    else
      var id := s.flag.value;
      assert LedgerOk(s, id);
      var o := Recover(DiskOf(s, id), power);
      var s2 := WithDisk(s, id, o.disk);
      if !o.alive then (s2, RecoveryDied)
      else if |o.disk.blocks| == 0 then
        if o.power == 0 then (s2, RecoveryDied) else (s2.(flag := None), Recovered)
      else if |o.disk.blocks| == 1 then
        if id in s.listed then (s2, AlreadyListed)
        else if o.power == 0 then (s2, RecoveryDied)
        else (AddId(s2, id), Recovered)
      else (s2, DataInconsistency)
  }

  // ---------------------------------------------------------------- what has to hold

  /** For one ledger: readable stores; a genesis block if it is listed; at most the genesis block
      if it is not, and then the flag names it. */
  ghost predicate LedgerOk<B>(s: Sys<B>, id: string) {
    && Recoverable(DiskOf(s, id))
    && (id in s.listed ==> ChainHeight(s, id) >= 1)
    && (id !in s.listed ==> ChainHeight(s, id) <= 1)
    && (id !in s.listed && ChainHeight(s, id) == 1 && id != "" ==> s.flag == Some(id))
  }

  ghost predicate SysOk<B>(s: Sys<B>) {
    && (forall id :: LedgerOk(s, id))
    && (s.flag.Some? ==> s.flag.value !in s.listed)
  }

  /** A ledger with a proper id is listed exactly if its genesis block is committed. */
  ghost predicate Settled<B>(s: Sys<B>) {
    forall id :: id != "" ==> (id in s.listed <==> ChainHeight(s, id) >= 1)
  }

  /** While a ledger is being created: the flag names it and it holds at most the genesis block. */
  lemma UnderConstruction<B>(s: Sys<B>, id: string, d: Disk<B>)
    requires SysOk(s) && Settled(s) && id !in s.listed
    requires Recoverable(d) && |d.blocks| <= 1
    ensures var s1 := WithDisk(s.(flag := Some(id)), id, d);
      && SysOk(s1)
      && (d.blocks == [] || id == "" ==> Settled(s1))
      && (|d.blocks| == 1 ==> SysOk(AddId(s1, id)) && Settled(AddId(s1, id)))
  {
    var s1 := WithDisk(s.(flag := Some(id)), id, d);
    forall o
      ensures LedgerOk(s1, o)
      ensures |d.blocks| == 1 ==> LedgerOk(AddId(s1, id), o)
    {
      assert LedgerOk(s, o);
    }
  }

  /** What a creation leaves, however it ends: other ledgers are as they were, the id is listed and
      has exactly its genesis block if it succeeds, and unless the peer died, listed means genesis
      committed. */
  ghost predicate CreationOk<B>(s: Sys<B>, id: string, genesis: B, s': Sys<B>, r: CreateResult) {
    && SysOk(s')
    && (r != CreateDied ==> Settled(s'))
    && (r == Created ==> s'.flag == None && CaughtUp(DiskOf(s', id)) && DiskOf(s', id).blocks == [genesis])
    && s'.listed == (if r == Created then s.listed + {id} else s.listed)
    && (forall o :: o != id ==> DiskOf(s', o) == DiskOf(s, o))
    && s'.flag in {s.flag, Some(id), None}
  }

  lemma BuildSafe<B>(s: Sys<B>, id: string, genesis: B, accepted: bool, power: nat)
    requires SysOk(s) && Settled(s) && id !in s.listed
    ensures LedgerOk(s, id)
    ensures var (s', r) := Build(s.(flag := Some(id)), id, genesis, accepted, power);
      CreationOk(s, id, genesis, s', r) && r != Exists
  {
    assert LedgerOk(s, id);
    var d := DiskOf(s, id);
    var o := Recover(d, power);
    RecoverySafe(d, power);
    if o.alive && accepted && o.disk.blocks == [] {
      GenesisSafe(s, id, genesis, o.disk, o.power);
    } else {
      Unchanged(s, id, genesis, o.disk);
    }
  }

  /** The ledger's stores have been opened, and its blocks are as they were. */
  lemma Unchanged<B>(s: Sys<B>, id: string, genesis: B, d: Disk<B>)
    requires SysOk(s) && Settled(s) && id !in s.listed && Recoverable(d) && d.blocks == DiskOf(s, id).blocks
    ensures var s1 := WithDisk(s.(flag := Some(id)), id, d);
      CreationOk(s, id, genesis, s1, CreateDied) && CreationOk(s, id, genesis, s1, CommitFailed)
  {
    assert LedgerOk(s, id);
    UnderConstruction(s, id, d);
  }

  /** The genesis block is being committed. */
  lemma GenesisSafe<B>(s: Sys<B>, id: string, genesis: B, d: Disk<B>, power: nat)
    requires SysOk(s) && Settled(s) && id !in s.listed && CaughtUp(d) && d.blocks == []
    ensures var c := CommitBlock(d, genesis, power); var s1 := WithDisk(s.(flag := Some(id)), id, c.disk);
      CreationOk(s, id, genesis, s1, CreateDied) && (c.alive ==> CreationOk(s, id, genesis, AddId(s1, id), Created))
  {
    CommitSafe(d, genesis, power);
    UnderConstruction(s, id, CommitBlock(d, genesis, power).disk);
  }

  lemma FlagOnly<B>(s: Sys<B>, flag: Option<string>)
    requires SysOk(s) && Settled(s) && (flag.Some? ==> flag.value !in s.listed)
    ensures SysOk(s.(flag := flag)) && Settled(s.(flag := flag))
  {
    forall o
      ensures LedgerOk(s.(flag := flag), o)
      ensures ChainHeight(s.(flag := flag), o) == ChainHeight(s, o)
    {
      assert LedgerOk(s, o);
    }
  }

  ghost predicate CreatesSafely<B>(s: Sys<B>, id: string, genesis: B, o: (Sys<B>, CreateResult)) {
    CreationOk(s, id, genesis, o.0, o.1) && (o.1 == Exists <==> id in s.listed) && (o.1 == Exists ==> o.0 == s)
  }

  lemma CreateSafe<B>(s: Sys<B>, id: string, genesis: B, opens: bool, accepted: bool, power: nat)
    requires SysOk(s) && Settled(s)
    ensures LedgerOk(s, id)
    ensures CreatesSafely(s, id, genesis, CreateLedger(s, id, genesis, opens, accepted, power))
  {
    assert LedgerOk(s, id);
    if id in s.listed || power == 0 {
      NotBegun(s, id, genesis);
    } else if opens {
      Begun(s, id, genesis, accepted, power);
    } else {
      OpenFails(s, id, genesis);
    }
  }

  lemma NotBegun<B>(s: Sys<B>, id: string, genesis: B)
    requires SysOk(s) && Settled(s)
    ensures if id in s.listed then CreatesSafely(s, id, genesis, (s, Exists)) else CreatesSafely(s, id, genesis, (s, CreateDied))
  {
  }

  lemma Begun<B>(s: Sys<B>, id: string, genesis: B, accepted: bool, power: nat)
    requires SysOk(s) && Settled(s) && id !in s.listed && power > 0
    ensures LedgerOk(s, id)
    ensures CreatesSafely(s, id, genesis, CreateLedger(s, id, genesis, true, accepted, power))
  {
    BuildSafe(s, id, genesis, accepted, power - 1);
  }

  lemma OpenFails<B>(s: Sys<B>, id: string, genesis: B)
    requires SysOk(s) && Settled(s) && id !in s.listed
    ensures CreatesSafely(s, id, genesis, (s.(flag := Some(id)), CreateDied))
    ensures CreatesSafely(s, id, genesis, (s.(flag := None), OpenFailed))
  {
    FlagOnly(s, Some(id));
    FlagOnly(s, None);
  }

  /** Recovery never meets the data-inconsistency panic or an id that is already listed. When it
      ends, a ledger is listed exactly if its genesis block is committed, and the flag is gone
      unless it named the empty id. */
  lemma RecoverySettles<B>(s: Sys<B>, power: nat)
    requires SysOk(s)
    ensures var (s', r) := RecoverProvider(s, power);
      && r != DataInconsistency && r != AlreadyListed
      && SysOk(s')
      && (r == Recovered ==> Settled(s') && (s'.flag == None <==> s.flag != Some("")))
      && s.listed <= s'.listed
      && (forall id :: DiskOf(s', id).blocks == DiskOf(s, id).blocks)
  {
    if s.flag.Some? && s.flag.value != "" {
      var id := s.flag.value;
      assert LedgerOk(s, id);
      RecoverySafe(DiskOf(s, id), power);
      var s2 := WithDisk(s, id, Recover(DiskOf(s, id), power).disk);
      Resolved(s, id, s2.ledgers[id]);
    } else {
      forall o
        ensures o != "" ==> (o in s.listed <==> ChainHeight(s, o) >= 1)
      {
        assert LedgerOk(s, o);
      }
    }
  }

  /** The flagged ledger, with its stores recovered, before and after the last write of recovery. */
  lemma Resolved<B>(s: Sys<B>, id: string, d: Disk<B>)
    requires SysOk(s) && s.flag == Some(id) && id != "" && Recoverable(d) && d.blocks == DiskOf(s, id).blocks
    ensures |d.blocks| <= 1
    ensures var s2 := WithDisk(s, id, d);
      && SysOk(s2)
      && (|d.blocks| == 0 ==> SysOk(s2.(flag := None)) && Settled(s2.(flag := None)))
      && (|d.blocks| == 1 ==> SysOk(AddId(s2, id)) && Settled(AddId(s2, id)))
  {
    assert LedgerOk(s, id);
    var s2 := WithDisk(s, id, d);
    forall o
      ensures LedgerOk(s2, o)
      ensures |d.blocks| == 0 ==> LedgerOk(s2.(flag := None), o) &&
                                  (o != "" ==> (o in s2.listed <==> ChainHeight(s2.(flag := None), o) >= 1))
      ensures |d.blocks| == 1 ==> LedgerOk(AddId(s2, id), o) &&
                                  (o != "" ==> (o in AddId(s2, id).listed <==> ChainHeight(AddId(s2, id), o) >= 1))
    {
      assert LedgerOk(s, o);
    }
  }

  // ---------------------------------------------------------------- whole runs

  /** A run of the peer: inUse holds the ledgers this process has opened. */
  datatype Proc<+B> = Proc(sys: Sys<B>, up: bool, inUse: set<string>)

  datatype Event<B> =
    | Create(id: string, genesis: B, opens: bool, accepted: bool, power: nat)
    | Open(id: string, power: nat)
    | Append(id: string, block: B, accepted: bool, power: nat)
    | Restart(kept: string -> (nat, nat), power: nat)

  ghost predicate Inv<B>(p: Proc<B>) {
    && SysOk(p.sys)
    && (p.up ==> Settled(p.sys))
    && (p.up ==> forall id :: id in p.inUse ==> id in p.sys.listed && CaughtUp(DiskOf(p.sys, id)))
  }

  function LoseAll<B>(s: Sys<B>, kept: string -> (nat, nat)): Sys<B> {
    s.(ledgers := map id | id in s.ledgers :: Lose(s.ledgers[id], kept(id).0, kept(id).1))
  }

  lemma LoseSafe<B>(s: Sys<B>, kept: string -> (nat, nat))
    requires SysOk(s)
    ensures SysOk(LoseAll(s, kept))
    ensures forall id :: DiskOf(LoseAll(s, kept), id).blocks == DiskOf(s, id).blocks
  {
    var s' := LoseAll(s, kept);
    forall id
      ensures LedgerOk(s', id) && DiskOf(s', id).blocks == DiskOf(s, id).blocks
    {
      assert LedgerOk(s, id);
      if id in s.ledgers {
        LoseRecoverable(s.ledgers[id], kept(id).0, kept(id).1);
      }
    }
  }

  /** Writing the stores of a listed ledger. */
  lemma WriteListed<B>(s: Sys<B>, id: string, d: Disk<B>)
    requires SysOk(s) && id in s.listed
    requires Recoverable(d) && DiskOf(s, id).blocks <= d.blocks
    ensures SysOk(WithDisk(s, id, d))
    ensures Settled(s) ==> Settled(WithDisk(s, id, d))
  {
    var s' := WithDisk(s, id, d);
    assert LedgerOk(s, id);
    forall o
      ensures LedgerOk(s', o)
      ensures Settled(s) && o != "" ==> (o in s'.listed <==> ChainHeight(s', o) >= 1)
    {
      assert LedgerOk(s, o);
    }
  }

  ghost function Next<B>(p: Proc<B>, e: Event<B>): (p': Proc<B>)
    requires Inv(p)
    ensures Inv(p')
  {
    match e
    case Create(id, genesis, opens, accepted, power) =>
      if !p.up then p
      else
        CreateSafe(p.sys, id, genesis, opens, accepted, power);
        var (s', r) := CreateLedger(p.sys, id, genesis, opens, accepted, power);
        Proc(s', r != CreateDied, if r == Created then p.inUse + {id} else p.inUse)
    case Open(id, power) =>
      if !p.up || id !in p.sys.listed then p
      else
        assert LedgerOk(p.sys, id);
        RecoverySafe(DiskOf(p.sys, id), power);
        var o := Recover(DiskOf(p.sys, id), power);
        WriteListed(p.sys, id, o.disk);
        Proc(WithDisk(p.sys, id, o.disk), o.alive, p.inUse + {id})
    case Append(id, block, accepted, power) =>
      if !p.up || id !in p.inUse || !accepted then p
      else
        CommitSafe(DiskOf(p.sys, id), block, power);
        var o := CommitBlock(DiskOf(p.sys, id), block, power);
        WriteListed(p.sys, id, o.disk);
        Proc(WithDisk(p.sys, id, o.disk), o.alive, p.inUse)
    case Restart(kept, power) =>
      LoseSafe(p.sys, kept);
      RecoverySettles(LoseAll(p.sys, kept), power);
      var (s', r) := RecoverProvider(LoseAll(p.sys, kept), power);
      Proc(s', r == Recovered, {})
  }

  ghost function Run<B>(es: seq<Event<B>>): (p: Proc<B>)
    ensures Inv(p)
  {
    if es == [] then Proc(Sys(None, {}, map[]), true, {})
    else Next(Run(es[..|es| - 1]), es[|es| - 1])
  }

  /** Over every run: the flag only names an unlisted ledger of height 0 or 1; the height of a
      listed ledger is at least 1, so Height - 1 does not wrap; and while the peer is up a ledger
      with a proper id is listed exactly if its genesis block is committed. */
  lemma {:induction false} EveryRun<B>(es: seq<Event<B>>, id: string)
    ensures var p := Run(es);
      && (p.sys.flag == Some(id) ==> id !in p.sys.listed && ChainHeight(p.sys, id) <= 1)
      && (id in p.sys.listed ==> ChainHeight(p.sys, id) >= 1)
      && (p.up && id != "" ==> (id in p.sys.listed <==> ChainHeight(p.sys, id) >= 1))
  {
    var p := Run(es);
    assert LedgerOk(p.sys, id);
  }

  /** Whenever the peer is started again after any run, whatever its databases have kept and however
      far it gets, it never meets the data-inconsistency panic or an id that is already listed. */
  lemma {:induction false} RestartNeverPanics<B>(es: seq<Event<B>>, kept: string -> (nat, nat), power: nat)
    ensures SysOk(LoseAll(Run(es).sys, kept))
    ensures var r := RecoverProvider(LoseAll(Run(es).sys, kept), power).1; r == Recovered || r == RecoveryDied
  {
    LoseSafe(Run(es).sys, kept);
    RecoverySettles(LoseAll(Run(es).sys, kept), power);
  }

  ghost predicate NeverNamesEmpty<B>(es: seq<Event<B>>) {
    forall i :: 0 <= i < |es| && es[i].Create? ==> es[i].id != ""
  }

  /** Over every run, a restart that succeeds leaves the flag clear exactly if it did not name the
      empty id, and it does not in a run that never creates a ledger with that id. */
  lemma {:induction false} FlagClear<B>(es: seq<Event<B>>)
    ensures es != [] && es[|es| - 1].Restart? && Run(es).up ==>
      (Run(es).sys.flag == None <==> Run(es[..|es| - 1]).sys.flag != Some(""))
    ensures NeverNamesEmpty(es) ==> Run(es).sys.flag != Some("")
  {
    if es != [] {
      var before := es[..|es| - 1];
      assert forall i :: 0 <= i < |before| ==> before[i] == es[i];
      FlagClear(before);
      FlagAfter(Run(before), es[|es| - 1]);
    }
  }

  lemma FlagAfter<B>(p: Proc<B>, e: Event<B>)
    requires Inv(p)
    ensures var p' := Next(p, e);
      && (e.Restart? && p'.up ==> (p'.sys.flag == None <==> p.sys.flag != Some("")))
      && (p.sys.flag != Some("") && !(e.Create? && e.id == "") ==> p'.sys.flag != Some(""))
  {
    match e {
      case Create(id, genesis, opens, accepted, power) =>
        if p.up {
          CreateSafe(p.sys, id, genesis, opens, accepted, power);
        }
      case Open(_, _) =>
      case Append(_, _, _, _) =>
      case Restart(kept, power) =>
        LoseSafe(p.sys, kept);
        RecoverySettles(LoseAll(p.sys, kept), power);
    }
  }

  /** A creation that is not cut short lists the ledger with its genesis block and clears the flag. */
  lemma CreationSucceeds<B>(p: Proc<B>, id: string, genesis: B, power: nat)
    requires Inv(p) && p.up && id !in p.sys.listed && ChainHeight(p.sys, id) == 0 && power >= 5
    ensures var p' := Next(p, Create(id, genesis, true, true, power));
      p'.up && p'.sys.flag == None && id in p'.sys.listed && DiskOf(p'.sys, id).blocks == [genesis]
  {
    assert LedgerOk(p.sys, id);
    RecoverySafe(DiskOf(p.sys, id), power - 1);
    CreateSafe(p.sys, id, genesis, true, true, power);
  }

  /** How a creation ends when the peer lives through it, for every ledger and however it goes: what it
      answers, and what it does to the flag, the ids and the ledger's blocks. A ledger that fails to
      open leaves the flag clear, and one whose genesis block is refused leaves it set. */
  lemma CreationEnds<B>(p: Proc<B>, id: string, genesis: B, opens: bool, accepted: bool, power: nat)
    requires Inv(p) && p.up && power >= 5 + 2 * ChainHeight(p.sys, id)
    ensures LedgerOk(p.sys, id)
    ensures var (s', r) := CreateLedger(p.sys, id, genesis, opens, accepted, power);
      && (id in p.sys.listed ==> r == Exists && s' == p.sys)
      && (id !in p.sys.listed && !opens ==> r == OpenFailed && s' == p.sys.(flag := None))
      && (id !in p.sys.listed && opens && (!accepted || ChainHeight(p.sys, id) > 0) ==>
           && r == CommitFailed && s'.flag == Some(id) && s'.listed == p.sys.listed
           && DiskOf(s', id).blocks == DiskOf(p.sys, id).blocks)
      && (id !in p.sys.listed && opens && accepted && ChainHeight(p.sys, id) == 0 ==>
           r == Created && s'.flag == None && s'.listed == p.sys.listed + {id} && DiskOf(s', id).blocks == [genesis])
  {
    assert LedgerOk(p.sys, id);
    RecoverySafe(DiskOf(p.sys, id), power - 1);
    CreateSafe(p.sys, id, genesis, opens, accepted, power);
  }

  /** An open ledger takes an accepted block at its end and a refused one not at all, and leaves the
      other ledgers, the flag and the ids alone. */
  lemma AppendStores<B>(p: Proc<B>, id: string, block: B, accepted: bool, power: nat)
    requires Inv(p) && p.up && id in p.inUse
    ensures var p' := Next(p, Append(id, block, accepted, power));
      && DiskOf(p'.sys, id).blocks == DiskOf(p.sys, id).blocks + (if accepted && power > 0 then [block] else [])
      && (forall o :: o != id ==> DiskOf(p'.sys, o) == DiskOf(p.sys, o))
      && p'.sys.flag == p.sys.flag && p'.sys.listed == p.sys.listed
      && (p'.up <==> !accepted || power >= 3)
  {
    if accepted {
      CommitSafe(DiskOf(p.sys, id), block, power);
    }
  }

  /** Opening a listed ledger brings its databases to the end of its chain and changes no block. */
  lemma OpenCatchesUp<B>(p: Proc<B>, id: string, power: nat)
    requires Inv(p) && p.up && id in p.sys.listed
    ensures var p' := Next(p, Open(id, power));
      && DiskOf(p'.sys, id).blocks == DiskOf(p.sys, id).blocks
      && (p'.up ==> CaughtUp(DiskOf(p'.sys, id)) && id in p'.inUse)
      && (power >= 2 * ChainHeight(p.sys, id) ==> p'.up)
      && (forall o :: o != id ==> DiskOf(p'.sys, o) == DiskOf(p.sys, o))
      && p'.sys.flag == p.sys.flag && p'.sys.listed == p.sys.listed
  {
    assert LedgerOk(p.sys, id);
    RecoverySafe(DiskOf(p.sys, id), power);
  }

  /** The empty id is the exception: its creation cut short after the block store write leaves,
      even after a complete restart, a flag that stays set and a committed genesis block that
      is not listed. */
  lemma EmptyIdIsNotRecovered<B>(genesis: B, kept: string -> (nat, nat), power: nat)
    ensures var p := Next(Next(Run([]), Create("", genesis, true, true, 2)), Restart(kept, power));
      p.up && p.sys.flag == Some("") && ChainHeight(p.sys, "") == 1 && "" !in p.sys.listed
  {
    var p0 := Run<B>([]);
    assert LedgerOk(p0.sys, "");
    assert Recover(DiskOf(p0.sys, ""), 1) == Outcome(Empty(), 1, true);
    var p1 := Next(p0, Create("", genesis, true, true, 2));
    LoseSafe(p1.sys, kept);
  }

  // ---------------------------------------------------------------- the id store

  const FLAG_KEY := "underConstructionLedgerKey"
  const LEDGER_PREFIX := "l"

  function EncodeLedgerKey(id: string): string { LEDGER_PREFIX + id }

  function DecodeLedgerID(key: string): string
    requires |key| >= 1
  {
    key[|LEDGER_PREFIX|..]
  }

  predicate IsLedgerKey(key: string) { |key| >= 1 && key[0] == 'l' }

  function FlagIn(db: map<string, string>): Option<string> {
    if FLAG_KEY in db then Some(db[FLAG_KEY]) else None
  }

  function IdsIn(db: map<string, string>): set<string> {
    set k | k in db && IsLedgerKey(k) :: DecodeLedgerID(k)
  }

  lemma KeyOfId(db: map<string, string>, id: string)
    ensures EncodeLedgerKey(id) in db <==> id in IdsIn(db)
  {
    assert DecodeLedgerID(EncodeLedgerKey(id)) == id;
    forall k | IsLedgerKey(k)
      ensures EncodeLedgerKey(DecodeLedgerID(k)) == k
    {
      KeyDecodes(k);
    }
  }

  lemma KeyDecodes(k: string)
    requires IsLedgerKey(k)
    ensures EncodeLedgerKey(DecodeLedgerID(k)) == k
  {
    assert k == [k[0]] + k[1..];
  }

  /** The three writes to the store, as writes to its flag and its ids. */
  lemma StoreWrites(db: map<string, string>, id: string)
    ensures FlagIn(db[FLAG_KEY := id]) == Some(id) && IdsIn(db[FLAG_KEY := id]) == IdsIn(db)
    ensures FlagIn(db - {FLAG_KEY}) == None && IdsIn(db - {FLAG_KEY}) == IdsIn(db)
    ensures var db' := db[EncodeLedgerKey(id) := ""] - {FLAG_KEY};
      FlagIn(db') == None && IdsIn(db') == IdsIn(db) + {id}
  {
    assert !IsLedgerKey(FLAG_KEY);
    var k := EncodeLedgerKey(id);
    assert IsLedgerKey(k) && DecodeLedgerID(k) == id;
    forall o
      ensures o in IdsIn(db[FLAG_KEY := id]) <==> o in IdsIn(db)
      ensures o in IdsIn(db - {FLAG_KEY}) <==> o in IdsIn(db)
      ensures o in IdsIn(db[k := ""] - {FLAG_KEY}) <==> o in IdsIn(db) || o == id
    {
      KeyOfId(db, o);
      KeyOfId(db[FLAG_KEY := id], o);
      KeyOfId(db - {FLAG_KEY}, o);
      KeyOfId(db[k := ""] - {FLAG_KEY}, o);
      assert EncodeLedgerKey(o)[0] == 'l';
      assert EncodeLedgerKey(o)[1..] == o && k[1..] == id;
    }
  }

  /** One turn of the loop in getAllLedgerIds. At the flag key it goes on without moving the
      iterator. */
  function ListTurn(keys: seq<string>, st: (nat, seq<string>)): (nat, seq<string>)
    requires st.0 < |keys| && keys[st.0] != ""
  {
    if keys[st.0] == FLAG_KEY then st else (st.0 + 1, st.1 + [DecodeLedgerID(keys[st.0])])
  }

  function ListAfter(keys: seq<string>, turns: nat): (r: (nat, seq<string>))
    requires "" !in keys
    ensures r.0 <= |keys|
  {
    if turns == 0 then (0, [])
    else
      var st := ListAfter(keys, turns - 1);
      if st.0 < |keys| then ListTurn(keys, st) else st
  }

  /** The loop ends exactly when the flag key is not in the store. */
  lemma ListEndsIffFlagClear(keys: seq<string>)
    requires "" !in keys
    ensures (exists n :: ListAfter(keys, n).0 == |keys|) <==> FLAG_KEY !in keys
  {
    if FLAG_KEY in keys {
      var f :| 0 <= f < |keys| && keys[f] == FLAG_KEY;
      forall n: nat
        ensures ListAfter(keys, n).0 <= f
      {
        StuckBefore(keys, f, n);
      }
    } else {
      ListGetsThrough(keys, |keys|);
    }
  }

  lemma {:induction false} StuckBefore(keys: seq<string>, f: nat, n: nat)
    requires "" !in keys && f < |keys| && keys[f] == FLAG_KEY
    ensures ListAfter(keys, n).0 <= f
  {
    if n > 0 {
      StuckBefore(keys, f, n - 1);
    }
  }

  lemma {:induction false} ListGetsThrough(keys: seq<string>, n: nat)
    requires "" !in keys && FLAG_KEY !in keys && n <= |keys|
    ensures ListAfter(keys, n).0 == n
  {
    if n > 0 {
      ListGetsThrough(keys, n - 1);
    }
  }

  // ---------------------------------------------------------------- the code

  class Provider<B> {
    var db: map<string, string>
    var ledgers: map<string, Disk<B>>

    ghost function Contents(): Sys<B>
      reads this
    {
      Sys(FlagIn(db), IdsIn(db), ledgers)
    }

    /** The store holds nothing but the flag and ids. */
    ghost predicate Valid()
      reads this
    {
      forall k :: k in db ==> k == FLAG_KEY || IsLedgerKey(k)
    }

    constructor ()
      ensures Valid() && Contents() == Sys(None, {}, map[])
    {
      db, ledgers := map[], map[];
    }

    /** openInternal: the handles of the three stores and recoverDBs. What recovery has written
        stays written when the peer dies. */
    method OpenInternal(id: string, power: nat) returns (l: Ledger<B>, ok: bool, rest: nat)
      requires Recoverable(DiskOf(Contents(), id))
      modifies this`ledgers
      ensures fresh(l)
      ensures Outcome(l.Contents(), rest, ok) == Recover(DiskOf(old(Contents()), id), power)
      ensures ledgers == old(ledgers)[id := l.Contents()]
      ensures ok ==> CaughtUp(l.Contents())
    {
      l := new Ledger(if id in ledgers then ledgers[id] else Empty());
      ok, rest := l.RecoverDBs(power);
      ledgers := ledgers[id := Disk(l.blocks, l.state, l.history)];
    }

    /** setUnderConstructionFlag. */
    method SetFlag(id: string)
      requires Valid()
      modifies this`db
      ensures Valid() && Contents() == old(Contents()).(flag := Some(id))
    {
      StoreWrites(db, id);
      db := db[FLAG_KEY := id];
    }

    /** unsetUnderConstructionFlag. */
    method UnsetFlag()
      requires Valid()
      modifies this`db
      ensures Valid() && Contents() == old(Contents()).(flag := None)
    {
      StoreWrites(db, "");
      db := db - {FLAG_KEY};
    }

    method LedgerIDExists(id: string) returns (r: bool)
      ensures r <==> id in Contents().listed
    {
      KeyOfId(db, id);
      return EncodeLedgerKey(id) in db;
    }

    /** createLedgerID: the id and the flag in one batch. */
    method CreateLedgerID(id: string)
      requires Valid()
      modifies this`db
      ensures Valid() && Contents() == AddId(old(Contents()), id)
    {
      StoreWrites(db, id);
      db := db[EncodeLedgerKey(id) := ""] - {FLAG_KEY};
    }

    method Create(id: string, genesis: B, opens: bool, accepted: bool, power: nat) returns (r: CreateResult)
      requires Valid() && LedgerOk(Contents(), id)
      modifies this
      ensures Valid() && (Contents(), r) == CreateLedger(old(Contents()), id, genesis, opens, accepted, power)
    {
      var known := LedgerIDExists(id);
      if known {
        return Exists;
      }
      if power == 0 {
        return CreateDied;
      }
      SetFlag(id);
      if opens {
        r := BuildLedger(id, genesis, accepted, power - 1);
        return;
      }
      if power == 1 {
        return CreateDied;
      }
      UnsetFlag();
      return OpenFailed;
    }

    method BuildLedger(id: string, genesis: B, accepted: bool, power: nat) returns (r: CreateResult)
      requires Valid() && Recoverable(DiskOf(Contents(), id))
      modifies this
      ensures Valid() && (Contents(), r) == Build(old(Contents()), id, genesis, accepted, power)
    {
      var l, ok, rest := OpenInternal(id, power);
      if !ok {
        return CreateDied;
      }
      var c, left := l.Commit(genesis, accepted && l.blocks == [], rest);
      ledgers := ledgers[id := Disk(l.blocks, l.state, l.history)];
      assert ledgers == old(ledgers)[id := l.Contents()];
      if c.Refused? {
        return CommitFailed;
      }
      if c.Died? || left == 0 {
        return CreateDied;
      }
      CreateLedgerID(id);
      return Created;
    }

    method RecoverUnderConstructionLedger(power: nat) returns (r: RecoveryResult)
      requires Valid() && SysOk(Contents())
      modifies this
      ensures Valid() && (r == Recovered && old(Contents().flag) != Some("") ==> Contents().flag == None)
      ensures (Contents(), r) == RecoverProvider(old(Contents()), power)
      ensures SysOk(Contents()) && (r == Recovered ==> Settled(Contents()))
    {
      RecoverySettles(Contents(), power);
      var id := if FLAG_KEY in db then db[FLAG_KEY] else "";
      if id == "" {
        return Recovered;
      }
      assert LedgerOk(Contents(), id);
      var l, ok, rest := OpenInternal(id, power);
      if !ok {
        return RecoveryDied;
      }
      if |l.blocks| == 0 {
        if rest == 0 {
          return RecoveryDied;
        }
        UnsetFlag();
        return Recovered;
      }
      if |l.blocks| == 1 {
        var known := LedgerIDExists(id);
        if known {
          return AlreadyListed;
        }
        if rest == 0 {
          return RecoveryDied;
        }
        CreateLedgerID(id);
        return Recovered;
      }
      return DataInconsistency;
    }

    /** getAllLedgerIds over the store's iterator, in every state where the flag is clear, so after
        each Create that succeeds (CreatedIsListed) and after recovery: by ListEndsIffFlagClear the
        loop does not end in the others. */
    method GetAllLedgerIds(keys: seq<string>) returns (ids: seq<string>)
      requires Valid() && Contents().flag == None
      requires keys == Lex.SortedKeys(db.Keys)
      ensures forall id :: id in ids <==> id in Contents().listed
      ensures Lex.Sorted(ids)
    {
      assert forall j :: 0 <= j < |keys| ==> keys[j] in keys;
      ids := CollectIds(keys);
      ListedExactly(db, keys, ids);
    }
  }

  /** The loop over the iterator: the flag's key does not move it on. */
  method CollectIds(keys: seq<string>) returns (ids: seq<string>)
    requires forall j :: 0 <= j < |keys| ==> keys[j] != FLAG_KEY && IsLedgerKey(keys[j])
    ensures |ids| == |keys| && forall j :: 0 <= j < |keys| ==> EncodeLedgerKey(ids[j]) == keys[j]
  {
    ids := [];
    var i := 0;
    while i < |keys|
      invariant 0 <= i <= |keys| && |ids| == i
      invariant forall j :: 0 <= j < i ==> EncodeLedgerKey(ids[j]) == keys[j]
    {
      if keys[i] != FLAG_KEY {
        KeyDecodes(keys[i]);
        ids := ids + [DecodeLedgerID(keys[i])];
        i := i + 1;
      }
    }
  }

  lemma ListedExactly(db: map<string, string>, keys: seq<string>, ids: seq<string>)
    requires forall k :: k in keys <==> k in db
    requires Lex.Sorted(keys)
    requires |ids| == |keys| && forall j :: 0 <= j < |ids| ==> EncodeLedgerKey(ids[j]) == keys[j]
    ensures forall id :: id in ids <==> id in IdsIn(db)
    ensures Lex.Sorted(ids)
  {
    forall id
      ensures id in ids <==> id in IdsIn(db)
    {
      KeyOfId(db, id);
      if id in ids {
        var j :| 0 <= j < |ids| && ids[j] == id;
        assert keys[j] in keys;
      }
      if EncodeLedgerKey(id) in db {
        var j :| 0 <= j < |keys| && keys[j] == EncodeLedgerKey(id);
        assert EncodeLedgerKey(id)[1..] == id && EncodeLedgerKey(ids[j])[1..] == ids[j];
      }
    }
    forall i, j | 0 <= i < j < |ids|
      ensures Lex.Less(ids[i], ids[j])
    {
      Lex.LessCommonFront(LEDGER_PREFIX, ids[i], ids[j]);
    }
  }
}
