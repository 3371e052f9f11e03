/** Why the checks of a block are the right ones: exactly when a transaction that stays valid would,
    run again at its place in the chain, see what it saw when it was simulated. */
module Serializability {
  import opened Common
  import opened Lex
  import opened Mvcc
  import opened Calculations
  import opened Observations

  // ---------------------------------------------------------------- what the checks have shown

  ghost predicate InSet(rec: Record, s: NsRwSet) {
    s.ns == rec.ns &&
    match rec
    case ReadRecord(_, r) => r in s.readSet
    case RangeRecord(_, q) => q in s.ranges
  }

  ghost predicate InSets(rec: Record, sets: seq<NsRwSet>) { exists j :: 0 <= j < |sets| && InSet(rec, sets[j]) }

  /** Each query of the run has been recorded in the read-write set. */
  ghost predicate Recorded(next: Program, db: DB, n: nat, sets: seq<NsRwSet>) {
    forall m :: 0 <= m < n && next(Trace(next, db, m)).Some? ==>
      InSets(RecordOf(db, next(Trace(next, db, m)).value), sets)
  }

  ghost predicate StaysValid(db: DB, blk: Block, savepoint: Height, i: nat)
    requires i < |blk.txs| == |blk.flags|
  {
    blk.txs[i].Endorser? && Commit(db, blk, true, savepoint).1.flags[i] == Valid
  }

  /** The state at the place of transaction i in its block: the batch so far, calculations included. */
  ghost function At(db: DB, blk: Block, savepoint: Height, i: nat): DB
    requires i <= |blk.txs| == |blk.flags|
  {
    Apply(db, MoveCals(BatchAt(db, blk, savepoint, i)))
  }

  /** That is the serial order of the valid transactions, but for the calculations. */
  lemma PlaceIsSerial(db: DB, blk: Block, savepoint: Height, i: nat, k: Key)
    requires i <= |blk.txs| == |blk.flags|
    ensures var b := BatchAt(db, blk, savepoint, i);
      Find(At(db, blk, savepoint, i), k) ==
      if k in b.cals && k !in b.updates then Some(b.cals[k])
      else Find(Serial(db, blk, Commit(db, blk, true, savepoint).1.flags, i), k)
  {
    GroupCommit(db, blk, savepoint, i, k);
    Pending(db, BatchAt(db, blk, savepoint, i), k);
  }

  lemma Pending(db: DB, b: Batch, k: Key)
    ensures Find(Apply(db, MoveCals(b)), k) ==
      if k in b.updates then Written(b.updates[k]) else if k in b.cals then Some(b.cals[k]) else Find(db, k)
    ensures Find(Apply(db, b.updates), k) == if k in b.updates then Written(b.updates[k]) else Find(db, k)
  {
    var m := MoveCals(b);
    assert Find(Apply(db, m), k) == if k in m then Written(m[k]) else Find(db, k);
  }

  /** The batch that namespace j of a transaction is checked against. */
  ghost function CheckedWith(db: DB, b: Batch, sets: seq<NsRwSet>, savepoint: Height, j: nat): Batch
    requires j <= |sets|
    decreases sets
  {
    if j == 0 then b
    else CheckedWith(db, Calculate(db, b, sets[0].ns, sets[0].writes, savepoint), sets[1..], savepoint, j - 1)
  }

  lemma {:induction false} CheckedWithIs(db: DB, b: Batch, sets: seq<NsRwSet>, savepoint: Height, j: nat, k: Key)
    requires CheckTx(db, b, sets, savepoint).0 == Valid && j < |sets|
    ensures var c := CheckedWith(db, b, sets, savepoint, j);
      CheckNs(db, c.updates, sets[j]) == Valid && Performed(db, b, c, k, TxOps(sets, j, k), savepoint)
    decreases sets
  {
    if j > 0 {
      var b1 := Calculate(db, b, sets[0].ns, sets[0].writes, savepoint);
      CheckedWithIs(db, b1, sets[1..], savepoint, j - 1, k);
      CalculatePerforms(db, b, sets[0].ns, sets[0].writes, savepoint, k);
      PerformedInTurn(db, b, b1, CheckedWith(db, b, sets, savepoint, j), k,
                      NsOps(sets[0].ns, sets[0].writes, k), TxOps(sets[1..], j - 1, k), savepoint);
    }
  }

  ghost function CheckedUpdates(db: DB, blk: Block, savepoint: Height, i: nat, j: nat): Updates
    requires i < |blk.txs| == |blk.flags| && blk.txs[i].Endorser? && j < |blk.txs[i].sets|
  {
    CheckedWith(db, BatchAt(db, blk, savepoint, i), blk.txs[i].sets, savepoint, j).updates
  }

  lemma ValidPasses(db: DB, blk: Block, savepoint: Height, i: nat)
    requires i < |blk.txs| == |blk.flags| && StaysValid(db, blk, savepoint, i)
    ensures CheckTx(db, BatchAt(db, blk, savepoint, i), blk.txs[i].sets, savepoint).0 == Valid
  {
    FlagsFinal(db, blk, true, savepoint, i + 1, |blk.txs|);
    FlagsFinal(db, blk, true, savepoint, i, i);
  }

  /** The reads of a namespace are of the current versions, and of no key that is pending. */
  ghost predicate ReadsStand(db: DB, ups: Updates, s: NsRwSet) {
    forall r :: r in s.readSet ==> Key(s.ns, r.key) !in ups && Holds(Apply(db, ups), ReadRecord(s.ns, r))
  }

  ghost predicate RangesStand(db: DB, ups: Updates, s: NsRwSet) {
    forall q :: q in s.ranges ==> Holds(Apply(db, ups), RangeRecord(s.ns, q))
  }

  lemma NsVerdict(db: DB, ups: Updates, s: NsRwSet)
    ensures CheckNs(db, ups, s) == Valid <==> ReadsStand(db, ups, s) && RangesStand(db, ups, s)
    ensures CheckNs(db, ups, s) == MvccReadConflict <==> !ReadsStand(db, ups, s)
    ensures CheckNs(db, ups, s) != InvalidBefore
  {
    forall r
      ensures ReadOk(db, ups, s.ns, r) <==> Key(s.ns, r.key) !in ups && Holds(Apply(db, ups), ReadRecord(s.ns, r))
    {
      Pending(db, Batch(ups, map[]), Key(s.ns, r.key));
    }
    assert forall q :: RangeOk(db, ups, s.ns, q) <==> Holds(Apply(db, ups), RangeRecord(s.ns, q));
  }

  /** The first j namespaces stand. */
  ghost predicate StandsUpTo(db: DB, b: Batch, sets: seq<NsRwSet>, savepoint: Height, j: nat)
    requires j <= |sets|
  {
    forall i :: 0 <= i < j ==> StandsAt(db, b, sets, savepoint, i)
  }

  ghost predicate StandsAt(db: DB, b: Batch, sets: seq<NsRwSet>, savepoint: Height, i: nat)
    requires i < |sets|
  {
    var ups := CheckedWith(db, b, sets, savepoint, i).updates;
    ReadsStand(db, ups, sets[i]) && RangesStand(db, ups, sets[i])
  }

  lemma {:induction false} TxVerdict(db: DB, b: Batch, sets: seq<NsRwSet>, savepoint: Height, j: nat)
    requires j <= |sets| && StandsUpTo(db, b, sets, savepoint, j)
    ensures j == |sets| ==> CheckTx(db, b, sets, savepoint).0 == Valid
    ensures j < |sets| && !StandsAt(db, b, sets, savepoint, j) ==>
      CheckTx(db, b, sets, savepoint).0 ==
      if ReadsStand(db, CheckedWith(db, b, sets, savepoint, j).updates, sets[j]) then PhantomReadConflict else MvccReadConflict
    decreases sets
  {
    if sets != [] {
      NsVerdict(db, b.updates, sets[0]);
      if j > 0 {
        var b1 := Calculate(db, b, sets[0].ns, sets[0].writes, savepoint);
        forall i | 0 <= i < |sets| - 1
          ensures StandsAt(db, b1, sets[1..], savepoint, i) <==> StandsAt(db, b, sets, savepoint, i + 1)
        {
        }
        assert StandsAt(db, b, sets, savepoint, 0);
        TxVerdict(db, b1, sets[1..], savepoint, j - 1);
      }
    }
  }

  /** The flag of any transaction of any block: one that is not for the checks keeps its flag; one
      whose namespaces all stand when they are reached is valid; otherwise the first that does not
      decides, as a read conflict if one of its reads does not stand, and else as a phantom. */
  lemma FlagExact(db: DB, blk: Block, savepoint: Height, i: nat, j: nat)
    requires i < |blk.txs| == |blk.flags|
    ensures blk.flags[i] != Valid || blk.txs[i].OtherType? ==> FinalFlags(db, blk, savepoint)[i] == blk.flags[i]
    ensures blk.flags[i] == Valid && blk.txs[i].Endorser? ==>
      var b, sets, flag := BatchAt(db, blk, savepoint, i), blk.txs[i].sets, FinalFlags(db, blk, savepoint)[i];
      && (flag == Valid <==> StandsUpTo(db, b, sets, savepoint, |sets|))
      && (j < |sets| && StandsUpTo(db, b, sets, savepoint, j) && !StandsAt(db, b, sets, savepoint, j) ==>
           flag == if ReadsStand(db, CheckedUpdates(db, blk, savepoint, i, j), sets[j]) then PhantomReadConflict else MvccReadConflict)
  {
    FlagsFinal(db, blk, true, savepoint, i + 1, |blk.txs|);
    FlagsFinal(db, blk, true, savepoint, i, i);
    if blk.flags[i] == Valid && blk.txs[i].Endorser? {
      var b, sets := BatchAt(db, blk, savepoint, i), blk.txs[i].sets;
      if StandsUpTo(db, b, sets, savepoint, |sets|) {
        TxVerdict(db, b, sets, savepoint, |sets|);
      } else {
        var f := FirstFallen(db, b, sets, savepoint, |sets|);
        TxVerdict(db, b, sets, savepoint, f);
        if j < |sets| && StandsUpTo(db, b, sets, savepoint, j) {
          TxVerdict(db, b, sets, savepoint, j);
        }
      }
    }
  }

  lemma {:induction false} FirstFallen(db: DB, b: Batch, sets: seq<NsRwSet>, savepoint: Height, n: nat) returns (f: nat)
    requires n <= |sets| && !StandsUpTo(db, b, sets, savepoint, n)
    ensures f < n && StandsUpTo(db, b, sets, savepoint, f) && !StandsAt(db, b, sets, savepoint, f)
  {
    if StandsUpTo(db, b, sets, savepoint, n - 1) {
      f := n - 1;
    } else {
      f := FirstFallen(db, b, sets, savepoint, n - 1);
    }
  }

  /** Everything a valid transaction has recorded holds in the database with the updates that were
      pending when its namespace was checked: those of the batch at its place, but for keys that its
      own earlier namespaces calculate on. Calculations are not looked at. */
  lemma ValidReadsAreCurrent(db: DB, blk: Block, savepoint: Height, i: nat, j: nat, rec: Record, k: Key)
    requires i < |blk.txs| == |blk.flags| && StaysValid(db, blk, savepoint, i)
    requires j < |blk.txs[i].sets| && InSet(rec, blk.txs[i].sets[j])
    ensures var b, ups := BatchAt(db, blk, savepoint, i), CheckedUpdates(db, blk, savepoint, i, j);
      && Holds(Apply(db, ups), rec)
      && (if TxOps(blk.txs[i].sets, j, k) == [] then Find(Apply(db, ups), k) == Find(Apply(db, b.updates), k) else k !in ups)
  {
    var b, sets := BatchAt(db, blk, savepoint, i), blk.txs[i].sets;
    ValidPasses(db, blk, savepoint, i);
    CheckedWithIs(db, b, sets, savepoint, j, k);
    var c := CheckedWith(db, b, sets, savepoint, j);
    HoldsChecked(db, c, sets[j], rec);
    Pending(db, b, k);
    Pending(db, c, k);
  }

  lemma HoldsChecked(db: DB, c: Batch, s: NsRwSet, rec: Record)
    requires CheckNs(db, c.updates, s) == Valid && InSet(rec, s)
    ensures Holds(Apply(db, c.updates), rec)
  {
    match rec {
      case ReadRecord(ns, r) =>
        assert ReadOk(db, c.updates, ns, r);
        Pending(db, c, Key(ns, r.key));
      case RangeRecord(ns, q) =>
        assert RangeOk(db, c.updates, ns, q);
    }
  }

  /** The record was checked before the transaction itself calculates on k. */
  ghost predicate Apart(sets: seq<NsRwSet>, rec: Record, k: Key) {
    exists j :: 0 <= j < |sets| && InSet(rec, sets[j]) && TxOps(sets, j, k) == []
  }

  /** So were all records, for the keys their queries saw. */
  ghost predicate AllApart(snapshot: DB, sets: seq<NsRwSet>) {
    forall q, k :: InSets(RecordOf(snapshot, q), sets) && Sees(snapshot, q, k) ==> Apart(sets, RecordOf(snapshot, q), k)
  }

  /** As it is when there is one entry for each namespace, since the entry is checked before its
      calculations are made. */
  lemma OneEntryIsApart(snapshot: DB, sets: seq<NsRwSet>)
    requires forall i, j :: 0 <= i < j < |sets| ==> sets[i].ns != sets[j].ns
    ensures AllApart(snapshot, sets)
  {
    forall q, k | InSets(RecordOf(snapshot, q), sets) && Sees(snapshot, q, k)
      ensures Apart(sets, RecordOf(snapshot, q), k)
    {
      var j :| 0 <= j < |sets| && InSet(RecordOf(snapshot, q), sets[j]);
      TxOpsFound(sets, j, k);
    }
  }

  /** A key that a valid transaction has seen has the version it had: in the database if no valid
      transaction before it writes the key last, and in the updates pending at its place. */
  lemma ValidSeen(db: DB, blk: Block, savepoint: Height, i: nat, snapshot: DB, q: Query, k: Key)
    requires i < |blk.txs| == |blk.flags| && StaysValid(db, blk, savepoint, i)
    requires InSets(RecordOf(snapshot, q), blk.txs[i].sets) && Sees(snapshot, q, k)
    ensures !WrittenAtEnd(db, blk, savepoint, i, k) ==> VersionIn(db, k) == VersionIn(snapshot, k)
    ensures Apart(blk.txs[i].sets, RecordOf(snapshot, q), k) ==>
      VersionIn(Apply(db, BatchAt(db, blk, savepoint, i).updates), k) == VersionIn(snapshot, k)
  {
    var rec, sets := RecordOf(snapshot, q), blk.txs[i].sets;
    if Apart(sets, rec, k) {
      var j :| 0 <= j < |sets| && InSet(rec, sets[j]) && TxOps(sets, j, k) == [];
      SeenInEntry(db, blk, savepoint, i, j, snapshot, q, k);
    } else {
      var j :| 0 <= j < |sets| && InSet(rec, sets[j]);
      SeenInEntry(db, blk, savepoint, i, j, snapshot, q, k);
    }
  }

  lemma SeenInEntry(db: DB, blk: Block, savepoint: Height, i: nat, j: nat, snapshot: DB, q: Query, k: Key)
    requires i < |blk.txs| == |blk.flags| && StaysValid(db, blk, savepoint, i)
    requires j < |blk.txs[i].sets| && InSet(RecordOf(snapshot, q), blk.txs[i].sets[j]) && Sees(snapshot, q, k)
    ensures !WrittenAtEnd(db, blk, savepoint, i, k) ==> VersionIn(db, k) == VersionIn(snapshot, k)
    ensures TxOps(blk.txs[i].sets, j, k) == [] ==>
      VersionIn(Apply(db, BatchAt(db, blk, savepoint, i).updates), k) == VersionIn(snapshot, k)
  {
    var b, ups := BatchAt(db, blk, savepoint, i), CheckedUpdates(db, blk, savepoint, i, j);
    ValidReadsAreCurrent(db, blk, savepoint, i, j, RecordOf(snapshot, q), k);
    SeenVersion(snapshot, Apply(db, ups), q, k);
    UpdatesExact(db, blk, savepoint, i, k);
    Pending(db, b, k);
    Pending(db, Batch(ups, map[]), k);
    VersionFound(Apply(db, ups), k);
    VersionFound(Apply(db, b.updates), k);
    VersionFound(db, k);
  }

  lemma VersionFound(db: DB, k: Key)
    ensures VersionIn(db, k) == if Find(db, k).Some? then Some(Find(db, k).value.version) else None
    ensures ValueIn(db, k) == if Find(db, k).Some? then Some(Find(db, k).value.value) else None
  {
  }

  // ---------------------------------------------------------------- in its block

  /** The value of k at the place of transaction i: of the serial order if a valid transaction writes
      it last, of the calculations if there are any, and otherwise the value it had. */
  ghost function PlaceValue(db: DB, blk: Block, savepoint: Height, i: nat, k: Key, had: Option<string>): Option<string>
    requires i <= |blk.txs| == |blk.flags|
  {
    var ops := BlockOps(db, blk, savepoint, i, k);
    if WrittenAtEnd(db, blk, savepoint, i, k) then ValueIn(Serial(db, blk, FinalFlags(db, blk, savepoint), i), k)
    else if ops != [] then Some(ApplyOps(StartOf(db, blk, savepoint, i, k).value, ops))
    else had
  }

  lemma PlaceIs(db: DB, blk: Block, savepoint: Height, i: nat, k: Key)
    requires i <= |blk.txs| == |blk.flags|
    ensures ValueIn(At(db, blk, savepoint, i), k) == PlaceValue(db, blk, savepoint, i, k, ValueIn(db, k))
  {
    var now := At(db, blk, savepoint, i);
    PlaceIsSerial(db, blk, savepoint, i, k);
    Pending(db, BatchAt(db, blk, savepoint, i), k);
    UpdatesExact(db, blk, savepoint, i, k);
    CalsExact(db, blk, savepoint, i, k);
    VersionFound(now, k);
    VersionFound(db, k);
    VersionFound(Serial(db, blk, FinalFlags(db, blk, savepoint), i), k);
  }

  /** Exactly when a transaction sees at its place in a block what it saw on any other state. */
  lemma SeesTheSameIff(next: Program, n: nat, snapshot: DB, db: DB, blk: Block, i: nat, savepoint: Height)
    requires i <= |blk.txs| == |blk.flags|
    ensures Trace(next, At(db, blk, savepoint, i), n) == Trace(next, snapshot, n) <==>
      forall k :: Seen(next, snapshot, n, k) ==>
        PlaceValue(db, blk, savepoint, i, k, ValueIn(db, k)) == ValueIn(snapshot, k)
  {
    TraceIff(next, snapshot, At(db, blk, savepoint, i), n);
    forall k
      ensures SameValue(snapshot, At(db, blk, savepoint, i), k) <==>
        PlaceValue(db, blk, savepoint, i, k, ValueIn(db, k)) == ValueIn(snapshot, k)
    {
      PlaceIs(db, blk, savepoint, i, k);
    }
  }

  /** The calculations before transaction i leave k as it was on the state it was simulated on. */
  ghost predicate Kept(snapshot: DB, db: DB, blk: Block, savepoint: Height, i: nat, k: Key, had: Option<string>)
    requires i <= |blk.txs| == |blk.flags|
  {
    var ops := BlockOps(db, blk, savepoint, i, k);
    if k !in snapshot then ops == [] || WrittenAtEnd(db, blk, savepoint, i, k)
    else if ops == [] then had == Some(snapshot[k].value)
    else ApplyOps(StartOf(db, blk, savepoint, i, k).value, ops) == snapshot[k].value
  }

  /** For a key that a valid transaction has seen: it is not written before its place, unless it was
      absent and is deleted again, so only calculations can change it. */
  lemma KeptIff(db: DB, blk: Block, savepoint: Height, i: nat, snapshot: DB, q: Query, k: Key, had: Option<string>)
    requires i < |blk.txs| == |blk.flags| && StaysValid(db, blk, savepoint, i) && Before(snapshot, blk.number)
    requires InSets(RecordOf(snapshot, q), blk.txs[i].sets) && Sees(snapshot, q, k)
    requires Apart(blk.txs[i].sets, RecordOf(snapshot, q), k)
    requires k !in snapshot && !WrittenAtEnd(db, blk, savepoint, i, k) ==> had == None
    ensures PlaceValue(db, blk, savepoint, i, k, had) == ValueIn(snapshot, k) <==>
      Kept(snapshot, db, blk, savepoint, i, k, had)
    ensures k in snapshot ==> !WrittenAtEnd(db, blk, savepoint, i, k)
  {
    var b := BatchAt(db, blk, savepoint, i);
    var s := Serial(db, blk, FinalFlags(db, blk, savepoint), i);
    ValidSeen(db, blk, savepoint, i, snapshot, q, k);
    UpdatesExact(db, blk, savepoint, i, k);
    UpdateHeights(db, blk, savepoint, i, k);
    Pending(db, b, k);
    VersionFound(Apply(db, b.updates), k);
    VersionFound(snapshot, k);
    VersionFound(s, k);
    GroupCommit(db, blk, savepoint, i, k);
  }

  /** One query that a valid transaction has recorded, a read or a scan, to its end or not: it gives at
      the transaction's place what it gave, exactly if the calculations before leave every key it saw
      as it was. */
  lemma QueryKeptIff(db: DB, blk: Block, savepoint: Height, i: nat, snapshot: DB, q: Query)
    requires i < |blk.txs| == |blk.flags| && StaysValid(db, blk, savepoint, i) && Before(snapshot, blk.number)
    requires InSets(RecordOf(snapshot, q), blk.txs[i].sets)
    requires forall k :: Sees(snapshot, q, k) ==> Apart(blk.txs[i].sets, RecordOf(snapshot, q), k)
    ensures Observe(At(db, blk, savepoint, i), q) == Observe(snapshot, q) <==>
      forall k :: Sees(snapshot, q, k) ==> Kept(snapshot, db, blk, savepoint, i, k, ValueIn(db, k))
  {
    ObserveIff(snapshot, At(db, blk, savepoint, i), q);
    forall k | Sees(snapshot, q, k)
      ensures SameValue(snapshot, At(db, blk, savepoint, i), k) <==>
        Kept(snapshot, db, blk, savepoint, i, k, ValueIn(db, k))
    {
      SeenInBlock(db, blk, savepoint, i, snapshot, q, k);
    }
  }

  lemma SeenInBlock(db: DB, blk: Block, savepoint: Height, i: nat, snapshot: DB, q: Query, k: Key)
    requires i < |blk.txs| == |blk.flags| && StaysValid(db, blk, savepoint, i) && Before(snapshot, blk.number)
    requires InSets(RecordOf(snapshot, q), blk.txs[i].sets) && Sees(snapshot, q, k)
    requires Apart(blk.txs[i].sets, RecordOf(snapshot, q), k)
    ensures SameValue(snapshot, At(db, blk, savepoint, i), k) <==>
      Kept(snapshot, db, blk, savepoint, i, k, ValueIn(db, k))
  {
    PlaceIs(db, blk, savepoint, i, k);
    ValidSeen(db, blk, savepoint, i, snapshot, q, k);
    VersionFound(db, k);
    VersionFound(snapshot, k);
    KeptIff(db, blk, savepoint, i, snapshot, q, k, ValueIn(db, k));
  }

  lemma SeenWasRecorded(next: Program, n: nat, snapshot: DB, sets: seq<NsRwSet>, k: Key) returns (q: Query)
    requires Recorded(next, snapshot, n, sets) && Seen(next, snapshot, n, k)
    ensures InSets(RecordOf(snapshot, q), sets) && Sees(snapshot, q, k)
  {
    var m :| 0 <= m < n && SeesAt(next, snapshot, m, k);
    q := next(Trace(next, snapshot, m)).value;
  }

  lemma SeenApart(next: Program, n: nat, snapshot: DB, sets: seq<NsRwSet>, k: Key) returns (q: Query)
    requires Recorded(next, snapshot, n, sets) && AllApart(snapshot, sets) && Seen(next, snapshot, n, k)
    ensures InSets(RecordOf(snapshot, q), sets) && Sees(snapshot, q, k) && Apart(sets, RecordOf(snapshot, q), k)
  {
    q := SeenWasRecorded(next, n, snapshot, sets, k);
  }

  /** A valid transaction sees at its place in its block what it saw on an earlier state, exactly if
      the calculations before it leave every key it saw as it was. */
  lemma ValidInItsBlock(next: Program, n: nat, snapshot: DB, db: DB, blk: Block, i: nat, savepoint: Height)
    requires i < |blk.txs| == |blk.flags| && StaysValid(db, blk, savepoint, i) && Before(snapshot, blk.number)
    requires AllApart(snapshot, blk.txs[i].sets) && Recorded(next, snapshot, n, blk.txs[i].sets)
    ensures Trace(next, At(db, blk, savepoint, i), n) == Trace(next, snapshot, n) <==>
      forall k :: Seen(next, snapshot, n, k) ==> Kept(snapshot, db, blk, savepoint, i, k, ValueIn(db, k))
  {
    var now := At(db, blk, savepoint, i);
    TraceIff(next, snapshot, now, n);
    forall k | Seen(next, snapshot, n, k)
      ensures SameValue(snapshot, now, k) <==> Kept(snapshot, db, blk, savepoint, i, k, ValueIn(db, k))
    {
      var q := SeenApart(next, n, snapshot, blk.txs[i].sets, k);
      SeenInBlock(db, blk, savepoint, i, snapshot, q, k);
    }
  }

  // ---------------------------------------------------------------- along the chain

  /** Blocks one after the other: their numbers increase, and the savepoint a block finds is of the
      block before it. */
  ghost predicate Chain(blks: seq<Block>, savepoints: nat -> Height) {
    && (forall j :: 0 <= j < |blks| ==> |blks[j].txs| == |blks[j].flags| && savepoints(j).blockNum <= blks[j].number)
    && (forall j :: 0 < j < |blks| ==> FindsSavepoint(blks, savepoints, j))
    && (forall i, j :: 0 <= i < j < |blks| ==> blks[i].number < blks[j].number)
  }

  predicate FindsSavepoint(blks: seq<Block>, savepoints: nat -> Height, j: nat)
    requires 0 < j < |blks|
  {
    savepoints(j).blockNum == blks[j - 1].number
  }

  lemma FrontIsChain(blks: seq<Block>, savepoints: nat -> Height, n: nat)
    requires Chain(blks, savepoints) && n <= |blks|
    ensures Chain(blks[..n], savepoints)
  {
    var front := blks[..n];
    forall j | 0 < j < n
      ensures FindsSavepoint(front, savepoints, j)
    {
      assert FindsSavepoint(blks, savepoints, j);
    }
  }

  lemma FrontIsHistory(blks: seq<Block>, savepoints: nat -> Height, dbs: seq<DB>, n: nat)
    requires History(blks, savepoints, dbs) && n <= |blks|
    ensures History(blks[..n], savepoints, dbs[..n + 1])
  {
    FrontIsChain(blks, savepoints, n);
    var front, states := blks[..n], dbs[..n + 1];
    forall j | 0 <= j < n
      ensures CommitsTo(front, savepoints, states, j)
    {
      assert CommitsTo(blks, savepoints, dbs, j);
    }
  }

  ghost predicate CommitsTo(blks: seq<Block>, savepoints: nat -> Height, dbs: seq<DB>, j: nat)
    requires j < |blks| && |dbs| == |blks| + 1
  {
    |blks[j].txs| == |blks[j].flags| && dbs[j + 1] == Commit(dbs[j], blks[j], true, savepoints(j)).0
  }

  /** The states a chain goes through. */
  ghost predicate History(blks: seq<Block>, savepoints: nat -> Height, dbs: seq<DB>) {
    && Chain(blks, savepoints) && |dbs| == |blks| + 1 && dbs[0] == map[]
    && forall j :: 0 <= j < |blks| ==> CommitsTo(blks, savepoints, dbs, j)
  }

  lemma {:induction false} HistoryIs(blks: seq<Block>, savepoints: nat -> Height, dbs: seq<DB>)
    requires History(blks, savepoints, dbs)
    ensures dbs[|blks|] == CommitAll(map[], blks, savepoints).0
  {
    if blks != [] {
      var n := |blks| - 1;
      FrontIsHistory(blks, savepoints, dbs, n);
      HistoryIs(blks[..n], savepoints, dbs[..n + 1]);
      assert CommitsTo(blks, savepoints, dbs, n);
    }
  }

  /** A block leaves only versions of itself and of what was there before. */
  lemma BatchVersions(db: DB, blk: Block, savepoint: Height, i: nat, number: nat, k: Key)
    requires i <= |blk.txs| == |blk.flags| && Before(db, number) && blk.number < number && savepoint.blockNum < number
    ensures var e := Find(At(db, blk, savepoint, i), k); e.Some? ==> e.value.version.blockNum < number
  {
    var b := BatchAt(db, blk, savepoint, i);
    Pending(db, b, k);
    UpdateHeights(db, blk, savepoint, i, k);
    CalsExact(db, blk, savepoint, i, k);
    if k in b.cals {
      var first := FirstCal(db, blk, savepoint, i, k);
      UpdateHeights(db, blk, savepoint, first, k);
      CalsExact(db, blk, savepoint, first, k);
    }
  }

  lemma VersionsStayBefore(db: DB, blk: Block, savepoint: Height, i: nat, number: nat)
    requires i <= |blk.txs| == |blk.flags| && Before(db, number) && blk.number < number && savepoint.blockNum < number
    ensures Before(At(db, blk, savepoint, i), number)
  {
    var now := At(db, blk, savepoint, i);
    forall k | k in now
      ensures now[k].version.blockNum < number
    {
      BatchVersions(db, blk, savepoint, i, number, k);
      assert Find(now, k) == Some(now[k]);
    }
  }

  /** So the state after some blocks has only versions of these blocks. */
  lemma {:induction false} ChainBefore(blks: seq<Block>, savepoints: nat -> Height, dbs: seq<DB>, j: nat, number: nat)
    requires History(blks, savepoints, dbs) && j <= |blks| && forall i :: 0 <= i < j ==> blks[i].number < number
    ensures Before(dbs[j], number)
  {
    if j > 0 {
      ChainBefore(blks, savepoints, dbs, j - 1, number);
      assert CommitsTo(blks, savepoints, dbs, j - 1);
      VersionsStayBefore(dbs[j - 1], blks[j - 1], savepoints(j - 1), |blks[j - 1].txs|, number);
    }
  }

  /** An entry with a version from before a block, after the block: it was there with that version,
      and the block's operations on it, if any, give its value. */
  lemma OldEntry(db: DB, blk: Block, savepoint: Height, k: Key, v: Height)
    requires |blk.txs| == |blk.flags| && v.blockNum < blk.number && (k in db || savepoint != v)
    requires VersionIn(Commit(db, blk, true, savepoint).0, k) == Some(v)
    ensures VersionIn(db, k) == Some(v)
    ensures ValueIn(Commit(db, blk, true, savepoint).0, k) ==
      Some(ApplyOps(db[k].value, BlockOps(db, blk, savepoint, |blk.txs|, k)))
  {
    var n, b := |blk.txs|, BatchAt(db, blk, savepoint, |blk.txs|);
    var db' := Commit(db, blk, true, savepoint).0;
    Pending(db, b, k);
    UpdateHeights(db, blk, savepoint, n, k);
    CalsExact(db, blk, savepoint, n, k);
    VersionFound(db', k);
    VersionFound(db, k);
    if k in b.cals {
      var first := FirstCal(db, blk, savepoint, n, k);
      UpdateHeights(db, blk, savepoint, first, k);
      CalsExact(db, blk, savepoint, first, k);
    }
  }

  ghost function OpsByBlock(blks: seq<Block>, savepoints: nat -> Height, dbs: seq<DB>, k: Key): (r: seq<seq<Op>>)
    requires History(blks, savepoints, dbs)
    ensures |r| == |blks|
    ensures forall j :: 0 <= j < |r| ==> r[j] == BlockOps(dbs[j], blks[j], savepoints(j), |blks[j].txs|, k)
  {
    seq(|blks|, j requires 0 <= j < |blks| => BlockOps(dbs[j], blks[j], savepoints(j), |blks[j].txs|, k))
  }

  function Between(all: seq<seq<Op>>, m: nat, j: nat): seq<Op>
    requires m <= j <= |all|
  {
    if m == j then [] else Between(all, m, j - 1) + all[j - 1]
  }

  lemma {:induction false} NothingBetween(all: seq<seq<Op>>, m: nat, j: nat)
    requires m <= j <= |all| && forall l :: m <= l < j ==> all[l] == []
    ensures Between(all, m, j) == []
  {
    if m < j {
      NothingBetween(all, m, j - 1);
    }
  }

  /** The operations on k of the blocks from m to j. */
  ghost function ChainOps(blks: seq<Block>, savepoints: nat -> Height, dbs: seq<DB>, m: nat, j: nat, k: Key): seq<Op>
    requires History(blks, savepoints, dbs) && m <= j <= |blks|
  {
    Between(OpsByBlock(blks, savepoints, dbs, k), m, j)
  }

  lemma NewSavepoint(blks: seq<Block>, savepoints: nat -> Height, m: nat, j: nat)
    requires Chain(blks, savepoints) && m <= j < |blks|
    ensures blks[m].number <= blks[j].number && (m < j ==> savepoints(j).blockNum >= blks[m].number)
  {
    if m < j {
      assert FindsSavepoint(blks, savepoints, j);
    }
  }

  /** Along a chain, a key that has the version it had has the value that all operations in between,
      in their order, give from the value it had: writes bring new versions, operations keep them. */
  lemma {:induction false} ValueAlong(blks: seq<Block>, savepoints: nat -> Height, dbs: seq<DB>, m: nat, j: nat, k: Key)
    requires History(blks, savepoints, dbs) && m <= j <= |blks|
    requires k in dbs[m] && VersionIn(dbs[j], k) == VersionIn(dbs[m], k)
    ensures ValueIn(dbs[j], k) == Some(ApplyOps(dbs[m][k].value, ChainOps(blks, savepoints, dbs, m, j, k)))
    decreases j
  {
    if m < j {
      var db, blk, v := dbs[j - 1], blks[j - 1], dbs[m][k].version;
      assert CommitsTo(blks, savepoints, dbs, j - 1);
      ChainBefore(blks, savepoints, dbs, m, blks[m].number);
      NewSavepoint(blks, savepoints, m, j - 1);
      OldEntry(db, blk, savepoints(j - 1), k, v);
      ValueAlong(blks, savepoints, dbs, m, j - 1, k);
      ApplyOpsConcat(dbs[m][k].value, ChainOps(blks, savepoints, dbs, m, j - 1, k),
                     BlockOps(db, blk, savepoints(j - 1), |blk.txs|, k));
    }
  }

  /** The value k had on the state after m blocks, with the operations of the blocks from there to j. */
  ghost function Carried(blks: seq<Block>, savepoints: nat -> Height, dbs: seq<DB>, m: nat, j: nat, k: Key): Option<string>
    requires History(blks, savepoints, dbs) && m <= j <= |blks|
  {
    if k in dbs[m] then Some(ApplyOps(dbs[m][k].value, ChainOps(blks, savepoints, dbs, m, j, k))) else None
  }

  lemma CarriedIs(blks: seq<Block>, savepoints: nat -> Height, dbs: seq<DB>, m: nat, j: nat, k: Key)
    requires History(blks, savepoints, dbs) && m <= j <= |blks| && VersionIn(dbs[j], k) == VersionIn(dbs[m], k)
    ensures ValueIn(dbs[j], k) == Carried(blks, savepoints, dbs, m, j, k)
  {
    if k in dbs[m] {
      ValueAlong(blks, savepoints, dbs, m, j, k);
    }
  }

  /** The value of k at the place of transaction i of the last block, computed from the value it had
      after m blocks and what has been written and calculated since, is the value it had. */
  ghost predicate Unmoved(blks: seq<Block>, savepoints: nat -> Height, dbs: seq<DB>, m: nat, i: nat, k: Key)
    requires History(blks, savepoints, dbs) && m < |blks| && i <= |blks[|blks| - 1].txs|
  {
    var last := |blks| - 1;
    PlaceValue(dbs[last], blks[last], savepoints(last), i, k, Carried(blks, savepoints, dbs, m, last, k)) == ValueIn(dbs[m], k)
  }

  /** Serialisability, exactly. A chaincode is simulated on the state after the first m blocks of a
      chain; its transaction comes as number i of the last block and stays valid. Run again at its
      place it would see the same, and so make the same writes, if and only if every key it saw is
      unmoved. */
  lemma ValidTransactionsAreSerialIff(next: Program, n: nat, blks: seq<Block>, savepoints: nat -> Height, dbs: seq<DB>, m: nat, i: nat)
    requires History(blks, savepoints, dbs) && m < |blks| && i < |blks[|blks| - 1].txs|
    requires var last := |blks| - 1;
      StaysValid(dbs[last], blks[last], savepoints(last), i) && Recorded(next, dbs[m], n, blks[last].txs[i].sets)
    ensures var last := |blks| - 1; var blk, db, savepoint := blks[last], dbs[last], savepoints(last);
      Trace(next, At(db, blk, savepoint, i), n) == Trace(next, dbs[m], n) <==>
      forall k :: Seen(next, dbs[m], n, k) ==> Unmoved(blks, savepoints, dbs, m, i, k)
  {
    var last := |blks| - 1;
    var blk, db, savepoint := blks[last], dbs[last], savepoints(last);
    SeesTheSameIff(next, n, dbs[m], db, blk, i, savepoint);
    forall k | Seen(next, dbs[m], n, k)
      ensures PlaceValue(db, blk, savepoint, i, k, ValueIn(db, k)) == ValueIn(dbs[m], k) <==>
        Unmoved(blks, savepoints, dbs, m, i, k)
    {
      var q := SeenWasRecorded(next, n, dbs[m], blk.txs[i].sets, k);
      ValidSeen(db, blk, savepoint, i, dbs[m], q, k);
      if !WrittenAtEnd(db, blk, savepoint, i, k) {
        CarriedIs(blks, savepoints, dbs, m, last, k);
      }
    }
  }

  ghost predicate KeptAlong(blks: seq<Block>, savepoints: nat -> Height, dbs: seq<DB>, m: nat, i: nat, k: Key)
    requires History(blks, savepoints, dbs) && m < |blks| && i <= |blks[|blks| - 1].txs|
  {
    var last := |blks| - 1;
    Kept(dbs[m], dbs[last], blks[last], savepoints(last), i, k, Carried(blks, savepoints, dbs, m, last, k))
  }

  lemma SnapshotBefore(blks: seq<Block>, savepoints: nat -> Height, dbs: seq<DB>, m: nat)
    requires History(blks, savepoints, dbs) && m < |blks|
    ensures Before(dbs[m], blks[|blks| - 1].number)
  {
    ChainBefore(blks, savepoints, dbs, m, blks[|blks| - 1].number);
  }

  lemma QueryMovedIff(blks: seq<Block>, savepoints: nat -> Height, dbs: seq<DB>, m: nat, i: nat, q: Query, k: Key)
    requires History(blks, savepoints, dbs) && m < |blks| && i < |blks[|blks| - 1].txs|
    requires var last := |blks| - 1; var tx, rec := blks[last].txs[i], RecordOf(dbs[m], q);
      && StaysValid(dbs[last], blks[last], savepoints(last), i) && InSets(rec, tx.sets)
      && Sees(dbs[m], q, k) && Apart(tx.sets, rec, k)
    ensures Unmoved(blks, savepoints, dbs, m, i, k) <==> KeptAlong(blks, savepoints, dbs, m, i, k)
  {
    var last := |blks| - 1;
    SnapshotBefore(blks, savepoints, dbs, m);
    KeptIff(dbs[last], blks[last], savepoints(last), i, dbs[m], q, k, Carried(blks, savepoints, dbs, m, last, k));
  }

  lemma SeenKeptIff(next: Program, n: nat, blks: seq<Block>, savepoints: nat -> Height, dbs: seq<DB>, m: nat, i: nat, k: Key)
    requires History(blks, savepoints, dbs) && m < |blks| && i < |blks[|blks| - 1].txs|
    requires var last := |blks| - 1;
      && StaysValid(dbs[last], blks[last], savepoints(last), i) && Recorded(next, dbs[m], n, blks[last].txs[i].sets)
      && AllApart(dbs[m], blks[last].txs[i].sets) && Seen(next, dbs[m], n, k)
    ensures Unmoved(blks, savepoints, dbs, m, i, k) <==> KeptAlong(blks, savepoints, dbs, m, i, k)
  {
    var last := |blks| - 1;
    var q := SeenApart(next, n, dbs[m], blks[last].txs[i].sets, k);
    QueryMovedIff(blks, savepoints, dbs, m, i, q, k);
  }

  /** The same in terms of the calculations alone, for a transaction whose records were checked before
      it calculates on the keys itself. */
  lemma ValidTransactionsKeptIff(next: Program, n: nat, blks: seq<Block>, savepoints: nat -> Height, dbs: seq<DB>, m: nat, i: nat)
    requires History(blks, savepoints, dbs) && m < |blks| && i < |blks[|blks| - 1].txs|
    requires var last := |blks| - 1;
      && StaysValid(dbs[last], blks[last], savepoints(last), i) && Recorded(next, dbs[m], n, blks[last].txs[i].sets)
      && AllApart(dbs[m], blks[last].txs[i].sets)
    ensures var last := |blks| - 1;
      Trace(next, At(dbs[last], blks[last], savepoints(last), i), n) == Trace(next, dbs[m], n) <==>
      forall k :: Seen(next, dbs[m], n, k) ==> KeptAlong(blks, savepoints, dbs, m, i, k)
  {
    ValidTransactionsAreSerialIff(next, n, blks, savepoints, dbs, m, i);
    forall k | Seen(next, dbs[m], n, k)
      ensures Unmoved(blks, savepoints, dbs, m, i, k) <==> KeptAlong(blks, savepoints, dbs, m, i, k)
    {
      SeenKeptIff(next, n, blks, savepoints, dbs, m, i, k);
    }
  }

  /** None of the first i transactions of the block calculates on k. */
  ghost predicate NoneIn(db: DB, blk: Block, savepoint: Height, i: nat, k: Key)
    requires i <= |blk.txs| == |blk.flags|
  {
    forall t :: 0 <= t < i ==> !CalculatesIn(db, blk, savepoint, t, k)
  }

  lemma NoneInIff(db: DB, blk: Block, savepoint: Height, i: nat, k: Key)
    requires i <= |blk.txs| == |blk.flags|
    ensures NoneIn(db, blk, savepoint, i, k) <==> BlockOps(db, blk, savepoint, i, k) == []
  {
    CalsExact(db, blk, savepoint, i, k);
  }

  ghost predicate NoneSince(blks: seq<Block>, savepoints: nat -> Height, dbs: seq<DB>, m: nat, j: nat, k: Key)
    requires History(blks, savepoints, dbs) && m <= j <= |blks|
  {
    forall l :: m <= l < j ==> NoneInBlock(blks, savepoints, dbs, l, k)
  }

  ghost predicate NoneInBlock(blks: seq<Block>, savepoints: nat -> Height, dbs: seq<DB>, l: nat, k: Key)
    requires History(blks, savepoints, dbs) && l < |blks|
  {
    NoneIn(dbs[l], blks[l], savepoints(l), |blks[l].txs|, k)
  }

  lemma NoChainOps(blks: seq<Block>, savepoints: nat -> Height, dbs: seq<DB>, m: nat, j: nat, k: Key)
    requires History(blks, savepoints, dbs) && m <= j <= |blks| && NoneSince(blks, savepoints, dbs, m, j, k)
    ensures ChainOps(blks, savepoints, dbs, m, j, k) == []
  {
    var all := OpsByBlock(blks, savepoints, dbs, k);
    forall l | m <= l < j
      ensures all[l] == []
    {
      assert NoneInBlock(blks, savepoints, dbs, l, k);
      NoneInIff(dbs[l], blks[l], savepoints(l), |blks[l].txs|, k);
    }
    NothingBetween(all, m, j);
  }

  /** No transaction since the first m blocks and before number i of the last one calculates on k. */
  ghost predicate Untouched(blks: seq<Block>, savepoints: nat -> Height, dbs: seq<DB>, m: nat, i: nat, k: Key)
    requires History(blks, savepoints, dbs) && m < |blks| && i <= |blks[|blks| - 1].txs|
  {
    var last := |blks| - 1;
    NoneSince(blks, savepoints, dbs, m, last, k) && NoneIn(dbs[last], blks[last], savepoints(last), i, k)
  }

  lemma NothingCarried(blks: seq<Block>, savepoints: nat -> Height, dbs: seq<DB>, m: nat, j: nat, k: Key)
    requires History(blks, savepoints, dbs) && m <= j <= |blks| && NoneSince(blks, savepoints, dbs, m, j, k)
    ensures Carried(blks, savepoints, dbs, m, j, k) == ValueIn(dbs[m], k)
  {
    NoChainOps(blks, savepoints, dbs, m, j, k);
  }

  lemma UntouchedIsKept(blks: seq<Block>, savepoints: nat -> Height, dbs: seq<DB>, m: nat, i: nat, k: Key)
    requires History(blks, savepoints, dbs) && m < |blks| && i <= |blks[|blks| - 1].txs|
    requires Untouched(blks, savepoints, dbs, m, i, k)
    ensures KeptAlong(blks, savepoints, dbs, m, i, k)
  {
    var last := |blks| - 1;
    NothingCarried(blks, savepoints, dbs, m, last, k);
    NothingDone(dbs[m], dbs[last], blks[last], savepoints(last), i, k, Carried(blks, savepoints, dbs, m, last, k));
  }

  lemma NothingDone(snapshot: DB, db: DB, blk: Block, savepoint: Height, i: nat, k: Key, had: Option<string>)
    requires i <= |blk.txs| == |blk.flags| && NoneIn(db, blk, savepoint, i, k) && had == ValueIn(snapshot, k)
    ensures Kept(snapshot, db, blk, savepoint, i, k, had)
  {
    NoneInIff(db, blk, savepoint, i, k);
  }

  /** In particular when no calculation since touches a key it saw. */
  lemma ValidTransactionsAreSerial(next: Program, n: nat, blks: seq<Block>, savepoints: nat -> Height, dbs: seq<DB>, m: nat, i: nat)
    requires History(blks, savepoints, dbs) && m < |blks| && i < |blks[|blks| - 1].txs|
    requires var last := |blks| - 1;
      && StaysValid(dbs[last], blks[last], savepoints(last), i) && Recorded(next, dbs[m], n, blks[last].txs[i].sets)
      && AllApart(dbs[m], blks[last].txs[i].sets)
    requires forall k :: Seen(next, dbs[m], n, k) ==> Untouched(blks, savepoints, dbs, m, i, k)
    ensures var last := |blks| - 1;
      Trace(next, At(dbs[last], blks[last], savepoints(last), i), n) == Trace(next, dbs[m], n)
  {
    ValidTransactionsKeptIff(next, n, blks, savepoints, dbs, m, i);
    forall k | Seen(next, dbs[m], n, k)
      ensures KeptAlong(blks, savepoints, dbs, m, i, k)
    {
      UntouchedIsKept(blks, savepoints, dbs, m, i, k);
    }
  }

  // ---------------------------------------------------------------- what escapes the checks

  /** The check of a single read, present or absent: it passes exactly if no valid transaction before
      writes the key last, whatever is calculated on it; and then the read gives at its place what it
      gave before the block exactly if nothing is calculated, or what is calculated is the value it
      had. */
  lemma CalculatedReadPasses(db: DB, blk: Block, savepoint: Height, i: nat, k: Key)
    requires i <= |blk.txs| == |blk.flags|
    ensures var ops := BlockOps(db, blk, savepoint, i, k); var written := WrittenAtEnd(db, blk, savepoint, i, k);
      && (ReadOk(db, BatchAt(db, blk, savepoint, i).updates, k.ns, KVRead(k.key, VersionIn(db, k))) <==> !written)
      && (!written ==>
           (Observe(At(db, blk, savepoint, i), Get(k)) == Observe(db, Get(k)) <==>
            ops == [] || (k in db && ApplyOps(StartOf(db, blk, savepoint, i, k).value, ops) == db[k].value)))
  {
    UpdatesExact(db, blk, savepoint, i, k);
    PlaceIs(db, blk, savepoint, i, k);
    ObserveIff(db, At(db, blk, savepoint, i), Get(k));
    assert Sees(db, Get(k), k);
  }

  // ---------------------------------------------------------------- the chain as a serial execution

  predicate AllFlagged(blks: seq<Block>) { forall i :: 0 <= i < |blks| ==> |blks[i].txs| == |blks[i].flags| }

  /** The stored blocks, applied with their flags one valid transaction after the other. */
  ghost function Serially(blks: seq<Block>, j: nat): DB
    requires j <= |blks| && AllFlagged(blks)
  {
    if j == 0 then map[] else Serial(Serially(blks, j - 1), blks[j - 1], blks[j - 1].flags, |blks[j - 1].txs|)
  }

  ghost predicate StoredAs(blks: seq<Block>, savepoints: nat -> Height, dbs: seq<DB>, stored: seq<Block>)
    requires History(blks, savepoints, dbs)
  {
    |stored| == |blks| && forall j :: 0 <= j < |blks| ==> stored[j] == Commit(dbs[j], blks[j], true, savepoints(j)).1
  }

  /** Every live calculation of a block gives what its valid transactions give. */
  ghost predicate GivesSerial(db: DB, blk: Block, savepoint: Height)
    requires |blk.txs| == |blk.flags|
  {
    forall k :: Live(db, blk, savepoint, k) ==>
      Find(Serial(db, blk, FinalFlags(db, blk, savepoint), |blk.txs|), k) == Some(BatchAt(db, blk, savepoint, |blk.txs|).cals[k])
  }

  ghost predicate SerialAt(dbs: seq<DB>, stored: seq<Block>, j: nat)
    requires j <= |stored| < |dbs| && AllFlagged(stored)
  {
    dbs[j] == Serially(stored, j)
  }

  ghost predicate GivesSerialAt(blks: seq<Block>, savepoints: nat -> Height, dbs: seq<DB>, l: nat)
    requires History(blks, savepoints, dbs) && l < |blks|
  {
    GivesSerial(dbs[l], blks[l], savepoints(l))
  }

  lemma BlockIsSerialIff(blks: seq<Block>, savepoints: nat -> Height, dbs: seq<DB>, stored: seq<Block>, j: nat)
    requires History(blks, savepoints, dbs) && StoredAs(blks, savepoints, dbs, stored) && j < |blks|
    requires SerialAt(dbs, stored, j)
    ensures SerialAt(dbs, stored, j + 1) <==> GivesSerialAt(blks, savepoints, dbs, j)
  {
    assert CommitsTo(blks, savepoints, dbs, j);
    CommitIsSerial(dbs[j], blks[j], savepoints(j));
    SerialSameTxs(dbs[j], blks[j], stored[j], stored[j].flags, |blks[j].txs|);
  }

  ghost predicate SerialUpTo(dbs: seq<DB>, stored: seq<Block>, n: nat)
    requires n <= |stored| < |dbs| && AllFlagged(stored)
  {
    forall j :: 0 <= j <= n ==> SerialAt(dbs, stored, j)
  }

  ghost predicate AllGiveSerial(blks: seq<Block>, savepoints: nat -> Height, dbs: seq<DB>, n: nat)
    requires History(blks, savepoints, dbs) && n <= |blks|
  {
    forall l :: 0 <= l < n ==> GivesSerialAt(blks, savepoints, dbs, l)
  }

  lemma SerialGives(blks: seq<Block>, savepoints: nat -> Height, dbs: seq<DB>, stored: seq<Block>, n: nat, l: nat)
    requires History(blks, savepoints, dbs) && StoredAs(blks, savepoints, dbs, stored) && l < n <= |blks|
    requires SerialUpTo(dbs, stored, n)
    ensures GivesSerialAt(blks, savepoints, dbs, l)
  {
    BlockIsSerialIff(blks, savepoints, dbs, stored, l);
  }

  ghost predicate StaysSerial(dbs: seq<DB>, stored: seq<Block>, j: nat)
    requires j < |stored| < |dbs| && AllFlagged(stored)
  {
    SerialAt(dbs, stored, j) ==> SerialAt(dbs, stored, j + 1)
  }

  lemma GivesNext(blks: seq<Block>, savepoints: nat -> Height, dbs: seq<DB>, stored: seq<Block>, n: nat, j: nat)
    requires History(blks, savepoints, dbs) && StoredAs(blks, savepoints, dbs, stored) && j < n <= |blks|
    requires AllGiveSerial(blks, savepoints, dbs, n)
    ensures StaysSerial(dbs, stored, j)
  {
    if SerialAt(dbs, stored, j) {
      BlockIsSerialIff(blks, savepoints, dbs, stored, j);
    }
  }

  lemma {:induction false} SeriallyOn(dbs: seq<DB>, stored: seq<Block>, n: nat, j: nat)
    requires j <= n <= |stored| < |dbs| && AllFlagged(stored) && dbs[0] == map[]
    requires forall l :: 0 <= l < n ==> StaysSerial(dbs, stored, l)
    ensures SerialAt(dbs, stored, j)
  {
    if j > 0 {
      SeriallyOn(dbs, stored, n, j - 1);
      assert StaysSerial(dbs, stored, j - 1);
    }
  }

  /** Every state of a chain is the serial execution of the valid transactions up to there, exactly if
      no block leaves a live calculation that gives something else. */
  lemma ChainIsSerialIff(blks: seq<Block>, savepoints: nat -> Height, dbs: seq<DB>, stored: seq<Block>, n: nat)
    requires History(blks, savepoints, dbs) && StoredAs(blks, savepoints, dbs, stored) && n <= |blks|
    ensures SerialUpTo(dbs, stored, n) <==> AllGiveSerial(blks, savepoints, dbs, n)
  {
    if SerialUpTo(dbs, stored, n) {
      forall l | 0 <= l < n
        ensures GivesSerialAt(blks, savepoints, dbs, l)
      {
        SerialGives(blks, savepoints, dbs, stored, n, l);
      }
    }
    if AllGiveSerial(blks, savepoints, dbs, n) {
      forall l | 0 <= l < n
        ensures StaysSerial(dbs, stored, l)
      {
        GivesNext(blks, savepoints, dbs, stored, n, l);
      }
      forall j | 0 <= j <= n
        ensures SerialAt(dbs, stored, j)
      {
        SeriallyOn(dbs, stored, n, j);
      }
    }
  }
}
