/** Validation of a block against the state database: read-set and range-query checks, the batch
    of updates, and what committing it does to the database. */
module Mvcc {
  import opened Common
  import opened Lex

  datatype Height = Height(blockNum: nat, txNum: nat)

  datatype Key = Key(ns: string, key: string)

  datatype Entry = Entry(value: string, version: Height)

  type DB = map<Key, Entry>

  /** In the batch a value of None is a delete. */
  datatype Update = Update(value: Option<string>, version: Height)

  type Updates = map<Key, Update>

  function Find(db: DB, k: Key): Option<Entry> {
    if k in db then Some(db[k]) else None
  }

  function Written(u: Update): Option<Entry> {
    match u.value
    case None => None
    case Some(v) => Some(Entry(v, u.version))
  }

  function VersionIn(db: DB, k: Key): Option<Height> {
    if k in db then Some(db[k].version) else None
  }

  /** ApplyUpdates: the database after a batch. */
  function Apply(db: DB, ups: Updates): (r: DB)
    ensures forall k :: Find(r, k) == (if k in ups then Written(ups[k]) else Find(db, k))
  {
    map k | k in db.Keys + ups.Keys && (k in ups ==> ups[k].value.Some?) ::
      if k in ups then Entry(ups[k].value.value, ups[k].version) else db[k]
  }

  lemma SameFind(a: DB, b: DB)
    requires forall k :: Find(a, k) == Find(b, k)
    ensures a == b
  {
    forall k
      ensures k in a <==> k in b
      ensures k in a ==> a[k] == b[k]
    {
      assert Find(a, k) == Find(b, k);
    }
  }

  lemma ApplyInTurn(db: DB, u: Updates, v: Updates)
    ensures Apply(Apply(db, u), v) == Apply(db, u + v)
  {
    SameFind(Apply(Apply(db, u), v), Apply(db, u + v));
  }

  // ---------------------------------------------------------------- scans

  ghost function KeysIn(db: DB, ns: string, start: string, end: string): set<string> {
    set x | x in db && x.ns == ns && InRange(x.key, start, end) :: x.key
  }

  /** The keys of a namespace in a range, in order. */
  ghost function ScanKeys(db: DB, ns: string, start: string, end: string): seq<string> {
    SortedKeys(KeysIn(db, ns, start, end))
  }

  ghost predicate Present(db: DB, ns: string, keys: seq<string>) {
    forall i :: 0 <= i < |keys| ==> Key(ns, keys[i]) in db
  }

  /** A scan finds exactly the keys that are there and in the range. */
  lemma ScanFinds(db: DB, ns: string, start: string, end: string)
    ensures Present(db, ns, ScanKeys(db, ns, start, end))
    ensures Sorted(ScanKeys(db, ns, start, end))
    ensures forall k :: k in ScanKeys(db, ns, start, end) <==> Key(ns, k) in db && InRange(k, start, end)
  {
    var keys := ScanKeys(db, ns, start, end);
    forall k
      ensures k in keys <==> Key(ns, k) in db && InRange(k, start, end)
    {
      if Key(ns, k) in db && InRange(k, start, end) {
        assert Key(ns, k).key in KeysIn(db, ns, start, end);
      }
    }
    forall i | 0 <= i < |keys|
      ensures Key(ns, keys[i]) in db
    {
      assert keys[i] in keys;
    }
  }

  datatype Row = Row(key: string, version: Height)

  ghost function Rows(db: DB, ns: string, keys: seq<string>): seq<Row>
    requires Present(db, ns, keys)
  {
    seq(|keys|, i requires 0 <= i < |keys| => Row(keys[i], db[Key(ns, keys[i])].version))
  }

  lemma RowsConcat(db: DB, ns: string, a: seq<string>, b: seq<string>)
    requires Present(db, ns, a) && Present(db, ns, b)
    ensures Present(db, ns, a + b) && Rows(db, ns, a + b) == Rows(db, ns, a) + Rows(db, ns, b)
  {
  }

  /** What the combined iterator returns for a database: the range, and then the end key if it is
      asked for and present. */
  ghost function Results(db: DB, ns: string, start: string, end: string, includeEnd: bool): seq<Row> {
    ScanFinds(db, ns, start, end);
    Rows(db, ns, ScanKeys(db, ns, start, end)) +
    if includeEnd && Key(ns, end) in db then [Row(end, db[Key(ns, end)].version)] else []
  }

  // ---------------------------------------------------------------- read-write sets

  datatype KVRead = KVRead(key: string, version: Option<Height>)

  datatype RangeQuery = RangeQuery(start: string, end: string, exhausted: bool, rows: seq<Row>)

  /** A write, or a calculation on the stored value (a write to a __CAL_ key). */
  datatype KVWrite = Put(key: string, value: string) | Del(key: string) | Cal(key: string, op: string -> string)

  datatype NsRwSet = NsRwSet(ns: string, readSet: seq<KVRead>, ranges: seq<RangeQuery>, writes: seq<KVWrite>)

  datatype Tx = Endorser(sets: seq<NsRwSet>) | OtherType

  datatype Code = Valid | MvccReadConflict | PhantomReadConflict | InvalidBefore

  datatype Block = Block(number: nat, txs: seq<Tx>, flags: seq<Code>)

  datatype Batch = Batch(updates: Updates, cals: map<Key, Entry>)

  const NO_UPDATES := Batch(map[], map[])

  // ---------------------------------------------------------------- the checks

  ghost predicate ReadOk(db: DB, ups: Updates, ns: string, r: KVRead) {
    Key(ns, r.key) !in ups && VersionIn(db, Key(ns, r.key)) == r.version
  }

  ghost predicate RangeOk(db: DB, ups: Updates, ns: string, q: RangeQuery) {
    Results(Apply(db, ups), ns, q.start, q.end, !q.exhausted) == q.rows
  }

  ghost function CheckNs(db: DB, ups: Updates, s: NsRwSet): Code {
    if exists r :: r in s.readSet && !ReadOk(db, ups, s.ns, r) then MvccReadConflict
    else if exists q :: q in s.ranges && !RangeOk(db, ups, s.ns, q) then PhantomReadConflict
    else Valid
  }

  /** What a calculation on k starts from: the pending calculations, the pending updates, the
      database, or "0" at the savepoint. */
  function Current(db: DB, b: Batch, k: Key, savepoint: Height): Entry {
    if k in b.cals then b.cals[k]
    else if k in b.updates then
      Entry(if b.updates[k].value.Some? then b.updates[k].value.value else "", b.updates[k].version)
    else if k in db then db[k]
    else Entry("0", savepoint)
  }

  /** calWriteSet: each calculation takes the current entry, keeps its version, and hides the
      pending update. */
  function Calculate(db: DB, b: Batch, ns: string, writes: seq<KVWrite>, savepoint: Height): Batch {
    if writes == [] then b
    else
      var b1 := Calculate(db, b, ns, writes[..|writes| - 1], savepoint);
      match writes[|writes| - 1]
      case Put(_, _) => b1
      case Del(_) => b1
      case Cal(key, op) =>
        var k := Key(ns, key);
        var cur := Current(db, b1, k, savepoint);
        Batch(b1.updates - {k}, b1.cals[k := Entry(op(cur.value), cur.version)])
  }

  /** validateTx: namespace by namespace, and the calculations of a namespace are in the batch
      before the next namespace is checked. */
  ghost function CheckTx(db: DB, b: Batch, sets: seq<NsRwSet>, savepoint: Height): (Code, Batch)
    decreases sets
  {
    if sets == [] then (Valid, b)
    else
      var c := CheckNs(db, b.updates, sets[0]);
      if c != Valid then (c, b)
      else CheckTx(db, Calculate(db, b, sets[0].ns, sets[0].writes, savepoint), sets[1..], savepoint)
  }

  function AddWrites(ups: Updates, ns: string, writes: seq<KVWrite>, h: Height): Updates {
    if writes == [] then ups
    else
      var u := AddWrites(ups, ns, writes[..|writes| - 1], h);
      match writes[|writes| - 1]
      case Put(key, value) => u[Key(ns, key) := Update(Some(value), h)]
      case Del(key) => u[Key(ns, key) := Update(None, h)]
      case Cal(_, _) => u
  }

  function AddTx(ups: Updates, sets: seq<NsRwSet>, h: Height): Updates {
    if sets == [] then ups
    else
      var s := sets[|sets| - 1];
      AddWrites(AddTx(ups, sets[..|sets| - 1], h), s.ns, s.writes, h)
  }

  // ---------------------------------------------------------------- a block

  datatype Prepared = Prepared(batch: Batch, flags: seq<Code>)

  /** ValidateAndPrepareBatch after the first i transactions. */
  ghost function Prepare(db: DB, blk: Block, mvcc: bool, savepoint: Height, i: nat): (p: Prepared)
    requires i <= |blk.txs| == |blk.flags|
    ensures |p.flags| == |blk.flags|
  {
    if i == 0 then Prepared(NO_UPDATES, blk.flags)
    else StepTx(db, blk, mvcc, savepoint, i - 1, Prepare(db, blk, mvcc, savepoint, i - 1))
  }

  ghost function StepTx(db: DB, blk: Block, mvcc: bool, savepoint: Height, i: nat, p: Prepared): (p': Prepared)
    requires i < |blk.txs| == |blk.flags| == |p.flags|
    ensures |p'.flags| == |p.flags|
    ensures forall j :: 0 <= j < |p.flags| && j != i ==> p'.flags[j] == p.flags[j]
  {
    if p.flags[i] != Valid || blk.txs[i].OtherType? then p
    else
      var sets := blk.txs[i].sets;
      var (code, b) := if mvcc then CheckTx(db, p.batch, sets, savepoint) else (Valid, p.batch);
      if code == Valid then
        Prepared(b.(updates := AddTx(b.updates, sets, Height(blk.number, i))), p.flags)
      else
        Prepared(b, p.flags[i := code])
  }

  /** moveCalsToUpdate. */
  function MoveCals(b: Batch): Updates {
    (map k | k in b.cals :: Update(Some(b.cals[k].value), b.cals[k].version)) + b.updates
  }

  /** The state database and the stored block after the block has been committed. */
  ghost function Commit(db: DB, blk: Block, mvcc: bool, savepoint: Height): (DB, Block)
    requires |blk.txs| == |blk.flags|
  {
    var p := Prepare(db, blk, mvcc, savepoint, |blk.txs|);
    (Apply(db, MoveCals(p.batch)), blk.(flags := p.flags))
  }

  // ---------------------------------------------------------------- the serial order

  /** The database after the transactions of a block below i that carry the flag Valid, each
      applied on its own. */
  function Serial(db: DB, blk: Block, flags: seq<Code>, i: nat): DB
    requires i <= |blk.txs| == |flags|
  {
    if i == 0 then db
    else
      var s := Serial(db, blk, flags, i - 1);
      if flags[i - 1] == Valid && blk.txs[i - 1].Endorser? then
        Apply(s, AddTx(map[], blk.txs[i - 1].sets, Height(blk.number, i - 1)))
      else s
  }

  ghost predicate Before(db: DB, number: nat) {
    forall k :: k in db ==> db[k].version.blockNum < number
  }

  predicate CalFreeTx(tx: Tx) {
    tx.Endorser? ==> forall i, j :: 0 <= i < |tx.sets| && 0 <= j < |tx.sets[i].writes| ==> !tx.sets[i].writes[j].Cal?
  }

  predicate CalFree(blk: Block) {
    forall i :: 0 <= i < |blk.txs| ==> CalFreeTx(blk.txs[i])
  }

  lemma {:induction false} AddWritesFresh(ups: Updates, ns: string, writes: seq<KVWrite>, h: Height)
    ensures AddWrites(ups, ns, writes, h) == ups + AddWrites(map[], ns, writes, h)
    decreases writes
  {
    if writes != [] {
      AddWritesFresh(ups, ns, writes[..|writes| - 1], h);
    }
  }

  lemma {:induction false} AddTxFresh(ups: Updates, sets: seq<NsRwSet>, h: Height)
    ensures AddTx(ups, sets, h) == ups + AddTx(map[], sets, h)
    decreases sets
  {
    if sets != [] {
      var s := sets[|sets| - 1];
      var rest := sets[..|sets| - 1];
      AddTxFresh(ups, rest, h);
      AddWritesFresh(AddTx(ups, rest, h), s.ns, s.writes, h);
      AddWritesFresh(AddTx(map[], rest, h), s.ns, s.writes, h);
    }
  }

  /** The flag of a transaction is final once it has been looked at. */
  lemma {:induction false} FlagsFinal(db: DB, blk: Block, mvcc: bool, savepoint: Height, i: nat, n: nat)
    requires i <= n <= |blk.txs| == |blk.flags|
    ensures forall j :: 0 <= j < i ==>
      Prepare(db, blk, mvcc, savepoint, n).flags[j] == Prepare(db, blk, mvcc, savepoint, i).flags[j]
    ensures forall j :: n <= j < |blk.flags| ==> Prepare(db, blk, mvcc, savepoint, n).flags[j] == blk.flags[j]
    decreases n
  {
    if n > 0 {
      if i < n {
        FlagsFinal(db, blk, mvcc, savepoint, i, n - 1);
      } else {
        FlagsFinal(db, blk, mvcc, savepoint, n - 1, n - 1);
      }
    }
  }

  /** The read check, exactly: for a version from an earlier block, it accepts a read that is
      current in the serial order unless an earlier transaction of the block has deleted the key. */
  lemma ReadCheckExact(db: DB, ups: Updates, ns: string, r: KVRead, number: nat)
    requires forall k :: k in ups ==> ups[k].version.blockNum == number
    requires r.version.Some? ==> r.version.value.blockNum < number
    ensures var k := Key(ns, r.key);
      ReadOk(db, ups, ns, r) <==>
      VersionIn(Apply(db, ups), k) == r.version && !(k in ups && ups[k].value == None)
  {
    var k := Key(ns, r.key);
    assert Find(Apply(db, ups), k) == if k in ups then Written(ups[k]) else Find(db, k);
  }

  /** So the check is not complete: deleting a key that is not there makes a later read of the
      absent key a conflict, although the read is still current. */
  lemma DeleteOfAbsentKeyConflicts(db: DB, k: Key, h: Height)
    requires k !in db
    ensures var ups := AddTx(map[], [NsRwSet(k.ns, [], [], [Del(k.key)])], h);
      var r := KVRead(k.key, None);
      !ReadOk(db, ups, k.ns, r) && VersionIn(Apply(db, ups), k) == r.version
  {
    var sets := [NsRwSet(k.ns, [], [], [Del(k.key)])];
    assert sets[..0] == [] && [Del(k.key)][..0] == [];
    assert AddWrites(map[], k.ns, [Del(k.key)], h) == map[k := Update(None, h)];
    assert AddTx(map[], sets, h) == map[k := Update(None, h)];
    assert Find(Apply(db, map[k := Update(None, h)]), k) == None;
  }

  // ---------------------------------------------------------------- chains

  /** Committing further blocks: the state, and the blocks as they are stored. */
  ghost function CommitAll(db: DB, blks: seq<Block>, savepoints: nat -> Height): (r: (DB, seq<Block>))
    requires forall j :: 0 <= j < |blks| ==> |blks[j].txs| == |blks[j].flags|
    ensures |r.1| == |blks|
    ensures forall j :: 0 <= j < |blks| ==> r.1[j].txs == blks[j].txs && |r.1[j].flags| == |blks[j].flags| && r.1[j].number == blks[j].number
  {
    if blks == [] then (db, [])
    else
      var n := |blks| - 1;
      var (db1, stored) := CommitAll(db, blks[..n], savepoints);
      var (db2, b) := Commit(db1, blks[n], true, savepoints(n));
      (db2, stored + [b])
  }
}
