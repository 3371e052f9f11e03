/** The iterator that merges the state database with the updates of the block, and the check of a
    recorded range query that uses it. */
module StateValidator {
  import opened Common
  import opened Lex
  import opened Mvcc

  ghost function UpdateKeysIn(ups: Updates, ns: string, start: string, end: string): set<string> {
    set x | x in ups && x.ns == ns && InRange(x.key, start, end) :: x.key
  }

  /** Which head is taken: the smaller one, or both when they are the same key. */
  predicate TakeFirst(a: seq<string>, b: seq<string>) { a != [] && (b == [] || Leq(a[0], b[0])) }

  function Rest(a: seq<string>, take: bool): seq<string>
    requires take ==> a != []
  {
    if take then a[1..] else a
  }

  /** The live keys of two lists merged: what the iterator goes through. */
  ghost function Merge(now: DB, ns: string, a: seq<string>, b: seq<string>): seq<string>
    decreases |a| + |b|
  {
    if a == [] && b == [] then []
    else
      HeadsCompare(a, b);
      var key := if TakeFirst(b, a) then b[0] else a[0];
      (if Key(ns, key) in now then [key] else []) + Merge(now, ns, Rest(a, TakeFirst(a, b)), Rest(b, TakeFirst(b, a)))
  }

  lemma HeadsCompare(a: seq<string>, b: seq<string>)
    requires a != [] || b != []
    ensures TakeFirst(a, b) || TakeFirst(b, a)
    ensures TakeFirst(a, b) && TakeFirst(b, a) ==> a[0] == b[0]
    ensures TakeFirst(a, b) && !TakeFirst(b, a) && b != [] ==> Less(a[0], b[0])
    ensures TakeFirst(b, a) && !TakeFirst(a, b) && a != [] ==> Less(b[0], a[0])
  {
    if a != [] && b != [] {
      LessTotal(a[0], b[0]);
      if Less(a[0], b[0]) {
        LessAsymmetric(a[0], b[0]);
      } else if Less(b[0], a[0]) {
        LessAsymmetric(b[0], a[0]);
      }
    }
  }

  /** The merge is in order and holds exactly the live keys of the two lists. */
  lemma {:induction false} MergeIs(now: DB, ns: string, a: seq<string>, b: seq<string>)
    requires Sorted(a) && Sorted(b)
    ensures Sorted(Merge(now, ns, a, b))
    ensures forall k :: k in Merge(now, ns, a, b) <==> (k in a || k in b) && Key(ns, k) in now
    decreases |a| + |b|
  {
    if a != [] || b != [] {
      HeadsCompare(a, b);
      var key := if TakeFirst(b, a) then b[0] else a[0];
      var a', b' := Rest(a, TakeFirst(a, b)), Rest(b, TakeFirst(b, a));
      MergeIs(now, ns, a', b');
      TakeHead(a, TakeFirst(a, b), key);
      TakeHead(b, TakeFirst(b, a), key);
      Prepend(key, Merge(now, ns, a', b'), Merge(now, ns, a, b));
    }
  }

  lemma Prepend(key: string, rest: seq<string>, all: seq<string>)
    requires Sorted(rest) && (forall k :: k in rest ==> Less(key, k)) && (all == [key] + rest || all == rest)
    ensures Sorted(all)
  {
    forall i, j | 0 <= i < j < |all|
      ensures Less(all[i], all[j])
    {
      if all == [key] + rest {
        assert all[j] == rest[j - 1];
        assert rest[j - 1] in rest;
      }
    }
  }

  /** Taking or leaving the head of a list, when key is the smallest head. */
  lemma TakeHead(s: seq<string>, take: bool, key: string)
    requires Sorted(s)
    requires take ==> s != [] && s[0] == key
    requires !take && s != [] ==> Less(key, s[0])
    ensures Sorted(Rest(s, take))
    ensures forall k :: k in Rest(s, take) ==> Less(key, k)
    ensures forall k :: k in s <==> k in Rest(s, take) || (take && k == key)
  {
    forall k
      ensures k in Rest(s, take) ==> Less(key, k)
      ensures k in s <==> k in Rest(s, take) || (take && k == key)
    {
      if take {
        assert s == [s[0]] + s[1..];
        TailMembers(s);
        HeadIsLeast(s, k);
      } else if k in s {
        HeadIsLeast(s, k);
        if k != s[0] {
          LessTransitive(key, s[0], k);
        }
      }
    }
  }

  /** Over the two underlying scans, the merge is the scan of the updated database. */
  lemma MergeIsScan(db: DB, ups: Updates, ns: string, start: string, end: string, a: seq<string>, b: seq<string>)
    requires a == ScanKeys(db, ns, start, end)
    requires b == SortedKeys(UpdateKeysIn(ups, ns, start, end))
    ensures forall k :: k in b <==> Key(ns, k) in ups && InRange(k, start, end)
    ensures Merge(Apply(db, ups), ns, a, b) == ScanKeys(Apply(db, ups), ns, start, end)
  {
    ScanFinds(db, ns, start, end);
    var now := Apply(db, ups);
    ScanFinds(now, ns, start, end);
    MergeIs(now, ns, a, b);
    forall k
      ensures k in b <==> Key(ns, k) in ups && InRange(k, start, end)
      ensures Key(ns, k) in now ==> Key(ns, k) in db || Key(ns, k) in ups
    {
      if Key(ns, k) in ups && InRange(k, start, end) {
        assert Key(ns, k).key in UpdateKeysIn(ups, ns, start, end);
      }
      assert Find(now, Key(ns, k)) == if Key(ns, k) in ups then Written(ups[Key(ns, k)]) else Find(db, Key(ns, k));
    }
    SortedUnique(Merge(now, ns, a, b), ScanKeys(now, ns, start, end));
  }

  /** The heads are what the database and the updates say about their keys: a pending database
      key that is updated is pending in the updates, too. */
  ghost predicate Sound(db: DB, ups: Updates, ns: string, a: seq<string>, b: seq<string>) {
    && Sorted(a) && Sorted(b)
    && (forall k :: k in a ==> Key(ns, k) in db && (Key(ns, k) in ups ==> k in b))
    && (forall k :: k in b ==> Key(ns, k) in ups)
  }

  /** The row for the key that is taken. */
  lemma TakenRow(db: DB, ups: Updates, ns: string, a: seq<string>, b: seq<string>)
    requires Sound(db, ups, ns, a, b) && (a != [] || b != [])
    ensures TakeFirst(a, b) || TakeFirst(b, a)
    ensures Sound(db, ups, ns, Rest(a, TakeFirst(a, b)), Rest(b, TakeFirst(b, a)))
    ensures TakeFirst(b, a) ==> Key(ns, b[0]) in ups
    ensures !TakeFirst(b, a) ==> Key(ns, a[0]) in db && Key(ns, a[0]) !in ups
  {
    HeadsCompare(a, b);
    var key := if TakeFirst(b, a) then b[0] else a[0];
    TakeHead(a, TakeFirst(a, b), key);
    TakeHead(b, TakeFirst(b, a), key);
    LessIrreflexive(key);
    if TakeFirst(b, a) {
      assert b[0] in b;
    } else {
      assert a[0] in a;
    }
  }

  lemma {:induction false} MergePresent(now: DB, ns: string, a: seq<string>, b: seq<string>)
    ensures Present(now, ns, Merge(now, ns, a, b))
    decreases |a| + |b|
  {
    if a != [] || b != [] {
      HeadsCompare(a, b);
      MergePresent(now, ns, Rest(a, TakeFirst(a, b)), Rest(b, TakeFirst(b, a)));
    }
  }

  /** The rows when the first key is served. */
  lemma RowsAfterOne(now: DB, ns: string, row: Row, keys: seq<string>, end: seq<Row>)
    requires Present(now, ns, keys) && Find(now, Key(ns, row.key)).Some? && now[Key(ns, row.key)].version == row.version
    ensures Present(now, ns, [row.key] + keys)
    ensures Rows(now, ns, [row.key] + keys) + end == [row] + (Rows(now, ns, keys) + end)
  {
    RowsConcat(now, ns, [row.key], keys);
  }

  class CombinedIterator {
    const db: DB
    const ups: Updates
    const ns: string
    const end: string
    const includeEnd: bool
    var dbRest: seq<string>
    var updateRest: seq<string>
    var endServed: bool

    ghost function Now(): DB { Apply(db, ups) }

    ghost predicate Valid()
      reads this
    {
      Sound(db, ups, ns, dbRest, updateRest)
    }

    ghost function Keys(): seq<string>
      reads this
    {
      Merge(Now(), ns, dbRest, updateRest)
    }

    ghost function EndRow(): seq<Row>
      reads this
    {
      if includeEnd && !endServed && Key(ns, end) in Now() then [Row(end, Now()[Key(ns, end)].version)] else []
    }

    /** The rows the iterator has still to return. */
    ghost function Remaining(): seq<Row>
      reads this
    {
      MergePresent(Now(), ns, dbRest, updateRest);
      Rows(Now(), ns, Keys()) + EndRow()
    }

    /** newCombinedIterator, given the keys of the two underlying iterators. */
    constructor (db: DB, ups: Updates, ns: string, start: string, end: string, includeEnd: bool,
                 dbKeys: seq<string>, updateKeys: seq<string>)
      requires dbKeys == ScanKeys(db, ns, start, end)
      requires updateKeys == SortedKeys(UpdateKeysIn(ups, ns, start, end))
      ensures Valid()
      ensures Remaining() == Results(Apply(db, ups), ns, start, end, includeEnd)
    {
      this.db, this.ups, this.ns, this.end, this.includeEnd := db, ups, ns, end, includeEnd;
      dbRest, updateRest, endServed := dbKeys, updateKeys, false;
      new;
      ScanFinds(db, ns, start, end);
      MergeIsScan(db, ups, ns, start, end, dbKeys, updateKeys);
    }

    /** Moves past one key; no row if the key is deleted. */
    method Advance() returns (row: Option<Row>)
      requires Valid() && (dbRest != [] || updateRest != [])
      modifies this`dbRest, this`updateRest
      ensures Valid()
      ensures row.Some? ==> old(Keys()) == [row.value.key] + Keys()
      ensures row.None? ==> old(Keys()) == Keys()
      ensures row.Some? ==> Find(Now(), Key(ns, row.value.key)).Some? && Now()[Key(ns, row.value.key)].version == row.value.version
      ensures |dbRest| + |updateRest| < old(|dbRest| + |updateRest|)
    {
      TakenRow(db, ups, ns, dbRest, updateRest);
      var moveDb, moveUpdate := TakeFirst(dbRest, updateRest), TakeFirst(updateRest, dbRest);
      if moveUpdate {
        var key := updateRest[0];
        assert Find(Now(), Key(ns, key)) == Written(ups[Key(ns, key)]);
        var u := ups[Key(ns, key)];
        row := if u.value.Some? then Some(Row(key, u.version)) else None;
      } else {
        var key := dbRest[0];
        assert Find(Now(), Key(ns, key)) == Find(db, Key(ns, key));
        row := Some(Row(key, db[Key(ns, key)].version));
      }
      dbRest, updateRest := Rest(dbRest, moveDb), Rest(updateRest, moveUpdate);
    }

    /** The next live row in key order. */
    method NextLive() returns (r: Option<Row>)
      requires Valid()
      modifies this`dbRest, this`updateRest
      ensures Valid()
      ensures r.Some? ==> old(Keys()) == [r.value.key] + Keys()
      ensures r.None? ==> old(Keys()) == [] == Keys()
      ensures r.Some? ==> Find(Now(), Key(ns, r.value.key)).Some? && Now()[Key(ns, r.value.key)].version == r.value.version
    {
      while dbRest != [] || updateRest != []
        invariant Valid() && Keys() == old(Keys())
        decreases |dbRest| + |updateRest|
      {
        r := Advance();
        if r.Some? {
          return;
        }
      }
      return None;
    }

    /** Next: the next live row in key order; when both lists are used up, the end key once. */
    method Next() returns (r: Option<Row>)
      requires Valid()
      modifies this
      ensures Valid()
      ensures r.Some? ==> old(Remaining()) == [r.value] + Remaining()
      ensures r.None? ==> old(Remaining()) == [] == Remaining()
    {
      MergePresent(Now(), ns, dbRest, updateRest);
      r := NextLive();
      MergePresent(Now(), ns, dbRest, updateRest);
      if r.Some? {
        RowsAfterOne(Now(), ns, r.value, Keys(), EndRow());
      } else {
        r := ServeEndKey();
      }
    }

    method ServeEndKey() returns (r: Option<Row>)
      requires Valid()
      modifies this`endServed
      ensures r.Some? ==> old(EndRow()) == [r.value] && EndRow() == []
      ensures r.None? ==> old(EndRow()) == [] == EndRow()
    {
      if !includeEnd || endServed {
        return None;
      }
      endServed := true;
      var k := Key(ns, end);
      assert Find(Now(), k) == if k in ups then Written(ups[k]) else Find(db, k);
      if k in ups {
        return if ups[k].value.Some? then Some(Row(end, ups[k].version)) else None;
      }
      return if k in db then Some(Row(end, db[k].version)) else None;
    }
  }

  /** rangeQueryResultsValidator.validate: the recorded rows against the iterator. */
  method ValidateRange(itr: CombinedIterator, rows: seq<Row>) returns (ok: bool)
    requires itr.Valid()
    modifies itr
    ensures ok <==> old(itr.Remaining()) == rows
  {
    ghost var all := itr.Remaining();
    var result := itr.Next();
    if |rows| == 0 {
      return result.None?;
    }
    ghost var left := all;
    for i := 0 to |rows|
      invariant itr.Valid()
      invariant all == rows <==> left == rows[i..]
      invariant left == if result.Some? then [result.value] + itr.Remaining() else []
    {
      SameHead(left, rows, i);
      if result.None? {
        return false;
      }
      if result.value.key != rows[i].key || result.value.version != rows[i].version {
        return false;
      }
      left := itr.Remaining();
      result := itr.Next();
    }
    return result.None?;
  }

  lemma SameHead(left: seq<Row>, rows: seq<Row>, i: nat)
    requires i < |rows|
    ensures left == rows[i..] <==> left != [] && left[0] == rows[i] && left[1..] == rows[i + 1..]
  {
    assert rows[i..] == [rows[i]] + rows[i + 1..];
    if left != [] {
      assert left == [left[0]] + left[1..];
    }
  }

  /** util.GetSortedKeys. */
  method GetSortedKeys(s: set<string>) returns (r: seq<string>)
    ensures r == SortedKeys(s)
  {
    r := [];
    var todo := s;
    while todo != {}
      invariant todo <= s && Sorted(r)
      invariant forall k :: k in r <==> k in s - todo
      decreases |todo|
    {
      var k :| k in todo;
      r := Insert(r, k);
      todo := todo - {k};
    }
    SortedUnique(r, SortedKeys(s));
  }

  method Insert(r: seq<string>, key: string) returns (r': seq<string>)
    requires Sorted(r) && key !in r
    ensures Sorted(r') && forall k :: k in r' <==> k == key || k in r
  {
    var i := 0;
    while i < |r| && Less(r[i], key)
      invariant 0 <= i <= |r|
      invariant forall j :: 0 <= j < i ==> Less(r[j], key)
    {
      i := i + 1;
    }
    InsertAt(r, key, i);
    return r[..i] + [key] + r[i..];
  }

  lemma InsertAt(r: seq<string>, key: string, i: nat)
    requires Sorted(r) && key !in r && i <= |r|
    requires forall j :: 0 <= j < i ==> Less(r[j], key)
    requires i < |r| ==> !Less(r[i], key)
    ensures Sorted(r[..i] + [key] + r[i..])
    ensures forall k :: k in r[..i] + [key] + r[i..] <==> k == key || k in r
  {
    forall j | i <= j < |r|
      ensures Less(key, r[j])
    {
      LessTotal(r[i], key);
      if i < j {
        LessTransitive(key, r[i], r[j]);
      }
    }
    assert r == r[..i] + r[i..];
  }

  /** validateRangeQuery decides exactly whether the query would give the recorded rows on the
      database with the block's updates so far. */
  method ValidateRangeQuery(db: DB, ups: Updates, ns: string, q: RangeQuery) returns (ok: bool)
    ensures ok <==> RangeOk(db, ups, ns, q)
  {
    var dbKeys := GetSortedKeys(set x | x in db && x.ns == ns && InRange(x.key, q.start, q.end) :: x.key);
    var updateKeys := GetSortedKeys(set x | x in ups && x.ns == ns && InRange(x.key, q.start, q.end) :: x.key);
    var itr := new CombinedIterator(db, ups, ns, q.start, q.end, !q.exhausted, dbKeys, updateKeys);
    ok := ValidateRange(itr, q.rows);
  }

  // ---------------------------------------------------------------- the validator

  /** One namespace of a transaction. */
  method ValidateNs(db: DB, ups: Updates, s: NsRwSet) returns (c: Code)
    ensures c == CheckNs(db, ups, s)
  {
    for i := 0 to |s.readSet|
      invariant forall j :: 0 <= j < i ==> ReadOk(db, ups, s.ns, s.readSet[j])
    {
      var k := Key(s.ns, s.readSet[i].key);
      if k in ups || VersionIn(db, k) != s.readSet[i].version {
        assert s.readSet[i] in s.readSet && !ReadOk(db, ups, s.ns, s.readSet[i]);
        return MvccReadConflict;
      }
    }
    for i := 0 to |s.ranges|
      invariant forall j :: 0 <= j < i ==> RangeOk(db, ups, s.ns, s.ranges[j])
    {
      var ok := ValidateRangeQuery(db, ups, s.ns, s.ranges[i]);
      if !ok {
        assert s.ranges[i] in s.ranges && !RangeOk(db, ups, s.ns, s.ranges[i]);
        return PhantomReadConflict;
      }
    }
    return Valid;
  }

  method ValidateTx(db: DB, batch: Batch, sets: seq<NsRwSet>, savepoint: Height) returns (c: Code, b: Batch)
    ensures (c, b) == CheckTx(db, batch, sets, savepoint)
  {
    b := batch;
    for i := 0 to |sets|
      invariant CheckTx(db, b, sets[i..], savepoint) == CheckTx(db, batch, sets, savepoint)
    {
      assert sets[i..][0] == sets[i] && sets[i..][1..] == sets[i + 1..];
      c := ValidateNs(db, b.updates, sets[i]);
      if c != Valid {
        return;
      }
      b := Calculate(db, b, sets[i].ns, sets[i].writes, savepoint);
    }
    c := Valid;
  }

  method ValidateAndPrepareBatch(db: DB, blk: Block, mvcc: bool, savepoint: Height) returns (updates: Updates, flags: seq<Code>)
    requires |blk.txs| == |blk.flags|
    ensures var p := Prepare(db, blk, mvcc, savepoint, |blk.txs|);
      updates == MoveCals(p.batch) && flags == p.flags
  {
    var b := NO_UPDATES;
    flags := blk.flags;
    for i := 0 to |blk.txs|
      invariant Prepared(b, flags) == Prepare(db, blk, mvcc, savepoint, i)
    {
      if flags[i] != Valid || blk.txs[i].OtherType? {
        continue;
      }
      var sets := blk.txs[i].sets;
      var code := Valid;
      if mvcc {
        code, b := ValidateTx(db, b, sets, savepoint);
      }
      if code == Valid {
        b := b.(updates := AddTx(b.updates, sets, Height(blk.number, i)));
      } else {
        flags := flags[i := code];
      }
    }
    updates := MoveCals(b);
  }
}
