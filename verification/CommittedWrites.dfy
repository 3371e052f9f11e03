/** What a block leaves in the state, read off the writes of its transactions by their places. */
module CommittedWrites {
  import opened Common
  import opened Mvcc
  import opened Calculations

  /** Write l of namespace j of transaction t. */
  datatype Place = Place(t: nat, j: nat, l: nat)

  predicate Earlier(p: Place, q: Place) {
    p.t < q.t || (p.t == q.t && (p.j < q.j || (p.j == q.j && p.l < q.l)))
  }

  predicate WritesTo(ns: string, w: KVWrite, k: Key) { !w.Cal? && Key(ns, w.key) == k }

  /** There is a put or delete of k at this place, in a transaction these flags leave valid. */
  predicate IsWrite(blk: Block, flags: seq<Code>, p: Place, k: Key)
    requires |blk.txs| == |flags|
  {
    && p.t < |blk.txs| && flags[p.t] == Valid && blk.txs[p.t].Endorser?
    && p.j < |blk.txs[p.t].sets| && p.l < |blk.txs[p.t].sets[p.j].writes|
    && WritesTo(blk.txs[p.t].sets[p.j].ns, blk.txs[p.t].sets[p.j].writes[p.l], k)
  }

  /** It is the last one among the first i transactions. */
  ghost predicate LastWrite(blk: Block, flags: seq<Code>, i: nat, p: Place, k: Key)
    requires |blk.txs| == |flags|
  {
    && IsWrite(blk, flags, p, k) && p.t < i
    && forall q :: IsWrite(blk, flags, q, k) && q.t < i ==> !Earlier(p, q)
  }

  ghost predicate NoWrite(blk: Block, flags: seq<Code>, i: nat, k: Key)
    requires |blk.txs| == |flags|
  {
    forall q :: IsWrite(blk, flags, q, k) ==> q.t >= i
  }

  function WriteAt(blk: Block, flags: seq<Code>, p: Place, k: Key): KVWrite
    requires |blk.txs| == |flags| && IsWrite(blk, flags, p, k)
  {
    blk.txs[p.t].sets[p.j].writes[p.l]
  }

  /** What a put or a delete leaves. */
  function Left(w: KVWrite, h: Height): Option<Entry> {
    if w.Put? then Some(Entry(w.value, h)) else None
  }

  // ---------------------------------------------------------------- one namespace, one transaction

  lemma {:induction false} AddWritesLast(ups: Updates, ns: string, writes: seq<KVWrite>, h: Height, k: Key, l: nat)
    requires l < |writes| && WritesTo(ns, writes[l], k)
    requires forall m :: l < m < |writes| ==> !WritesTo(ns, writes[m], k)
    ensures var u := AddWrites(ups, ns, writes, h); k in u && Written(u[k]) == Left(writes[l], h)
    decreases writes
  {
    if l < |writes| - 1 {
      assert !WritesTo(ns, writes[|writes| - 1], k);
      AddWritesLast(ups, ns, writes[..|writes| - 1], h, k, l);
    }
  }

  lemma {:induction false} AddWritesNone(ups: Updates, ns: string, writes: seq<KVWrite>, h: Height, k: Key)
    requires forall m :: 0 <= m < |writes| ==> !WritesTo(ns, writes[m], k)
    ensures var u := AddWrites(ups, ns, writes, h); (k in u <==> k in ups) && (k in ups ==> u[k] == ups[k])
    decreases writes
  {
    if writes != [] {
      assert !WritesTo(ns, writes[|writes| - 1], k);
      AddWritesNone(ups, ns, writes[..|writes| - 1], h, k);
    }
  }

  predicate WritesIn(s: NsRwSet, l: nat, k: Key) { l < |s.writes| && WritesTo(s.ns, s.writes[l], k) }

  lemma {:induction false} AddTxLast(ups: Updates, sets: seq<NsRwSet>, h: Height, k: Key, j: nat, l: nat)
    requires j < |sets| && WritesIn(sets[j], l, k)
    requires forall m :: l < m < |sets[j].writes| ==> !WritesIn(sets[j], m, k)
    requires forall i, m :: j < i < |sets| ==> !WritesIn(sets[i], m, k)
    ensures var u := AddTx(ups, sets, h); k in u && Written(u[k]) == Left(sets[j].writes[l], h)
    decreases sets
  {
    var s, front := sets[|sets| - 1], sets[..|sets| - 1];
    var before := AddTx(ups, front, h);
    if j < |sets| - 1 {
      AddTxLast(ups, front, h, k, j, l);
      assert forall m :: 0 <= m < |s.writes| && WritesTo(s.ns, s.writes[m], k) ==> WritesIn(s, m, k);
      AddWritesNone(before, s.ns, s.writes, h, k);
    } else {
      assert forall m :: 0 <= m < |s.writes| && WritesTo(s.ns, s.writes[m], k) ==> WritesIn(s, m, k);
      AddWritesLast(before, s.ns, s.writes, h, k, l);
    }
  }

  lemma {:induction false} AddTxNone(ups: Updates, sets: seq<NsRwSet>, h: Height, k: Key)
    requires forall i, m :: 0 <= i < |sets| ==> !WritesIn(sets[i], m, k)
    ensures var u := AddTx(ups, sets, h); (k in u <==> k in ups) && (k in ups ==> u[k] == ups[k])
    decreases sets
  {
    if sets != [] {
      var s, front := sets[|sets| - 1], sets[..|sets| - 1];
      AddTxNone(ups, front, h, k);
      assert forall m :: 0 <= m < |s.writes| && WritesTo(s.ns, s.writes[m], k) ==> WritesIn(s, m, k);
      AddWritesNone(AddTx(ups, front, h), s.ns, s.writes, h, k);
    }
  }

  // ---------------------------------------------------------------- the transactions in turn

  lemma WritesLast(blk: Block, flags: seq<Code>, p: Place, k: Key)
    requires |blk.txs| == |flags| && LastWrite(blk, flags, p.t + 1, p, k)
    ensures var ws := WritesOf(blk, flags, p.t);
      k in ws && Written(ws[k]) == Left(WriteAt(blk, flags, p, k), Height(blk.number, p.t))
  {
    var sets := blk.txs[p.t].sets;
    forall i, m | p.j <= i < |sets| && (i == p.j ==> p.l < m)
      ensures !WritesIn(sets[i], m, k)
    {
      assert Earlier(p, Place(p.t, i, m));
    }
    assert WritesIn(sets[p.j], p.l, k);
    AddTxLast(map[], sets, Height(blk.number, p.t), k, p.j, p.l);
  }

  lemma WritesNone(blk: Block, flags: seq<Code>, t: nat, k: Key)
    requires t < |blk.txs| == |flags| && forall q :: IsWrite(blk, flags, q, k) ==> q.t != t
    ensures k !in WritesOf(blk, flags, t)
  {
    if flags[t] == Valid && blk.txs[t].Endorser? {
      var sets := blk.txs[t].sets;
      forall i, m | 0 <= i < |sets|
        ensures !WritesIn(sets[i], m, k)
      {
        assert WritesIn(sets[i], m, k) ==> IsWrite(blk, flags, Place(t, i, m), k);
      }
      AddTxNone(map[], sets, Height(blk.number, t), k);
    }
  }

  /** If k is written at all there is a last write. */
  lemma {:induction false} SomeLast(blk: Block, flags: seq<Code>, i: nat, k: Key) returns (p: Place)
    requires i <= |blk.txs| == |flags| && !NoWrite(blk, flags, i, k)
    ensures LastWrite(blk, flags, i, p, k)
  {
    var q :| IsWrite(blk, flags, q, k) && q.t < i;
    p := LastFrom(blk, flags, i, q, k);
  }

  function Rank(blk: Block, i: nat, p: Place): (nat, nat, nat)
    requires p.t < i <= |blk.txs| && blk.txs[p.t].Endorser?
  {
    var sets := blk.txs[p.t].sets;
    (i - p.t, if p.j < |sets| then |sets| - p.j else 0, if p.j < |sets| && p.l < |sets[p.j].writes| then |sets[p.j].writes| - p.l else 0)
  }

  lemma {:induction false} LastFrom(blk: Block, flags: seq<Code>, i: nat, q: Place, k: Key) returns (p: Place)
    requires i <= |blk.txs| == |flags| && IsWrite(blk, flags, q, k) && q.t < i
    ensures LastWrite(blk, flags, i, p, k)
    decreases Rank(blk, i, q).0, Rank(blk, i, q).1, Rank(blk, i, q).2
  {
    if LastWrite(blk, flags, i, q, k) {
      p := q;
    } else {
      var r :| IsWrite(blk, flags, r, k) && r.t < i && Earlier(q, r);
      p := LastFrom(blk, flags, i, r, k);
    }
  }

  lemma WrittenByPlace(blk: Block, flags: seq<Code>, t: nat, k: Key)
    requires t < |blk.txs| == |flags|
    ensures k in WritesOf(blk, flags, t) <==> exists q :: IsWrite(blk, flags, q, k) && q.t == t
  {
    if exists q :: IsWrite(blk, flags, q, k) && q.t == t {
      var p := SomeLast(blk, flags, t + 1, k);
      var q :| IsWrite(blk, flags, q, k) && q.t == t;
      assert !Earlier(p, q);
      WritesLast(blk, flags, p, k);
    } else {
      WritesNone(blk, flags, t, k);
    }
  }

  /** Applying the valid transactions in turn leaves on a key what the last write says. */
  lemma {:induction false} SerialLast(db: DB, blk: Block, flags: seq<Code>, i: nat, p: Place, k: Key)
    requires i <= |blk.txs| == |flags| && LastWrite(blk, flags, i, p, k)
    ensures Find(Serial(db, blk, flags, i), k) == Left(WriteAt(blk, flags, p, k), Height(blk.number, p.t))
  {
    SerialStep(db, blk, flags, i - 1, k);
    if p.t == i - 1 {
      WritesLast(blk, flags, p, k);
    } else {
      LastStays(blk, flags, i, p, k);
      WritesNone(blk, flags, i - 1, k);
      SerialLast(db, blk, flags, i - 1, p, k);
    }
  }

  /** And leaves alone a key that none of them writes. */
  lemma SerialNone(db: DB, blk: Block, flags: seq<Code>, i: nat, k: Key)
    requires i <= |blk.txs| == |flags| && NoWrite(blk, flags, i, k)
    ensures Find(Serial(db, blk, flags, i), k) == Find(db, k)
  {
    forall t | 0 <= t < i
      ensures k !in WritesOf(blk, flags, t)
    {
      WritesNone(blk, flags, t, k);
    }
    SerialUnwritten(db, blk, flags, 0, i, k);
  }

  lemma LastStays(blk: Block, flags: seq<Code>, i: nat, p: Place, k: Key)
    requires 0 < i <= |blk.txs| == |flags| && LastWrite(blk, flags, i, p, k) && p.t < i - 1
    ensures LastWrite(blk, flags, i - 1, p, k) && forall q :: IsWrite(blk, flags, q, k) ==> q.t != i - 1
  {
    forall q | IsWrite(blk, flags, q, k)
      ensures q.t != i - 1
    {
      assert q.t == i - 1 ==> Earlier(p, q);
    }
  }

  // ---------------------------------------------------------------- a block

  /** No transaction from u on calculates on k. */
  ghost predicate NoneFrom(db: DB, blk: Block, savepoint: Height, u: nat, k: Key)
    requires |blk.txs| == |blk.flags|
  {
    forall t :: u <= t < |blk.txs| ==> !CalculatesIn(db, blk, savepoint, t, k)
  }

  lemma NotLive(db: DB, blk: Block, savepoint: Height, t: nat, k: Key)
    requires t < |blk.txs| == |blk.flags| && k in WritesOf(blk, FinalFlags(db, blk, savepoint), t)
    requires NoneFrom(db, blk, savepoint, t + 1, k)
    ensures !Live(db, blk, savepoint, k)
  {
    forall u | t < u < |blk.txs|
      ensures OpsIn(db, blk, savepoint, u, k) == []
    {
      OpsInFound(db, blk, savepoint, u, k);
    }
    assert WrittenLast(db, blk, savepoint, t, |blk.txs|, k);
    LiveIff(db, blk, savepoint, k);
  }

  /** A put or delete that is the last write of a valid transaction to a key, with no calculation on
      the key after that transaction, decides what is in the state: the value put, with the height of
      the transaction, or nothing. */
  lemma WriteCommitted(db: DB, blk: Block, savepoint: Height, p: Place, k: Key)
    requires |blk.txs| == |blk.flags| && LastWrite(blk, FinalFlags(db, blk, savepoint), |blk.txs|, p, k)
    requires NoneFrom(db, blk, savepoint, p.t + 1, k)
    ensures var w := WriteAt(blk, FinalFlags(db, blk, savepoint), p, k);
      && (w.Put? ==> Find(Commit(db, blk, true, savepoint).0, k) == Some(Entry(w.value, Height(blk.number, p.t))))
      && (w.Del? ==> k !in Commit(db, blk, true, savepoint).0)
  {
    var flags := FinalFlags(db, blk, savepoint);
    WrittenByPlace(blk, flags, p.t, k);
    NotLive(db, blk, savepoint, p.t, k);
    CommitExact(db, blk, savepoint, k);
    SerialLast(db, blk, flags, |blk.txs|, p, k);
  }

  /** A key that no valid transaction writes and none calculates on is as it was. */
  lemma OthersUnchanged(db: DB, blk: Block, savepoint: Height, k: Key)
    requires |blk.txs| == |blk.flags| && NoWrite(blk, FinalFlags(db, blk, savepoint), |blk.txs|, k)
    requires NoneFrom(db, blk, savepoint, 0, k)
    ensures Find(Commit(db, blk, true, savepoint).0, k) == Find(db, k)
  {
    LiveIff(db, blk, savepoint, k);
    CommitExact(db, blk, savepoint, k);
    SerialNone(db, blk, FinalFlags(db, blk, savepoint), |blk.txs|, k);
  }

  /** What the first calculation on a key starts from, in transaction first: the last write before it,
      where a delete leaves the empty string, then the database, and "0" with the savepoint. */
  function StartAfter(db: DB, k: Key, savepoint: Height, last: Option<(KVWrite, Height)>): Entry {
    match last
    case Some((w, h)) => Entry(if w.Put? then w.value else "", h)
    case None => if k in db then db[k] else Entry("0", savepoint)
  }

  lemma StartExact(db: DB, blk: Block, savepoint: Height, i: nat, k: Key)
    requires i <= |blk.txs| == |blk.flags| && BlockOps(db, blk, savepoint, i, k) != []
    ensures var flags := FinalFlags(db, blk, savepoint);
      var first, start := FirstCal(db, blk, savepoint, i, k), StartOf(db, blk, savepoint, i, k);
      && (NoWrite(blk, flags, first, k) ==> start == StartAfter(db, k, savepoint, None))
      && (forall p :: LastWrite(blk, flags, first, p, k) ==>
           start == StartAfter(db, k, savepoint, Some((WriteAt(blk, flags, p, k), Height(blk.number, p.t)))))
  {
    var flags := FinalFlags(db, blk, savepoint);
    var first := FirstCal(db, blk, savepoint, i, k);
    if NoWrite(blk, flags, first, k) {
      StartsFresh(db, blk, savepoint, i, k);
    }
    forall p | LastWrite(blk, flags, first, p, k)
      ensures StartOf(db, blk, savepoint, i, k) ==
        StartAfter(db, k, savepoint, Some((WriteAt(blk, flags, p, k), Height(blk.number, p.t))))
    {
      StartsWritten(db, blk, savepoint, i, p, k);
    }
  }

  lemma StartsFresh(db: DB, blk: Block, savepoint: Height, i: nat, k: Key)
    requires i <= |blk.txs| == |blk.flags| && BlockOps(db, blk, savepoint, i, k) != []
    requires NoWrite(blk, FinalFlags(db, blk, savepoint), FirstCal(db, blk, savepoint, i, k), k)
    ensures StartOf(db, blk, savepoint, i, k) == StartAfter(db, k, savepoint, None)
  {
    var first := FirstCal(db, blk, savepoint, i, k);
    CalsExact(db, blk, savepoint, first, k);
    PendingNone(db, blk, savepoint, first, k);
  }

  lemma StartsWritten(db: DB, blk: Block, savepoint: Height, i: nat, p: Place, k: Key)
    requires i <= |blk.txs| == |blk.flags| && BlockOps(db, blk, savepoint, i, k) != []
    requires LastWrite(blk, FinalFlags(db, blk, savepoint), FirstCal(db, blk, savepoint, i, k), p, k)
    ensures StartOf(db, blk, savepoint, i, k) ==
      StartAfter(db, k, savepoint, Some((WriteAt(blk, FinalFlags(db, blk, savepoint), p, k), Height(blk.number, p.t))))
  {
    var first := FirstCal(db, blk, savepoint, i, k);
    CalsExact(db, blk, savepoint, first, k);
    PendingLast(db, blk, savepoint, first, p, k, WriteAt(blk, FinalFlags(db, blk, savepoint), p, k));
  }

  lemma PendingNone(db: DB, blk: Block, savepoint: Height, i: nat, k: Key)
    requires i <= |blk.txs| == |blk.flags| && NoWrite(blk, FinalFlags(db, blk, savepoint), i, k)
    ensures k !in BatchAt(db, blk, savepoint, i).updates
  {
    forall t | 0 <= t < i
      ensures k !in WritesOf(blk, FinalFlags(db, blk, savepoint), t)
    {
      WritesNone(blk, FinalFlags(db, blk, savepoint), t, k);
    }
    UpdatesExact(db, blk, savepoint, i, k);
  }

  lemma NoOpsBefore(db: DB, blk: Block, savepoint: Height, i: nat, k: Key)
    requires 0 < i <= |blk.txs| == |blk.flags| && BlockOps(db, blk, savepoint, i, k) == []
    ensures BlockOps(db, blk, savepoint, i - 1, k) == [] && OpsIn(db, blk, savepoint, i - 1, k) == []
  {
    var all := OpsByTx(db, blk, savepoint, k);
    assert Flatten(all, i) == Flatten(all, i - 1) + all[i - 1];
  }

  predicate SameUpdate(a: Updates, b: Updates, k: Key) { (k in a <==> k in b) && (k in a ==> a[k] == b[k]) }

  lemma WrittenInTurn(db: DB, blk: Block, savepoint: Height, i: nat, k: Key)
    requires i < |blk.txs| == |blk.flags| && OpsIn(db, blk, savepoint, i, k) == []
    ensures var ups, ws := BatchAt(db, blk, savepoint, i + 1).updates, WritesOf(blk, FinalFlags(db, blk, savepoint), i);
      SameUpdate(ups, if k in ws then ws else BatchAt(db, blk, savepoint, i).updates, k)
  {
    StepPerforms(db, blk, savepoint, i, k);
  }

  predicate Pends(ups: Updates, k: Key, w: KVWrite, h: Height) {
    k in ups && ups[k].version == h && Written(ups[k]) == Left(w, h)
  }

  lemma PendsFrom(db: DB, blk: Block, savepoint: Height, p: Place, k: Key)
    requires |blk.txs| == |blk.flags| && LastWrite(blk, FinalFlags(db, blk, savepoint), p.t + 1, p, k)
    requires OpsIn(db, blk, savepoint, p.t, k) == []
    ensures Pends(BatchAt(db, blk, savepoint, p.t + 1).updates, k, WriteAt(blk, FinalFlags(db, blk, savepoint), p, k),
                  Height(blk.number, p.t))
  {
    var flags := FinalFlags(db, blk, savepoint);
    WrittenInTurn(db, blk, savepoint, p.t, k);
    WritesLast(blk, flags, p, k);
    WriteHeight(blk, flags, p.t, k);
  }

  lemma PendsOn(db: DB, blk: Block, savepoint: Height, i: nat, k: Key, w: KVWrite, h: Height)
    requires i < |blk.txs| == |blk.flags| && OpsIn(db, blk, savepoint, i, k) == []
    requires k !in WritesOf(blk, FinalFlags(db, blk, savepoint), i) && Pends(BatchAt(db, blk, savepoint, i).updates, k, w, h)
    ensures Pends(BatchAt(db, blk, savepoint, i + 1).updates, k, w, h)
  {
    WrittenInTurn(db, blk, savepoint, i, k);
  }

  /** The pending update of a key that is not calculated on. */
  lemma {:induction false} PendingLast(db: DB, blk: Block, savepoint: Height, i: nat, p: Place, k: Key, w: KVWrite)
    requires i <= |blk.txs| == |blk.flags| && BlockOps(db, blk, savepoint, i, k) == []
    requires LastWrite(blk, FinalFlags(db, blk, savepoint), i, p, k) && w == WriteAt(blk, FinalFlags(db, blk, savepoint), p, k)
    ensures Pends(BatchAt(db, blk, savepoint, i).updates, k, w, Height(blk.number, p.t))
  {
    var flags := FinalFlags(db, blk, savepoint);
    NoOpsBefore(db, blk, savepoint, i, k);
    if p.t == i - 1 {
      PendsFrom(db, blk, savepoint, p, k);
    } else {
      LastStays(blk, flags, i, p, k);
      WritesNone(blk, flags, i - 1, k);
      PendingLast(db, blk, savepoint, i - 1, p, k, w);
      PendsOn(db, blk, savepoint, i - 1, k, w, Height(blk.number, p.t));
    }
  }

  /** And a calculation that no valid transaction from there on overwrites is what is in the state:
      all operations of the block on the key, in order, applied to what the first one starts from. */
  lemma CalculationCommitted(db: DB, blk: Block, savepoint: Height, t: nat, k: Key)
    requires t < |blk.txs| == |blk.flags| && CalculatesIn(db, blk, savepoint, t, k)
    requires forall q :: IsWrite(blk, FinalFlags(db, blk, savepoint), q, k) ==> q.t < t
    ensures var n := |blk.txs|; var ops := BlockOps(db, blk, savepoint, n, k);
      && ops != []
      && var start := StartOf(db, blk, savepoint, n, k);
      Find(Commit(db, blk, true, savepoint).0, k) == Some(Entry(ApplyOps(start.value, ops), start.version))
  {
    forall u | t <= u < |blk.txs|
      ensures k !in WritesOf(blk, FinalFlags(db, blk, savepoint), u)
    {
      WrittenByPlace(blk, FinalFlags(db, blk, savepoint), u, k);
    }
    RefusedTxStillCalculates(db, blk, savepoint, t, k);
  }

  /** Replaying a stored block without the checks: the last write of a transaction its flags leave
      valid decides, calculations or not. */
  lemma WriteReplayed(db: DB, blk: Block, savepoint: Height, k: Key)
    requires |blk.txs| == |blk.flags|
    ensures var db' := Commit(db, blk, false, savepoint).0;
      && (NoWrite(blk, blk.flags, |blk.txs|, k) ==> Find(db', k) == Find(db, k))
      && (forall p :: LastWrite(blk, blk.flags, |blk.txs|, p, k) ==>
           Find(db', k) == Left(WriteAt(blk, blk.flags, p, k), Height(blk.number, p.t)))
  {
    var db' := Commit(db, blk, false, savepoint).0;
    ReplayIsSerial(db, blk, savepoint);
    if NoWrite(blk, blk.flags, |blk.txs|, k) {
      SerialNone(db, blk, blk.flags, |blk.txs|, k);
    }
    forall p | LastWrite(blk, blk.flags, |blk.txs|, p, k)
      ensures Find(db', k) == Left(WriteAt(blk, blk.flags, p, k), Height(blk.number, p.t))
    {
      SerialLast(db, blk, blk.flags, |blk.txs|, p, k);
    }
  }
}
