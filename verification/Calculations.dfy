/** Calculations (writes to __CAL_ keys), exactly: which of them a block performs, what they leave
    in the state, and when replaying the stored block gives the same. */
module Calculations {
  import opened Common
  import opened Mvcc

  type Op = string -> string

  function ApplyOps(v: string, ops: seq<Op>): string {
    if ops == [] then v else ops[|ops| - 1](ApplyOps(v, ops[..|ops| - 1]))
  }

  lemma {:induction false} ApplyOpsConcat(v: string, a: seq<Op>, b: seq<Op>)
    ensures ApplyOps(v, a + b) == ApplyOps(ApplyOps(v, a), b)
    decreases |b|
  {
    if b == [] {
      assert a + b == a;
    } else {
      ApplyOpsConcat(v, a, b[..|b| - 1]);
      assert (a + b)[..|a + b| - 1] == a + b[..|b| - 1];
    }
  }

  // ---------------------------------------------------------------- one transaction

  /** The operations of a namespace on k, in order. */
  function NsOps(ns: string, writes: seq<KVWrite>, k: Key): seq<Op> {
    if writes == [] then []
    else
      var w := writes[|writes| - 1];
      NsOps(ns, writes[..|writes| - 1], k) + if w.Cal? && Key(ns, w.key) == k then [w.op] else []
  }

  /** The operations of the first n namespaces. */
  function TxOps(sets: seq<NsRwSet>, n: nat, k: Key): seq<Op>
    requires n <= |sets|
  {
    if n == 0 then [] else NsOps(sets[0].ns, sets[0].writes, k) + TxOps(sets[1..], n - 1, k)
  }

  ghost predicate HasCal(s: NsRwSet, k: Key) {
    exists l :: 0 <= l < |s.writes| && s.writes[l].Cal? && Key(s.ns, s.writes[l].key) == k
  }

  lemma {:induction false} NsOpsFound(ns: string, writes: seq<KVWrite>, k: Key)
    ensures NsOps(ns, writes, k) != [] <==>
      exists l :: 0 <= l < |writes| && writes[l].Cal? && Key(ns, writes[l].key) == k
  {
    if writes != [] {
      NsOpsFound(ns, writes[..|writes| - 1], k);
    }
  }

  lemma {:induction false} TxOpsFound(sets: seq<NsRwSet>, n: nat, k: Key)
    requires n <= |sets|
    ensures TxOps(sets, n, k) != [] <==> exists j :: 0 <= j < n && HasCal(sets[j], k)
  {
    if n > 0 {
      NsOpsFound(sets[0].ns, sets[0].writes, k);
      TxOpsFound(sets[1..], n - 1, k);
      if TxOps(sets[1..], n - 1, k) != [] {
        var j :| 0 <= j < n - 1 && HasCal(sets[1..][j], k);
        assert HasCal(sets[j + 1], k);
      }
      assert forall j :: 0 < j < n ==> sets[j] == sets[1..][j - 1];
    }
  }

  predicate SameAt(b: Batch, b': Batch, k: Key) {
    && (k in b.cals <==> k in b'.cals) && (k in b.cals ==> b'.cals[k] == b.cals[k])
    && (k in b.updates <==> k in b'.updates) && (k in b.updates ==> b'.updates[k] == b.updates[k])
  }

  /** What performing these operations on k does to a batch. */
  predicate Performed(db: DB, b: Batch, b': Batch, k: Key, ops: seq<Op>, savepoint: Height) {
    if ops == [] then SameAt(b, b', k)
    else
      var cur := Current(db, b, k, savepoint);
      k !in b'.updates && k in b'.cals && b'.cals[k] == Entry(ApplyOps(cur.value, ops), cur.version)
  }

  lemma PerformedInTurn(db: DB, b: Batch, b1: Batch, b2: Batch, k: Key, ops: seq<Op>, more: seq<Op>, savepoint: Height)
    requires Performed(db, b, b1, k, ops, savepoint) && Performed(db, b1, b2, k, more, savepoint)
    ensures Performed(db, b, b2, k, ops + more, savepoint)
  {
    ApplyOpsConcat(Current(db, b, k, savepoint).value, ops, more);
    if more == [] {
      assert ops + more == ops;
    } else if ops == [] {
      assert ops + more == more;
    }
  }

  lemma {:induction false} CalculatePerforms(db: DB, b: Batch, ns: string, writes: seq<KVWrite>, savepoint: Height, k: Key)
    ensures Performed(db, b, Calculate(db, b, ns, writes, savepoint), k, NsOps(ns, writes, k), savepoint)
  {
    if writes != [] {
      var front, w := writes[..|writes| - 1], writes[|writes| - 1];
      var b1 := Calculate(db, b, ns, front, savepoint);
      CalculatePerforms(db, b, ns, front, savepoint, k);
      var ops := if w.Cal? && Key(ns, w.key) == k then [w.op] else [];
      if ops != [] {
        assert ops[..0] == [];
        assert ApplyOps(Current(db, b1, k, savepoint).value, ops) == w.op(Current(db, b1, k, savepoint).value);
      }
      PerformedInTurn(db, b, b1, Calculate(db, b, ns, writes, savepoint), k, NsOps(ns, front, k), ops, savepoint);
    }
  }

  /** How many namespaces of a transaction pass their checks before one fails. */
  ghost function Passing(db: DB, b: Batch, sets: seq<NsRwSet>, savepoint: Height): (n: nat)
    ensures n <= |sets|
    decreases sets
  {
    if sets == [] || CheckNs(db, b.updates, sets[0]) != Valid then 0
    else 1 + Passing(db, Calculate(db, b, sets[0].ns, sets[0].writes, savepoint), sets[1..], savepoint)
  }

  lemma {:induction false} CheckTxPerforms(db: DB, b: Batch, sets: seq<NsRwSet>, savepoint: Height, k: Key)
    ensures var n := Passing(db, b, sets, savepoint);
      && Performed(db, b, CheckTx(db, b, sets, savepoint).1, k, TxOps(sets, n, k), savepoint)
      && (CheckTx(db, b, sets, savepoint).0 == Valid <==> n == |sets|)
    decreases sets
  {
    if sets != [] && CheckNs(db, b.updates, sets[0]) == Valid {
      var b1 := Calculate(db, b, sets[0].ns, sets[0].writes, savepoint);
      CalculatePerforms(db, b, sets[0].ns, sets[0].writes, savepoint, k);
      CheckTxPerforms(db, b1, sets[1..], savepoint, k);
      var n := Passing(db, b1, sets[1..], savepoint);
      PerformedInTurn(db, b, b1, CheckTx(db, b, sets, savepoint).1, k,
                      NsOps(sets[0].ns, sets[0].writes, k), TxOps(sets[1..], n, k), savepoint);
    }
  }

  /** What the checks of a transaction leave in the batch, refused or not: exactly the keys with a
      calculation in a namespace that passed become calculations and stop being updates, and
      nothing else changes. */
  lemma CheckTxCalculates(db: DB, b: Batch, sets: seq<NsRwSet>, savepoint: Height, k: Key)
    ensures var n := Passing(db, b, sets, savepoint); var b' := CheckTx(db, b, sets, savepoint).1;
      var calculates := exists j :: 0 <= j < n && HasCal(sets[j], k);
      && (k in b'.cals <==> k in b.cals || calculates)
      && (k in b'.updates <==> k in b.updates && !calculates)
      && (!calculates ==> SameAt(b, b', k))
      && (CheckTx(db, b, sets, savepoint).0 == Valid <==> n == |sets|)
  {
    CheckTxPerforms(db, b, sets, savepoint, k);
    TxOpsFound(sets, Passing(db, b, sets, savepoint), k);
  }

  /** If the first n namespaces calculate on k at all, k is being calculated already, is not pending
      as an update, and they do not change its value. */
  predicate NoneOrRepeated(b: Batch, sets: seq<NsRwSet>, n: nat, k: Key)
    requires n <= |sets|
  {
    var ops := TxOps(sets, n, k);
    ops != [] ==> k in b.cals && k !in b.updates && ApplyOps(b.cals[k].value, ops) == b.cals[k].value
  }

  ghost predicate Quiet(b: Batch, sets: seq<NsRwSet>, n: nat)
    requires n <= |sets|
  {
    forall k :: NoneOrRepeated(b, sets, n, k)
  }

  /** So a transaction, refused or not, leaves the batch as it was before its writes exactly if the
      namespaces that pass have no calculations but those that repeat. */
  lemma QuietIffNoCalculation(db: DB, b: Batch, sets: seq<NsRwSet>, savepoint: Height)
    ensures var n := Passing(db, b, sets, savepoint);
      CheckTx(db, b, sets, savepoint).1 == b <==> Quiet(b, sets, n)
  {
    var n := Passing(db, b, sets, savepoint);
    var b' := CheckTx(db, b, sets, savepoint).1;
    if b' == b {
      forall k
        ensures NoneOrRepeated(b, sets, n, k)
      {
        CheckTxPerforms(db, b, sets, savepoint, k);
      }
      assert Quiet(b, sets, n);
    }
    if Quiet(b, sets, n) {
      forall k
        ensures SameAt(b, b', k)
      {
        CheckTxPerforms(db, b, sets, savepoint, k);
        assert NoneOrRepeated(b, sets, n, k);
      }
      SameEverywhere(b, b');
    }
  }

  lemma SameEverywhere(b: Batch, b': Batch)
    requires forall k :: SameAt(b, b', k)
    ensures b == b'
  {
    forall k
      ensures k in b.cals <==> k in b'.cals
      ensures k in b.cals ==> b.cals[k] == b'.cals[k]
      ensures k in b.updates <==> k in b'.updates
      ensures k in b.updates ==> b.updates[k] == b'.updates[k]
    {
      assert SameAt(b, b', k);
    }
    assert b.cals == b'.cals && b.updates == b'.updates;
  }

  // ---------------------------------------------------------------- a block

  /** The operations on k that transaction t performs in its turn: those of the namespaces that
      pass, if the block came with the transaction not yet invalid. */
  ghost function OpsIn(db: DB, blk: Block, savepoint: Height, t: nat, k: Key): seq<Op>
    requires t < |blk.txs| == |blk.flags|
  {
    if blk.flags[t] != Valid || blk.txs[t].OtherType? then []
    else
      var sets := blk.txs[t].sets;
      TxOps(sets, Passing(db, Prepare(db, blk, true, savepoint, t).batch, sets, savepoint), k)
  }

  ghost function OpsByTx(db: DB, blk: Block, savepoint: Height, k: Key): (r: seq<seq<Op>>)
    requires |blk.txs| == |blk.flags|
    ensures |r| == |blk.txs| && forall t :: 0 <= t < |r| ==> r[t] == OpsIn(db, blk, savepoint, t, k)
  {
    seq(|blk.txs|, t requires 0 <= t < |blk.txs| => OpsIn(db, blk, savepoint, t, k))
  }

  function Flatten(all: seq<seq<Op>>, i: nat): seq<Op>
    requires i <= |all|
  {
    if i == 0 then [] else Flatten(all, i - 1) + all[i - 1]
  }

  function FirstOf(all: seq<seq<Op>>, i: nat): (t: nat)
    requires i <= |all| && Flatten(all, i) != []
    ensures t < i && all[t] != [] && Flatten(all, t) == []
  {
    if Flatten(all, i - 1) != [] then FirstOf(all, i - 1) else i - 1
  }

  lemma {:induction false} FlattenFound(all: seq<seq<Op>>, i: nat)
    requires i <= |all|
    ensures Flatten(all, i) != [] <==> exists t :: 0 <= t < i && all[t] != []
  {
    if i > 0 {
      FlattenFound(all, i - 1);
    }
  }

  /** The operations on k of the first i transactions. */
  ghost function BlockOps(db: DB, blk: Block, savepoint: Height, i: nat, k: Key): seq<Op>
    requires i <= |blk.txs| == |blk.flags|
  {
    Flatten(OpsByTx(db, blk, savepoint, k), i)
  }

  /** The first transaction that calculates on k. */
  ghost function FirstCal(db: DB, blk: Block, savepoint: Height, i: nat, k: Key): (t: nat)
    requires i <= |blk.txs| == |blk.flags| && BlockOps(db, blk, savepoint, i, k) != []
    ensures t < i && OpsIn(db, blk, savepoint, t, k) != [] && BlockOps(db, blk, savepoint, t, k) == []
  {
    FirstOf(OpsByTx(db, blk, savepoint, k), i)
  }

  /** Some transaction that was not invalid before has a calculation on k in a namespace up to
      which its checks pass. */
  ghost predicate CalculatesIn(db: DB, blk: Block, savepoint: Height, t: nat, k: Key)
    requires t < |blk.txs| == |blk.flags|
  {
    && blk.flags[t] == Valid && blk.txs[t].Endorser?
    && exists j :: 0 <= j < Passing(db, Prepare(db, blk, true, savepoint, t).batch, blk.txs[t].sets, savepoint)
                && HasCal(blk.txs[t].sets[j], k)
  }

  lemma OpsInFound(db: DB, blk: Block, savepoint: Height, t: nat, k: Key)
    requires t < |blk.txs| == |blk.flags|
    ensures OpsIn(db, blk, savepoint, t, k) != [] <==> CalculatesIn(db, blk, savepoint, t, k)
  {
    if blk.flags[t] == Valid && blk.txs[t].Endorser? {
      var sets := blk.txs[t].sets;
      TxOpsFound(sets, Passing(db, Prepare(db, blk, true, savepoint, t).batch, sets, savepoint), k);
    }
  }

  /** The writes of transaction t, if these flags leave it valid. */
  function WritesOf(blk: Block, flags: seq<Code>, t: nat): Updates
    requires t < |blk.txs| == |flags|
  {
    if flags[t] == Valid && blk.txs[t].Endorser? then AddTx(map[], blk.txs[t].sets, Height(blk.number, t)) else map[]
  }

  /** The flags the block is stored with. */
  ghost function FinalFlags(db: DB, blk: Block, savepoint: Height): (flags: seq<Code>)
    requires |blk.txs| == |blk.flags|
    ensures |flags| == |blk.flags|
  {
    Prepare(db, blk, true, savepoint, |blk.txs|).flags
  }

  ghost function BatchAt(db: DB, blk: Block, savepoint: Height, i: nat): Batch
    requires i <= |blk.txs| == |blk.flags|
  {
    Prepare(db, blk, true, savepoint, i).batch
  }

  /** The batch after the checks of transaction t. */
  ghost function Checked(db: DB, blk: Block, savepoint: Height, t: nat): Batch
    requires t < |blk.txs| == |blk.flags|
  {
    var b := BatchAt(db, blk, savepoint, t);
    if blk.flags[t] != Valid || blk.txs[t].OtherType? then b else CheckTx(db, b, blk.txs[t].sets, savepoint).1
  }

  /** One transaction of the block: its calculations, and then its writes if it stays valid. */
  lemma StepPerforms(db: DB, blk: Block, savepoint: Height, i: nat, k: Key)
    requires i < |blk.txs| == |blk.flags|
    ensures var b, c, b' := BatchAt(db, blk, savepoint, i), Checked(db, blk, savepoint, i), BatchAt(db, blk, savepoint, i + 1);
      && Performed(db, b, c, k, OpsIn(db, blk, savepoint, i, k), savepoint)
      && b'.cals == c.cals && b'.updates == c.updates + WritesOf(blk, FinalFlags(db, blk, savepoint), i)
  {
    FlagsFinal(db, blk, true, savepoint, i, i);
    FlagsFinal(db, blk, true, savepoint, i + 1, |blk.txs|);
    if blk.flags[i] == Valid && blk.txs[i].Endorser? {
      var b, sets := BatchAt(db, blk, savepoint, i), blk.txs[i].sets;
      CheckTxPerforms(db, b, sets, savepoint, k);
      AddTxFresh(CheckTx(db, b, sets, savepoint).1.updates, sets, Height(blk.number, i));
    } else {
      NotValidStays(db, blk, savepoint, i);
    }
  }

  lemma NotValidStays(db: DB, blk: Block, savepoint: Height, i: nat)
    requires i < |blk.txs| == |blk.flags| && !(blk.flags[i] == Valid && blk.txs[i].Endorser?)
    ensures WritesOf(blk, FinalFlags(db, blk, savepoint), i) == map[]
    ensures BatchAt(db, blk, savepoint, i + 1) == BatchAt(db, blk, savepoint, i)
  {
    FlagsFinal(db, blk, true, savepoint, i, i);
    FlagsFinal(db, blk, true, savepoint, i + 1, |blk.txs|);
  }

  /** What the first calculation on k starts from. */
  ghost function StartOf(db: DB, blk: Block, savepoint: Height, i: nat, k: Key): Entry
    requires i <= |blk.txs| == |blk.flags| && BlockOps(db, blk, savepoint, i, k) != []
  {
    Current(db, BatchAt(db, blk, savepoint, FirstCal(db, blk, savepoint, i, k)), k, savepoint)
  }

  /** One step of the pending calculation on k. */
  predicate Stepped(db: DB, b: Batch, b': Batch, k: Key, ops: seq<Op>, savepoint: Height) {
    var cur := Current(db, b, k, savepoint);
    && (k in b'.cals <==> k in b.cals || ops != [])
    && (k in b'.cals ==> b'.cals[k] == Entry(ApplyOps(cur.value, ops), cur.version))
  }

  predicate StepsAt(db: DB, bs: seq<Batch>, all: seq<seq<Op>>, k: Key, savepoint: Height, t: nat)
    requires |bs| == |all| + 1 && t < |all|
  {
    Stepped(db, bs[t], bs[t + 1], k, all[t], savepoint)
  }

  /** Any sequence of such steps composes the operations, from what the first one found. */
  lemma {:induction false} StepsCompose(db: DB, bs: seq<Batch>, all: seq<seq<Op>>, k: Key, savepoint: Height, i: nat)
    requires |bs| == |all| + 1 && i <= |all| && k !in bs[0].cals
    requires forall t :: 0 <= t < |all| ==> StepsAt(db, bs, all, k, savepoint, t)
    ensures k in bs[i].cals <==> Flatten(all, i) != []
    ensures k in bs[i].cals ==>
      var start := Current(db, bs[FirstOf(all, i)], k, savepoint);
      bs[i].cals[k] == Entry(ApplyOps(start.value, Flatten(all, i)), start.version)
  {
    if i > 0 {
      StepsCompose(db, bs, all, k, savepoint, i - 1);
      assert StepsAt(db, bs, all, k, savepoint, i - 1);
      var ops, more := Flatten(all, i - 1), all[i - 1];
      if ops == [] {
        assert ops + more == more;
      } else {
        ApplyOpsConcat(Current(db, bs[FirstOf(all, i - 1)], k, savepoint).value, ops, more);
      }
    }
  }

  ghost function Batches(db: DB, blk: Block, savepoint: Height): (bs: seq<Batch>)
    requires |blk.txs| == |blk.flags|
    ensures |bs| == |blk.txs| + 1 && forall i :: 0 <= i < |bs| ==> bs[i] == BatchAt(db, blk, savepoint, i)
  {
    seq(|blk.txs| + 1, i requires 0 <= i <= |blk.txs| => BatchAt(db, blk, savepoint, i))
  }

  lemma CalsAre(db: DB, blk: Block, savepoint: Height, i: nat, k: Key)
    requires i <= |blk.txs| == |blk.flags|
    ensures var cals, ops := BatchAt(db, blk, savepoint, i).cals, BlockOps(db, blk, savepoint, i, k);
      && (k in cals <==> ops != [])
      && (k in cals ==>
           var start := StartOf(db, blk, savepoint, i, k);
           cals[k] == Entry(ApplyOps(start.value, ops), start.version))
  {
    var bs, all := Batches(db, blk, savepoint), OpsByTx(db, blk, savepoint, k);
    forall t | 0 <= t < |all|
      ensures StepsAt(db, bs, all, k, savepoint, t)
    {
      CalsStep(db, blk, savepoint, t, k);
    }
    assert bs[0] == NO_UPDATES;
    StepsCompose(db, bs, all, k, savepoint, i);
  }

  /** The pending calculations at every point of the block: k is among them exactly if some
      transaction so far calculates on it, and its entry is the composition of all operations so
      far, applied to what the first one found, with the version of that. */
  lemma CalsExact(db: DB, blk: Block, savepoint: Height, i: nat, k: Key)
    requires i <= |blk.txs| == |blk.flags|
    ensures var cals, ops := BatchAt(db, blk, savepoint, i).cals, BlockOps(db, blk, savepoint, i, k);
      && (k in cals <==> ops != [])
      && (k in cals <==> exists t :: 0 <= t < i && CalculatesIn(db, blk, savepoint, t, k))
      && (k in cals ==>
           var start := StartOf(db, blk, savepoint, i, k);
           cals[k] == Entry(ApplyOps(start.value, ops), start.version))
  {
    CalsAre(db, blk, savepoint, i, k);
    var all := OpsByTx(db, blk, savepoint, k);
    FlattenFound(all, i);
    forall t | 0 <= t < i
      ensures all[t] != [] <==> CalculatesIn(db, blk, savepoint, t, k)
    {
      OpsInFound(db, blk, savepoint, t, k);
    }
  }

  lemma CalsStep(db: DB, blk: Block, savepoint: Height, i: nat, k: Key)
    requires i < |blk.txs| == |blk.flags|
    ensures Stepped(db, BatchAt(db, blk, savepoint, i), BatchAt(db, blk, savepoint, i + 1), k,
                    OpsIn(db, blk, savepoint, i, k), savepoint)
  {
    StepPerforms(db, blk, savepoint, i, k);
  }

  /** The pending updates: k is among them exactly if a valid transaction has written it and none
      after that one has calculated on it. */
  lemma {:induction false} UpdatesExact(db: DB, blk: Block, savepoint: Height, i: nat, k: Key)
    requires i <= |blk.txs| == |blk.flags|
    ensures k in BatchAt(db, blk, savepoint, i).updates <==> WrittenAtEnd(db, blk, savepoint, i, k)
  {
    if i > 0 {
      UpdatesExact(db, blk, savepoint, i - 1, k);
      UpdatesStep(db, blk, savepoint, i - 1, k);
      WrittenStep(db, blk, savepoint, i, k);
    }
  }

  lemma WrittenStep(db: DB, blk: Block, savepoint: Height, i: nat, k: Key)
    requires 0 < i <= |blk.txs| == |blk.flags|
    ensures WrittenAtEnd(db, blk, savepoint, i, k) <==>
      || k in WritesOf(blk, FinalFlags(db, blk, savepoint), i - 1)
      || (OpsIn(db, blk, savepoint, i - 1, k) == [] && WrittenAtEnd(db, blk, savepoint, i - 1, k))
  {
    if k in WritesOf(blk, FinalFlags(db, blk, savepoint), i - 1) {
      assert WrittenLast(db, blk, savepoint, i - 1, i, k);
    } else if WrittenAtEnd(db, blk, savepoint, i, k) {
      var t :| 0 <= t < i && WrittenLast(db, blk, savepoint, t, i, k);
      assert WrittenLast(db, blk, savepoint, t, i - 1, k);
    } else if OpsIn(db, blk, savepoint, i - 1, k) == [] && WrittenAtEnd(db, blk, savepoint, i - 1, k) {
      var t :| 0 <= t < i - 1 && WrittenLast(db, blk, savepoint, t, i - 1, k);
      assert WrittenLast(db, blk, savepoint, t, i, k);
    }
  }

  lemma UpdatesStep(db: DB, blk: Block, savepoint: Height, i: nat, k: Key)
    requires i < |blk.txs| == |blk.flags|
    ensures k in BatchAt(db, blk, savepoint, i + 1).updates <==>
      || k in WritesOf(blk, FinalFlags(db, blk, savepoint), i)
      || (k in BatchAt(db, blk, savepoint, i).updates && OpsIn(db, blk, savepoint, i, k) == [])
  {
    StepPerforms(db, blk, savepoint, i, k);
  }

  /** Some valid transaction among the first i writes k, and none of them after it calculates on k. */
  ghost predicate WrittenAtEnd(db: DB, blk: Block, savepoint: Height, i: nat, k: Key)
    requires i <= |blk.txs| == |blk.flags|
  {
    exists t :: 0 <= t < i && WrittenLast(db, blk, savepoint, t, i, k)
  }

  ghost predicate WrittenLast(db: DB, blk: Block, savepoint: Height, t: nat, i: nat, k: Key)
    requires t < i <= |blk.txs| == |blk.flags|
  {
    && k in WritesOf(blk, FinalFlags(db, blk, savepoint), t)
    && forall u :: t < u < i ==> OpsIn(db, blk, savepoint, u, k) == []
  }

  /** On k the batch has what applying the valid transactions one by one gives, if k is pending as
      an update or not calculated. */
  ghost predicate SerialAt(db: DB, blk: Block, savepoint: Height, i: nat, k: Key)
    requires i <= |blk.txs| == |blk.flags|
  {
    var b := BatchAt(db, blk, savepoint, i);
    k in b.updates || k !in b.cals ==>
    Find(Apply(db, b.updates), k) == Find(Serial(db, blk, FinalFlags(db, blk, savepoint), i), k)
  }

  /** At every point of the block, whatever the block. */
  lemma {:induction false} GroupCommit(db: DB, blk: Block, savepoint: Height, i: nat, k: Key)
    requires i <= |blk.txs| == |blk.flags|
    ensures SerialAt(db, blk, savepoint, i, k)
  {
    if i > 0 {
      GroupCommit(db, blk, savepoint, i - 1, k);
      GroupCommitStep(db, blk, savepoint, i - 1, k);
    }
  }

  lemma GroupCommitStep(db: DB, blk: Block, savepoint: Height, i: nat, k: Key)
    requires i < |blk.txs| == |blk.flags| && SerialAt(db, blk, savepoint, i, k)
    ensures SerialAt(db, blk, savepoint, i + 1, k)
  {
    var flags := FinalFlags(db, blk, savepoint);
    StepPerforms(db, blk, savepoint, i, k);
    SerialStep(db, blk, flags, i, k);
    GroupStep(db, BatchAt(db, blk, savepoint, i), Checked(db, blk, savepoint, i),
              WritesOf(blk, flags, i), Serial(db, blk, flags, i), k, OpsIn(db, blk, savepoint, i, k), savepoint);
  }

  /** A transaction's calculations and then its writes, on the batch and on the serial state. */
  lemma GroupStep(db: DB, b: Batch, c: Batch, writes: Updates, s: DB, k: Key, ops: seq<Op>, savepoint: Height)
    requires Performed(db, b, c, k, ops, savepoint)
    requires k in b.updates || k !in b.cals ==> Find(Apply(db, b.updates), k) == Find(s, k)
    ensures k in c.updates + writes || k !in c.cals ==>
      Find(Apply(db, c.updates + writes), k) == if k in writes then Written(writes[k]) else Find(s, k)
  {
    assert Find(Apply(db, b.updates), k) == if k in b.updates then Written(b.updates[k]) else Find(db, k);
    var u := c.updates + writes;
    assert Find(Apply(db, u), k) == if k in u then Written(u[k]) else Find(db, k);
  }

  lemma SerialStep(db: DB, blk: Block, flags: seq<Code>, i: nat, k: Key)
    requires i < |blk.txs| == |flags|
    ensures Find(Serial(db, blk, flags, i + 1), k) ==
      if k in WritesOf(blk, flags, i) then Written(WritesOf(blk, flags, i)[k]) else Find(Serial(db, blk, flags, i), k)
  {
  }

  // ---------------------------------------------------------------- the state after a block

  /** k is calculated, and no valid transaction at or after the last calculation writes it. */
  ghost predicate Live(db: DB, blk: Block, savepoint: Height, k: Key)
    requires |blk.txs| == |blk.flags|
  {
    var b := BatchAt(db, blk, savepoint, |blk.txs|);
    k in b.cals && k !in b.updates
  }

  /** The same, read off the block. */
  lemma LiveIff(db: DB, blk: Block, savepoint: Height, k: Key)
    requires |blk.txs| == |blk.flags|
    ensures Live(db, blk, savepoint, k) <==>
      && (exists t :: 0 <= t < |blk.txs| && CalculatesIn(db, blk, savepoint, t, k))
      && !WrittenAtEnd(db, blk, savepoint, |blk.txs|, k)
  {
    CalsExact(db, blk, savepoint, |blk.txs|, k);
    UpdatesExact(db, blk, savepoint, |blk.txs|, k);
  }

  /** What committing any block does to any key: a live calculation is stored, and otherwise it is
      as if the valid transactions had been applied one after the other. */
  lemma CommitExact(db: DB, blk: Block, savepoint: Height, k: Key)
    requires |blk.txs| == |blk.flags|
    ensures var (db', blk') := Commit(db, blk, true, savepoint);
      Find(db', k) ==
      if Live(db, blk, savepoint, k) then Some(BatchAt(db, blk, savepoint, |blk.txs|).cals[k])
      else Find(Serial(db, blk, blk'.flags, |blk.txs|), k)
  {
    GroupCommit(db, blk, savepoint, |blk.txs|, k);
    var b := BatchAt(db, blk, savepoint, |blk.txs|);
    assert Find(Apply(db, MoveCals(b)), k) == if k in MoveCals(b) then Written(MoveCals(b)[k]) else Find(db, k);
    assert Find(Apply(db, b.updates), k) == if k in b.updates then Written(b.updates[k]) else Find(db, k);
  }

  /** So committing a block is applying its valid transactions one after the other, in block
      order, on exactly the keys that no live calculation sets to something else. */
  lemma CommitIsSerial(db: DB, blk: Block, savepoint: Height)
    requires |blk.txs| == |blk.flags|
    ensures var (db', blk') := Commit(db, blk, true, savepoint);
      var s := Serial(db, blk, blk'.flags, |blk.txs|);
      db' == s <==> forall k :: Live(db, blk, savepoint, k) ==> Find(s, k) == Some(BatchAt(db, blk, savepoint, |blk.txs|).cals[k])
  {
    var (db', blk') := Commit(db, blk, true, savepoint);
    var s := Serial(db, blk, blk'.flags, |blk.txs|);
    forall k
      ensures Find(db', k) == Find(s, k) <==>
        (Live(db, blk, savepoint, k) ==> Find(s, k) == Some(BatchAt(db, blk, savepoint, |blk.txs|).cals[k]))
    {
      CommitExact(db, blk, savepoint, k);
    }
    if forall k :: Find(db', k) == Find(s, k) {
      SameFind(db', s);
    }
  }

  lemma {:induction false} ReplayBatch(db: DB, blk: Block, savepoint: Height, i: nat)
    requires i <= |blk.txs| == |blk.flags|
    ensures var p := Prepare(db, blk, false, savepoint, i);
      p.flags == blk.flags && p.batch.cals == map[] && Apply(db, p.batch.updates) == Serial(db, blk, blk.flags, i)
  {
    if i == 0 {
      SameFind(Apply(db, map[]), db);
    } else {
      ReplayBatch(db, blk, savepoint, i - 1);
      if blk.flags[i - 1] == Valid && blk.txs[i - 1].Endorser? {
        var before := Prepare(db, blk, false, savepoint, i - 1).batch.updates;
        var sets, h := blk.txs[i - 1].sets, Height(blk.number, i - 1);
        AddTxFresh(before, sets, h);
        ApplyInTurn(db, before, AddTx(map[], sets, h));
      }
    }
  }

  /** Replaying a block as it is stored, without the checks, is applying the transactions its flags
      leave valid one after the other. */
  lemma ReplayIsSerial(db: DB, blk: Block, savepoint: Height)
    requires |blk.txs| == |blk.flags|
    ensures Commit(db, blk, false, savepoint) == (Serial(db, blk, blk.flags, |blk.txs|), blk)
  {
    ReplayBatch(db, blk, savepoint, |blk.txs|);
    var b := Prepare(db, blk, false, savepoint, |blk.txs|).batch;
    assert MoveCals(b) == b.updates;
  }

  // ---------------------------------------------------------------- replaying the stored block

  /** What replaying gives any key of any block, compared with what committing gave. */
  lemma ReplayExact(db: DB, blk: Block, savepoint: Height, savepoint': Height, k: Key)
    requires |blk.txs| == |blk.flags|
    ensures var (db', blk') := Commit(db, blk, true, savepoint);
      Find(db', k) ==
      if Live(db, blk, savepoint, k) then Some(BatchAt(db, blk, savepoint, |blk.txs|).cals[k])
      else Find(Commit(db, blk', false, savepoint').0, k)
  {
    var blk' := Commit(db, blk, true, savepoint).1;
    CommitExact(db, blk, savepoint, k);
    ReplayIsSerial(db, blk', savepoint');
    SerialSameTxs(db, blk, blk', blk'.flags, |blk.txs|);
  }

  lemma {:induction false} SerialSameTxs(db: DB, a: Block, b: Block, flags: seq<Code>, i: nat)
    requires a.txs == b.txs && a.number == b.number && i <= |a.txs| == |flags|
    ensures Serial(db, a, flags, i) == Serial(db, b, flags, i)
  {
    if i > 0 {
      SerialSameTxs(db, a, b, flags, i - 1);
    }
  }

  /** For a key that is not in the database and that no valid transaction of the block writes,
      replaying agrees exactly if no calculation is performed on it. */
  lemma ReplayLosesCalculations(db: DB, blk: Block, savepoint: Height, savepoint': Height, k: Key)
    requires |blk.txs| == |blk.flags| && k !in db
    requires forall t :: 0 <= t < |blk.txs| ==> k !in WritesOf(blk, FinalFlags(db, blk, savepoint), t)
    ensures var (db', blk') := Commit(db, blk, true, savepoint);
      Find(db', k) == Find(Commit(db, blk', false, savepoint').0, k) <==>
      !exists t :: 0 <= t < |blk.txs| && CalculatesIn(db, blk, savepoint, t, k)
  {
    var blk' := Commit(db, blk, true, savepoint).1;
    ReplayExact(db, blk, savepoint, savepoint', k);
    LiveIff(db, blk, savepoint, k);
    ReplayIsSerial(db, blk', savepoint');
    SerialSameTxs(db, blk, blk', blk'.flags, |blk.txs|);
    assert blk'.flags == FinalFlags(db, blk, savepoint);
    SerialUnwritten(db, blk, blk'.flags, 0, |blk.txs|, k);
  }

  lemma {:induction false} SerialUnwritten(db: DB, blk: Block, flags: seq<Code>, i: nat, n: nat, k: Key)
    requires i <= n <= |blk.txs| == |flags|
    requires forall t :: i <= t < n ==> k !in WritesOf(blk, flags, t)
    ensures Find(Serial(db, blk, flags, n), k) == Find(Serial(db, blk, flags, i), k)
    decreases n
  {
    if i < n {
      SerialUnwritten(db, blk, flags, i, n - 1, k);
      SerialStep(db, blk, flags, n - 1, k);
    }
  }

  /** The calculations on k do no harm to a replay: its first one found an entry, nothing has
      written k since, and all of them together do not change the value. */
  ghost predicate Harmless(db: DB, blk: Block, savepoint: Height, k: Key)
    requires |blk.txs| == |blk.flags| && BlockOps(db, blk, savepoint, |blk.txs|, k) != []
  {
    var n, flags := |blk.txs|, FinalFlags(db, blk, savepoint);
    var first := FirstCal(db, blk, savepoint, n, k);
    var found := Find(Serial(db, blk, flags, first), k);
    && found.Some?
    && (forall t :: first <= t < n ==> k !in WritesOf(blk, flags, t))
    && ApplyOps(found.value.value, BlockOps(db, blk, savepoint, n, k)) == found.value.value
  }

  /** Versions in the database, and the one new counters get, are of earlier blocks. */
  ghost predicate Fresh(db: DB, blk: Block, savepoint: Height) {
    Before(db, blk.number) && (savepoint.blockNum < blk.number || CalFree(blk))
  }

  /** A key whose replay loses something: a live calculation that is not harmless. */
  ghost predicate Lost(db: DB, blk: Block, savepoint: Height, k: Key)
    requires |blk.txs| == |blk.flags|
  {
    CalsExact(db, blk, savepoint, |blk.txs|, k);
    Live(db, blk, savepoint, k) && !Harmless(db, blk, savepoint, k)
  }

  lemma {:induction false} WritesCarryHeight(sets: seq<NsRwSet>, h: Height)
    ensures forall k :: k in AddTx(map[], sets, h) ==> AddTx(map[], sets, h)[k].version == h
    decreases sets
  {
    if sets != [] {
      WritesCarryHeight(sets[..|sets| - 1], h);
      var s := sets[|sets| - 1];
      WritesOfSetCarryHeight(AddTx(map[], sets[..|sets| - 1], h), s.ns, s.writes, h);
    }
  }

  lemma {:induction false} WritesOfSetCarryHeight(ups: Updates, ns: string, writes: seq<KVWrite>, h: Height)
    requires forall k :: k in ups ==> ups[k].version == h
    ensures forall k :: k in AddWrites(ups, ns, writes, h) ==> AddWrites(ups, ns, writes, h)[k].version == h
    decreases writes
  {
    if writes != [] {
      WritesOfSetCarryHeight(ups, ns, writes[..|writes| - 1], h);
    }
  }

  /** A pending update carries the height of a transaction before this point. */
  lemma {:induction false} UpdateHeights(db: DB, blk: Block, savepoint: Height, i: nat, k: Key)
    requires i <= |blk.txs| == |blk.flags|
    ensures var ups := BatchAt(db, blk, savepoint, i).updates;
      k in ups ==> ups[k].version.blockNum == blk.number && ups[k].version.txNum < i
  {
    if i > 0 {
      UpdateHeights(db, blk, savepoint, i - 1, k);
      StepPerforms(db, blk, savepoint, i - 1, k);
      if blk.txs[i - 1].Endorser? {
        WritesCarryHeight(blk.txs[i - 1].sets, Height(blk.number, i - 1));
      }
    }
  }

  lemma WriteHeight(blk: Block, flags: seq<Code>, t: nat, k: Key)
    requires t < |blk.txs| == |flags| && k in WritesOf(blk, flags, t)
    ensures WritesOf(blk, flags, t)[k].version == Height(blk.number, t)
  {
    WritesCarryHeight(blk.txs[t].sets, Height(blk.number, t));
  }

  /** What is written at t or later carries a height from t on. */
  lemma {:induction false} SerialHeights(db: DB, blk: Block, flags: seq<Code>, t: nat, n: nat, k: Key)
    requires t < n <= |blk.txs| == |flags| && k in WritesOf(blk, flags, t)
    ensures var e := Find(Serial(db, blk, flags, n), k);
      e.Some? ==> e.value.version.blockNum == blk.number && e.value.version.txNum >= t
    decreases n
  {
    SerialStep(db, blk, flags, n - 1, k);
    if k in WritesOf(blk, flags, n - 1) {
      WriteHeight(blk, flags, n - 1, k);
    } else {
      SerialHeights(db, blk, flags, t, n - 1, k);
    }
  }

  /** What the first calculation on k starts from: the entry that the serial order has for k at
      that point, if there is one; in any case its version is from before that point. */
  lemma StartFound(db: DB, blk: Block, savepoint: Height, k: Key)
    requires |blk.txs| == |blk.flags| && BlockOps(db, blk, savepoint, |blk.txs|, k) != [] && Fresh(db, blk, savepoint)
    ensures var n := |blk.txs|; var first := FirstCal(db, blk, savepoint, n, k);
      var start := StartOf(db, blk, savepoint, n, k);
      var found := Find(Serial(db, blk, FinalFlags(db, blk, savepoint), first), k);
      && (found.Some? ==> start == found.value)
      && (start.version.blockNum < blk.number || (start.version.blockNum == blk.number && start.version.txNum < first))
  {
    var n := |blk.txs|;
    var first := FirstCal(db, blk, savepoint, n, k);
    var b := BatchAt(db, blk, savepoint, first);
    CalsExact(db, blk, savepoint, first, k);
    GroupCommit(db, blk, savepoint, first, k);
    UpdateHeights(db, blk, savepoint, first, k);
    assert Find(Apply(db, b.updates), k) == if k in b.updates then Written(b.updates[k]) else Find(db, k);
    CalculatesNotFree(db, blk, savepoint, first, k);
  }

  lemma CalculatesNotFree(db: DB, blk: Block, savepoint: Height, t: nat, k: Key)
    requires t < |blk.txs| == |blk.flags| && OpsIn(db, blk, savepoint, t, k) != []
    ensures !CalFree(blk)
  {
    var sets := blk.txs[t].sets;
    TxOpsFound(sets, Passing(db, Prepare(db, blk, true, savepoint, t).batch, sets, savepoint), k);
    var j :| 0 <= j < |sets| && HasCal(sets[j], k);
    HasCalNotFree(blk.txs[t], j, k);
  }

  lemma HasCalNotFree(tx: Tx, j: nat, k: Key)
    requires tx.Endorser? && j < |tx.sets| && HasCal(tx.sets[j], k)
    ensures !CalFreeTx(tx)
  {
    var s := tx.sets[j];
    var l :| 0 <= l < |s.writes| && s.writes[l].Cal? && Key(s.ns, s.writes[l].key) == k;
    assert tx.sets[j].writes[l].Cal?;
  }

  /** Replaying a stored block gives a key what committing it gave, exactly unless a live
      calculation on it is not harmless. */
  lemma ReplayAgreesIff(db: DB, blk: Block, savepoint: Height, savepoint': Height, k: Key)
    requires |blk.txs| == |blk.flags| && Fresh(db, blk, savepoint)
    ensures var (db', blk') := Commit(db, blk, true, savepoint);
      Find(db', k) == Find(Commit(db, blk', false, savepoint').0, k) <==> !Lost(db, blk, savepoint, k)
  {
    var n := |blk.txs|;
    var blk' := Commit(db, blk, true, savepoint).1;
    ReplayExact(db, blk, savepoint, savepoint', k);
    if Live(db, blk, savepoint, k) {
      CalsExact(db, blk, savepoint, n, k);
      StartFound(db, blk, savepoint, k);
      var flags := FinalFlags(db, blk, savepoint);
      assert blk'.flags == flags;
      ReplayIsSerial(db, blk', savepoint');
      SerialSameTxs(db, blk, blk', flags, n);
      var first := FirstCal(db, blk, savepoint, n, k);
      if forall t :: first <= t < n ==> k !in WritesOf(blk, flags, t) {
        SerialUnwritten(db, blk, flags, first, n, k);
      } else {
        var t :| first <= t < n && k in WritesOf(blk, flags, t);
        SerialHeights(db, blk, flags, t, n, k);
      }
    }
  }

  /** Replaying a stored block is committing it, exactly if no key is lost. */
  lemma ReplayIsCommitIff(db: DB, blk: Block, savepoint: Height, savepoint': Height)
    requires |blk.txs| == |blk.flags| && Fresh(db, blk, savepoint)
    ensures var (db', blk') := Commit(db, blk, true, savepoint);
      Commit(db, blk', false, savepoint').0 == db' <==> forall k :: !Lost(db, blk, savepoint, k)
  {
    var (db', blk') := Commit(db, blk, true, savepoint);
    var r := Commit(db, blk', false, savepoint').0;
    forall k
      ensures Find(db', k) == Find(r, k) <==> !Lost(db, blk, savepoint, k)
    {
      ReplayAgreesIff(db, blk, savepoint, savepoint', k);
    }
    if forall k :: Find(db', k) == Find(r, k) {
      SameFind(db', r);
    }
  }

  /** In particular without calculations. */
  lemma ReplayIsCommit(db: DB, blk: Block, savepoint: Height, savepoint': Height)
    requires |blk.txs| == |blk.flags| && CalFree(blk)
    ensures var (db', blk') := Commit(db, blk, true, savepoint);
      Commit(db, blk', false, savepoint').0 == db'
  {
    var (db', blk') := Commit(db, blk, true, savepoint);
    forall k
      ensures Find(db', k) == Find(Commit(db, blk', false, savepoint').0, k)
    {
      CalFreeNotLive(db, blk, savepoint, k);
      ReplayExact(db, blk, savepoint, savepoint', k);
    }
    SameFind(db', Commit(db, blk', false, savepoint').0);
  }

  lemma CalFreeNotLive(db: DB, blk: Block, savepoint: Height, k: Key)
    requires |blk.txs| == |blk.flags| && CalFree(blk)
    ensures !Live(db, blk, savepoint, k)
  {
    CalsExact(db, blk, savepoint, |blk.txs|, k);
    if BlockOps(db, blk, savepoint, |blk.txs|, k) != [] {
      CalculatesNotFree(db, blk, savepoint, FirstCal(db, blk, savepoint, |blk.txs|, k), k);
    }
  }

  /** A block with one transaction that makes one calculation. */
  function CounterBlock(k: Key, op: Op, number: nat): Block {
    Block(number, [Endorser([NsRwSet(k.ns, [], [], [Cal(k.key, op)])])], [Valid])
  }

  /** Committed on a database without k it makes a counter, and replayed it does not. */
  lemma CounterIsLost(db: DB, k: Key, op: Op, number: nat, savepoint: Height, savepoint': Height)
    requires k !in db
    ensures var (db', blk') := Commit(db, CounterBlock(k, op, number), true, savepoint);
      Find(db', k) == Some(Entry(op("0"), savepoint)) && k !in Commit(db, blk', false, savepoint').0
  {
    var blk := CounterBlock(k, op, number);
    CounterCalculates(db, k, op, number, savepoint);
    assert BatchAt(db, blk, savepoint, 0) == NO_UPDATES;
    RefusedTxStillCalculates(db, blk, savepoint, 0, k);
    ReplayIsSerial(db, blk.(flags := FinalFlags(db, blk, savepoint)), savepoint');
    SerialSameTxs(db, blk, blk.(flags := FinalFlags(db, blk, savepoint)), FinalFlags(db, blk, savepoint), 1);
    SerialUnwritten(db, blk, FinalFlags(db, blk, savepoint), 0, 1, k);
  }

  lemma CounterCalculates(db: DB, k: Key, op: Op, number: nat, savepoint: Height)
    ensures var blk := CounterBlock(k, op, number);
      && CalculatesIn(db, blk, savepoint, 0, k) && BlockOps(db, blk, savepoint, 1, k) == [op]
      && k !in WritesOf(blk, FinalFlags(db, blk, savepoint), 0)
  {
    var blk := CounterBlock(k, op, number);
    var sets := blk.txs[0].sets;
    CounterPasses(db, sets[0], savepoint);
    CounterOps(sets[0], k, op);
    assert Prepare(db, blk, true, savepoint, 0).batch == NO_UPDATES;
    OpsInFound(db, blk, savepoint, 0, k);
    var all := OpsByTx(db, blk, savepoint, k);
    assert Flatten(all, 0) == [] && all[0] == [op];
    CounterWritesNothing(sets[0], Height(number, 0));
  }

  lemma CounterPasses(db: DB, s: NsRwSet, savepoint: Height)
    requires s.readSet == [] && s.ranges == []
    ensures Passing(db, NO_UPDATES, [s], savepoint) == 1
  {
    assert [s][1..] == [];
    assert Passing(db, Calculate(db, NO_UPDATES, s.ns, s.writes, savepoint), [], savepoint) == 0;
  }

  lemma CounterOps(s: NsRwSet, k: Key, op: Op)
    requires s.ns == k.ns && s.writes == [Cal(k.key, op)]
    ensures TxOps([s], 1, k) == [op]
  {
    assert s.writes[..0] == [] && [s][1..] == [];
    assert NsOps(s.ns, s.writes[..0], k) == [];
    assert TxOps([s][1..], 0, k) == [];
  }

  lemma CounterWritesNothing(s: NsRwSet, h: Height)
    requires |s.writes| == 1 && s.writes[0].Cal?
    ensures AddTx(map[], [s], h) == map[]
  {
    assert s.writes[..0] == [] && [s][..0] == [];
    assert AddTx(map[], [s][..0], h) == map[];
    assert AddWrites(map[], s.ns, s.writes[..0], h) == map[];
  }

  // ---------------------------------------------------------------- refused transactions

  ghost predicate Refused(db: DB, blk: Block, savepoint: Height, t: nat)
    requires t < |blk.txs| == |blk.flags|
  {
    blk.flags[t] == Valid && blk.txs[t].Endorser? && FinalFlags(db, blk, savepoint)[t] != Valid
  }

  /** A refused transaction leaves no trace in the batch exactly if the namespaces before the one
      that failed have no calculations but those that repeat. */
  lemma RefusedTxIsQuietIff(db: DB, blk: Block, savepoint: Height, t: nat)
    requires t < |blk.txs| == |blk.flags| && Refused(db, blk, savepoint, t)
    ensures var b, sets := BatchAt(db, blk, savepoint, t), blk.txs[t].sets;
      var n := Passing(db, b, sets, savepoint);
      n < |sets| && (BatchAt(db, blk, savepoint, t + 1) == b <==> Quiet(b, sets, n))
  {
    FlagsFinal(db, blk, true, savepoint, t, t);
    FlagsFinal(db, blk, true, savepoint, t + 1, |blk.txs|);
    var b, sets := BatchAt(db, blk, savepoint, t), blk.txs[t].sets;
    QuietIffNoCalculation(db, b, sets, savepoint);
    CheckTxPerforms(db, b, sets, savepoint, Key("", ""));
  }

  /** What it leaves reaches the state: a calculation on k of a transaction, refused or not, is in
      the entry stored for k unless a valid transaction from there on writes k. */
  lemma RefusedTxStillCalculates(db: DB, blk: Block, savepoint: Height, t: nat, k: Key)
    requires t < |blk.txs| == |blk.flags| && CalculatesIn(db, blk, savepoint, t, k)
    requires forall u :: t <= u < |blk.txs| ==> k !in WritesOf(blk, FinalFlags(db, blk, savepoint), u)
    ensures var n := |blk.txs|;
      && OpsIn(db, blk, savepoint, t, k) != [] && BlockOps(db, blk, savepoint, n, k) != []
      && var start := StartOf(db, blk, savepoint, n, k);
      Find(Commit(db, blk, true, savepoint).0, k) ==
      Some(Entry(ApplyOps(start.value, BlockOps(db, blk, savepoint, n, k)), start.version))
  {
    var n := |blk.txs|;
    OpsInFound(db, blk, savepoint, t, k);
    CalsExact(db, blk, savepoint, n, k);
    LiveIff(db, blk, savepoint, k);
    forall u | 0 <= u < n
      ensures !WrittenLast(db, blk, savepoint, u, n, k)
    {
      assert u < t ==> OpsIn(db, blk, savepoint, t, k) != [];
    }
    CommitExact(db, blk, savepoint, k);
  }

  /** If transaction t is refused, it leaves the batch as it was. */
  ghost predicate NoTrace(db: DB, blk: Block, savepoint: Height, t: nat)
    requires t < |blk.txs| == |blk.flags|
  {
    Refused(db, blk, savepoint, t) ==> BatchAt(db, blk, savepoint, t + 1) == BatchAt(db, blk, savepoint, t)
  }

  /** Validating a stored block once more gives the same, if its refused transactions leave no
      trace in the batch. */
  lemma Revalidate(db: DB, blk: Block, savepoint: Height)
    requires |blk.txs| == |blk.flags| && forall t :: 0 <= t < |blk.txs| ==> NoTrace(db, blk, savepoint, t)
    ensures var (db', blk') := Commit(db, blk, true, savepoint);
      Commit(db, blk', true, savepoint) == (db', blk')
  {
    RevalidateBatch(db, blk, savepoint, |blk.txs|);
  }

  /** The operations of a transaction that stays valid are all it has. */
  lemma ValidOps(db: DB, blk: Block, savepoint: Height, t: nat, k: Key)
    requires t < |blk.txs| == |blk.flags| && FinalFlags(db, blk, savepoint)[t] == Valid && blk.txs[t].Endorser?
    ensures OpsIn(db, blk, savepoint, t, k) == TxOps(blk.txs[t].sets, |blk.txs[t].sets|, k)
  {
    FlagsFinal(db, blk, true, savepoint, t, t);
    FlagsFinal(db, blk, true, savepoint, t + 1, |blk.txs|);
    CheckTxPerforms(db, BatchAt(db, blk, savepoint, t), blk.txs[t].sets, savepoint, k);
  }

  /** What validating a stored block once more calculates, for any block: a transaction that was
      refused calculates nothing the second time, and one that is valid both times calculates what
      it did; so if no flag changes, exactly the calculations of the refused ones are missing. */
  lemma RevalidatedOps(db: DB, blk: Block, savepoint: Height, t: nat, k: Key)
    requires t < |blk.txs| == |blk.flags|
    ensures var blk' := Commit(db, blk, true, savepoint).1;
      && (blk'.flags[t] != Valid ==> OpsIn(db, blk', savepoint, t, k) == [])
      && (FinalFlags(db, blk', savepoint)[t] == Valid ==>
          OpsIn(db, blk', savepoint, t, k) == OpsIn(db, blk, savepoint, t, k))
      && (FinalFlags(db, blk', savepoint) == blk'.flags ==>
          OpsIn(db, blk', savepoint, t, k) == if Refused(db, blk, savepoint, t) then [] else OpsIn(db, blk, savepoint, t, k))
  {
    var blk' := Commit(db, blk, true, savepoint).1;
    FlagOnlyFalls(db, blk, savepoint, t);
    FlagOnlyFalls(db, blk', savepoint, t);
    if FinalFlags(db, blk', savepoint)[t] == Valid && blk.txs[t].Endorser? {
      ValidOps(db, blk, savepoint, t, k);
      ValidOps(db, blk', savepoint, t, k);
    }
  }

  lemma FlagOnlyFalls(db: DB, blk: Block, savepoint: Height, t: nat)
    requires t < |blk.txs| == |blk.flags|
    ensures blk.flags[t] != Valid ==> FinalFlags(db, blk, savepoint)[t] == blk.flags[t]
  {
    FlagsFinal(db, blk, true, savepoint, t, t);
    FlagsFinal(db, blk, true, savepoint, t + 1, |blk.txs|);
  }

  lemma {:induction false} RevalidateBatch(db: DB, blk: Block, savepoint: Height, i: nat)
    requires i <= |blk.txs| == |blk.flags| && forall t :: 0 <= t < i ==> NoTrace(db, blk, savepoint, t)
    ensures var blk' := Commit(db, blk, true, savepoint).1;
      Prepare(db, blk', true, savepoint, i) == Prepared(BatchAt(db, blk, savepoint, i), blk'.flags)
  {
    if i > 0 {
      RevalidateBatch(db, blk, savepoint, i - 1);
      assert NoTrace(db, blk, savepoint, i - 1);
      RevalidateStep(db, blk, Commit(db, blk, true, savepoint).1, savepoint, i - 1);
    }
  }

  lemma RevalidateStep(db: DB, blk: Block, blk': Block, savepoint: Height, i: nat)
    requires i < |blk.txs| == |blk.flags| && blk' == blk.(flags := FinalFlags(db, blk, savepoint))
    requires NoTrace(db, blk, savepoint, i)
    ensures StepTx(db, blk', true, savepoint, i, Prepared(BatchAt(db, blk, savepoint, i), blk'.flags)) ==
      Prepared(BatchAt(db, blk, savepoint, i + 1), blk'.flags)
  {
    FlagsFinal(db, blk, true, savepoint, i + 1, |blk.txs|);
    FlagsFinal(db, blk, true, savepoint, i, i);
  }
}
