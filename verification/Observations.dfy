/** What a chaincode observes of a state, what the simulator records of it, and exactly when another
    state gives the same observations. */
module Observations {
  import opened Common
  import opened Lex
  import opened Mvcc

  /** What a chaincode asks the simulator: a key, or the first rows of a range. */
  datatype Query = Get(k: Key) | Scan(ns: string, start: string, end: string, limit: nat)

  datatype Obs = Got(value: Option<string>) | Page(rows: seq<(string, string)>)

  /** A chaincode, up to the point where it stops asking: its next query from what it has seen.
      Its writes are a function of what it has seen, too. */
  type Program = seq<Obs> -> Option<Query>

  /** The keys of the rows a scan returns before it stops. */
  ghost function FirstKeys(db: DB, q: Query): seq<string>
    requires q.Scan?
  {
    var keys := ScanKeys(db, q.ns, q.start, q.end);
    if |keys| < q.limit then keys else keys[..q.limit]
  }

  lemma FirstKeysPresent(db: DB, q: Query)
    requires q.Scan?
    ensures Present(db, q.ns, FirstKeys(db, q))
  {
    ScanFinds(db, q.ns, q.start, q.end);
  }

  ghost function Observe(db: DB, q: Query): Obs {
    match q
    case Get(k) => Got(if k in db then Some(db[k].value) else None)
    case Scan(ns, start, end, limit) =>
      var keys := FirstKeys(db, q);
      Page(seq(|keys|, i requires 0 <= i < |keys| =>
        (keys[i], if Key(ns, keys[i]) in db then db[Key(ns, keys[i])].value else "")))
  }

  /** The first n observations of a run. */
  ghost function Trace(next: Program, db: DB, n: nat): seq<Obs> {
    if n == 0 then []
    else
      var t := Trace(next, db, n - 1);
      match next(t)
      case None => t
      case Some(q) => t + [Observe(db, q)]
  }

  /** What the simulator records for a query: the version read; the rows read and the end of the
      range, which is the last key seen if the caller stopped before the end, and is not set if he
      never asked for a row. */
  datatype Record = ReadRecord(ns: string, read: KVRead) | RangeRecord(ns: string, range: RangeQuery)

  ghost function RecordOf(db: DB, q: Query): Record {
    match q
    case Get(k) => ReadRecord(k.ns, KVRead(k.key, VersionIn(db, k)))
    case Scan(ns, start, end, limit) =>
      var keys := FirstKeys(db, q);
      FirstKeysPresent(db, q);
      if |ScanKeys(db, ns, start, end)| < limit
      then RangeRecord(ns, RangeQuery(start, end, true, Rows(db, ns, keys)))
      else RangeRecord(ns, RangeQuery(start, if limit == 0 then "" else keys[limit - 1], false, Rows(db, ns, keys)))
  }

  ghost predicate Holds(db: DB, rec: Record) {
    match rec
    case ReadRecord(ns, r) => VersionIn(db, Key(ns, r.key)) == r.version
    case RangeRecord(ns, q) => Results(db, ns, q.start, q.end, !q.exhausted) == q.rows
  }

  /** The keys a record speaks about. */
  predicate Covers(rec: Record, k: Key) {
    match rec
    case ReadRecord(ns, r) => k == Key(ns, r.key)
    case RangeRecord(ns, q) => k.ns == ns && (InRange(k.key, q.start, q.end) || (!q.exhausted && k.key == q.end))
  }

  /** A version tells the value. */
  predicate AgreesAt(a: DB, b: DB, k: Key) {
    k in a && k in b && a[k].version == b[k].version ==> a[k].value == b[k].value
  }

  ghost predicate AgreesOn(a: DB, b: DB, rec: Record) { forall k :: Covers(rec, k) ==> AgreesAt(a, b, k) }

  // ---------------------------------------------------------------- one query

  ghost predicate SameVersions(db: DB, now: DB, ns: string, keys: seq<string>) {
    && Present(db, ns, keys) && Present(now, ns, keys)
    && forall i :: 0 <= i < |keys| ==> db[Key(ns, keys[i])].version == now[Key(ns, keys[i])].version
  }

  lemma RowKeys(db: DB, now: DB, ns: string, keys: seq<string>, keys': seq<string>)
    requires Present(db, ns, keys) && Present(now, ns, keys')
    requires Rows(db, ns, keys) == Rows(now, ns, keys')
    ensures keys == keys' && SameVersions(db, now, ns, keys)
  {
    var r, r' := Rows(db, ns, keys), Rows(now, ns, keys');
    assert |keys| == |r| == |r'| == |keys'|;
    forall i | 0 <= i < |keys|
      ensures keys[i] == keys'[i] && db[Key(ns, keys[i])].version == now[Key(ns, keys'[i])].version
    {
      assert r[i] == r'[i];
    }
  }

  /** For a range read to its end, the scan now gives the same keys. */
  lemma ExhaustedScan(db: DB, now: DB, q: Query)
    requires q.Scan? && Holds(now, RecordOf(db, q))
    requires |ScanKeys(db, q.ns, q.start, q.end)| < q.limit
    ensures FirstKeys(now, q) == FirstKeys(db, q) && SameVersions(db, now, q.ns, FirstKeys(db, q))
  {
    FirstKeysPresent(db, q);
    ScanFinds(now, q.ns, q.start, q.end);
    var keys := ScanKeys(now, q.ns, q.start, q.end);
    assert Results(now, q.ns, q.start, q.end, false) == Rows(now, q.ns, keys);
    RowKeys(db, now, q.ns, FirstKeys(db, q), keys);
  }

  /** For a range read up to some key, the keys now up to that key are the same, and they are the
      first ones of the whole scan. */
  lemma PartialScan(db: DB, now: DB, q: Query)
    requires q.Scan? && Holds(now, RecordOf(db, q))
    requires 1 <= q.limit <= |ScanKeys(db, q.ns, q.start, q.end)|
    ensures FirstKeys(now, q) == FirstKeys(db, q) && SameVersions(db, now, q.ns, FirstKeys(db, q))
  {
    FirstKeysPresent(db, q);
    var keys := FirstKeys(db, q);
    var last := keys[q.limit - 1];
    assert InRange(last, q.start, q.end) by {
      ScanFinds(db, q.ns, q.start, q.end);
      assert last == ScanKeys(db, q.ns, q.start, q.end)[q.limit - 1];
    }
    LastKeyNotEmpty(db, now, q);
    ResultsUpTo(now, q.ns, q.start, last);
    var upTo := UpTo(now, q.ns, q.start, last);
    RowKeys(db, now, q.ns, keys, upTo);
    assert Key(q.ns, upTo[q.limit - 1]) in now;
    UpToIsPrefix(now, q.ns, q.start, q.end, last);
    assert ScanKeys(now, q.ns, q.start, q.end)[..q.limit] == upTo;
  }

  /** The check of a record without an end that includes the end key never finds just the empty key:
      either it is not there, or it is served twice. */
  lemma EmptyKeyAlone(now: DB, ns: string, start: string, row: Row)
    ensures Results(now, ns, start, "", true) == [row] ==> start != "" || row.key != ""
  {
    ScanFinds(now, ns, start, "");
    var keys := ScanKeys(now, ns, start, "");
    var rows := Rows(now, ns, keys);
    assert start == "" && Key(ns, "") in now ==> "" in keys;
    assert keys != [] ==> keys[0] in keys && rows[0].key == keys[0];
    var all := Results(now, ns, start, "", true);
    assert |all| == |keys| + if Key(ns, "") in now then 1 else 0;
    assert keys != [] ==> all[0] == rows[0];
  }

  lemma EmptyIsFirst(s: seq<string>, i: nat)
    requires Sorted(s) && i < |s|
    ensures s[i] == "" ==> i == 0
  {
    assert i > 0 ==> Less(s[0], s[i]);
  }

  /** A scan that stopped at the empty key has recorded no end, so it does not pass. */
  lemma LastKeyNotEmpty(db: DB, now: DB, q: Query)
    requires q.Scan? && Holds(now, RecordOf(db, q))
    requires 1 <= q.limit <= |ScanKeys(db, q.ns, q.start, q.end)|
    ensures FirstKeys(db, q)[q.limit - 1] != ""
  {
    ScanFinds(db, q.ns, q.start, q.end);
    FirstKeysPresent(db, q);
    var keys, all := FirstKeys(db, q), ScanKeys(db, q.ns, q.start, q.end);
    EmptyIsFirst(all, q.limit - 1);
    assert all[0] in all;
    var row := Rows(db, q.ns, keys)[0];
    EmptyKeyAlone(now, q.ns, q.start, row);
    assert q.limit == 1 ==> Rows(db, q.ns, keys) == [row];
  }

  /** The keys from start up to and including last. */
  ghost function UpTo(db: DB, ns: string, start: string, last: string): seq<string> {
    ScanKeys(db, ns, start, last) + if Key(ns, last) in db then [last] else []
  }

  lemma ResultsUpTo(db: DB, ns: string, start: string, last: string)
    ensures Present(db, ns, UpTo(db, ns, start, last))
    ensures Results(db, ns, start, last, true) == Rows(db, ns, UpTo(db, ns, start, last))
  {
    ScanFinds(db, ns, start, last);
    RowsConcat(db, ns, ScanKeys(db, ns, start, last), if Key(ns, last) in db then [last] else []);
  }

  lemma UpToIsPrefix(db: DB, ns: string, start: string, end: string, last: string)
    requires InRange(last, start, end) && last != "" && Key(ns, last) in db
    ensures UpTo(db, ns, start, last) <= ScanKeys(db, ns, start, end)
  {
    ScanFinds(db, ns, start, last);
    ScanFinds(db, ns, start, end);
    var all, low := ScanKeys(db, ns, start, end), ScanKeys(db, ns, start, last);
    forall k
      ensures k in low <==> k in all && Less(k, last)
    {
      if Less(k, last) && end != "" {
        LessTransitive(k, last, end);
      }
    }
    BelowComesFirst(all, low, last);
  }

  // ---------------------------------------------------------------- what an observation depends on

  function ValueIn(db: DB, k: Key): Option<string> { if k in db then Some(db[k].value) else None }

  predicate SameValue(a: DB, b: DB, k: Key) { ValueIn(a, k) == ValueIn(b, k) }

  /** The keys whose presence and value a query on this state shows: for a scan that stops early
      those up to the last row. */
  ghost predicate Sees(db: DB, q: Query, k: Key) {
    match q
    case Get(g) => k == g
    case Scan(ns, start, end, limit) =>
      && k.ns == ns && limit > 0
      && if |ScanKeys(db, ns, start, end)| < limit then InRange(k.key, start, end)
         else Leq(start, k.key) && Leq(k.key, FirstKeys(db, q)[limit - 1])
  }

  /** The first keys of a sorted sequence are those up to the last of them. */
  lemma PrefixMembers(s: seq<string>, n: nat, k: string)
    requires Sorted(s) && 0 < n <= |s|
    ensures k in s[..n] <==> k in s && Leq(k, s[n - 1])
  {
    if k in s {
      var i :| 0 <= i < |s| && s[i] == k;
      if i < n {
        assert s[..n][i] == k;
      } else {
        assert Less(s[n - 1], s[i]);
        LessAsymmetric(s[n - 1], k);
        forall l | 0 <= l < n
          ensures s[..n][l] != k
        {
          assert Less(s[l], s[i]);
          LessIrreflexive(s[l]);
        }
      }
    }
  }

  lemma UpToLastInRange(k: string, last: string, start: string, end: string)
    requires InRange(last, start, end)
    ensures Leq(start, k) && Leq(k, last) ==> InRange(k, start, end)
  {
    if Less(k, last) && end != "" {
      LessTransitive(k, last, end);
    }
  }

  /** A key a scan sees is in the state exactly if it is among the rows. */
  lemma SeenIsListed(db: DB, q: Query, k: Key)
    requires q.Scan? && q.limit > 0 && k.ns == q.ns
    ensures k.key in FirstKeys(db, q) <==> k in db && Sees(db, q, k)
  {
    ScanFinds(db, q.ns, q.start, q.end);
    var all := ScanKeys(db, q.ns, q.start, q.end);
    assert k == Key(q.ns, k.key);
    if |all| >= q.limit {
      var last := all[q.limit - 1];
      PrefixMembers(all, q.limit, k.key);
      assert last in all && FirstKeys(db, q)[q.limit - 1] == last;
      UpToLastInRange(k.key, last, q.start, q.end);
    }
  }

  /** Scans with the same rows see the same keys. */
  lemma SameSeen(a: DB, b: DB, q: Query, k: Key)
    requires q.Scan? && FirstKeys(a, q) == FirstKeys(b, q)
    ensures Sees(a, q, k) <==> Sees(b, q, k)
  {
    assert |ScanKeys(a, q.ns, q.start, q.end)| < q.limit <==> |FirstKeys(a, q)| < q.limit;
    assert |ScanKeys(b, q.ns, q.start, q.end)| < q.limit <==> |FirstKeys(b, q)| < q.limit;
  }

  lemma PageKeys(a: DB, b: DB, q: Query)
    requires q.Scan? && Observe(a, q) == Observe(b, q)
    ensures FirstKeys(a, q) == FirstKeys(b, q)
    ensures forall i :: 0 <= i < |FirstKeys(a, q)| ==> SameValue(a, b, Key(q.ns, FirstKeys(a, q)[i]))
  {
    FirstKeysPresent(a, q);
    FirstKeysPresent(b, q);
    var keys, keys' := FirstKeys(a, q), FirstKeys(b, q);
    var rows := Observe(a, q).rows;
    assert |rows| == |keys| == |keys'|;
    forall i | 0 <= i < |keys|
      ensures keys[i] == keys'[i] && SameValue(a, b, Key(q.ns, keys[i]))
    {
      assert rows[i] == Observe(b, q).rows[i];
    }
  }

  /** The same observation, so the same presence and value of every key seen. */
  lemma SeenSame(a: DB, b: DB, q: Query, k: Key)
    requires Observe(a, q) == Observe(b, q) && Sees(a, q, k)
    ensures SameValue(a, b, k)
  {
    if q.Scan? {
      PageKeys(a, b, q);
      SameSeen(a, b, q, k);
      SeenIsListed(a, q, k);
      SeenIsListed(b, q, k);
      if k in a {
        var i :| 0 <= i < |FirstKeys(a, q)| && FirstKeys(a, q)[i] == k.key;
        assert SameValue(a, b, Key(q.ns, FirstKeys(a, q)[i]));
      }
    }
  }

  ghost predicate SameAsSeen(a: DB, b: DB, q: Query) { forall k :: Sees(a, q, k) ==> SameValue(a, b, k) }

  lemma SameKeysExhausted(a: DB, b: DB, q: Query)
    requires q.Scan? && SameAsSeen(a, b, q) && |ScanKeys(a, q.ns, q.start, q.end)| < q.limit
    ensures FirstKeys(b, q) == FirstKeys(a, q)
  {
    ScanFinds(a, q.ns, q.start, q.end);
    ScanFinds(b, q.ns, q.start, q.end);
    forall k
      ensures k in ScanKeys(a, q.ns, q.start, q.end) <==> k in ScanKeys(b, q.ns, q.start, q.end)
    {
      assert Sees(a, q, Key(q.ns, k)) ==> SameValue(a, b, Key(q.ns, k));
    }
    SortedUnique(ScanKeys(a, q.ns, q.start, q.end), ScanKeys(b, q.ns, q.start, q.end));
  }

  lemma SameBelowLast(a: DB, b: DB, q: Query, k: string)
    requires q.Scan? && SameAsSeen(a, b, q) && 1 <= q.limit <= |ScanKeys(a, q.ns, q.start, q.end)|
    ensures Leq(k, ScanKeys(a, q.ns, q.start, q.end)[q.limit - 1]) ==>
      (k in ScanKeys(a, q.ns, q.start, q.end) <==> k in ScanKeys(b, q.ns, q.start, q.end))
  {
    ScanFinds(a, q.ns, q.start, q.end);
    ScanFinds(b, q.ns, q.start, q.end);
    var all := ScanKeys(a, q.ns, q.start, q.end);
    var last, key := all[q.limit - 1], Key(q.ns, k);
    assert last in all;
    UpToLastInRange(k, last, q.start, q.end);
    assert Leq(k, last) && Leq(q.start, k) ==> Sees(a, q, key);
    assert Sees(a, q, key) ==> SameValue(a, b, key);
  }

  lemma SameKeysPartial(a: DB, b: DB, q: Query)
    requires q.Scan? && SameAsSeen(a, b, q) && 1 <= q.limit <= |ScanKeys(a, q.ns, q.start, q.end)|
    ensures FirstKeys(b, q) == FirstKeys(a, q)
  {
    ScanFinds(a, q.ns, q.start, q.end);
    ScanFinds(b, q.ns, q.start, q.end);
    var all, all' := ScanKeys(a, q.ns, q.start, q.end), ScanKeys(b, q.ns, q.start, q.end);
    var last := all[q.limit - 1];
    forall k
      ensures SameUpTo(all, all', last, k)
    {
      SameBelowLast(a, b, q, k);
    }
    SamePrefix(all, all', q.limit, last);
  }

  predicate SameUpTo(s: seq<string>, s': seq<string>, last: string, k: string) {
    Leq(k, last) ==> (k in s <==> k in s')
  }

  /** Sorted sequences with the same members up to the n-th of one start with the same n. */
  lemma SamePrefix(s: seq<string>, s': seq<string>, n: nat, last: string)
    requires Sorted(s) && Sorted(s') && 0 < n <= |s| && last == s[n - 1] && forall k :: SameUpTo(s, s', last, k)
    ensures n <= |s'| && s'[..n] == s[..n]
  {
    var low := s[..n - 1];
    assert SameUpTo(s, s', last, last);
    forall k
      ensures k in low <==> k in s' && Less(k, last)
    {
      LowMembers(s, n, k);
      assert SameUpTo(s, s', last, k);
    }
    SortedPrefix(s, n - 1);
    BelowComesFirst(s', low, last);
    assert low + [last] == s[..n];
    assert s'[..n] == low + [last];
  }

  lemma LowMembers(s: seq<string>, n: nat, k: string)
    requires Sorted(s) && 0 < n <= |s|
    ensures k in s[..n - 1] <==> k in s && Less(k, s[n - 1])
  {
    PrefixMembers(s, n, k);
    LessIrreflexive(s[n - 1]);
    assert s[..n] == s[..n - 1] + [s[n - 1]];
    if k in s[..n - 1] {
      var i :| 0 <= i < n - 1 && s[i] == k;
      assert Less(s[i], s[n - 1]);
    }
  }

  lemma SortedPrefix(s: seq<string>, n: nat)
    requires Sorted(s) && n <= |s|
    ensures Sorted(s[..n])
  {
  }

  lemma SameRowsObserved(a: DB, b: DB, q: Query)
    requires q.Scan? && FirstKeys(b, q) == FirstKeys(a, q)
    requires forall i :: 0 <= i < |FirstKeys(a, q)| ==> SameValue(a, b, Key(q.ns, FirstKeys(a, q)[i]))
    ensures Observe(b, q) == Observe(a, q)
  {
    FirstKeysPresent(a, q);
    FirstKeysPresent(b, q);
    var keys := FirstKeys(a, q);
    assert |Observe(a, q).rows| == |Observe(b, q).rows| == |keys|;
    forall i | 0 <= i < |keys|
      ensures Observe(a, q).rows[i] == Observe(b, q).rows[i]
    {
      assert SameValue(a, b, Key(q.ns, keys[i]));
    }
  }

  lemma SameSeenSame(a: DB, b: DB, q: Query)
    requires SameAsSeen(a, b, q)
    ensures Observe(b, q) == Observe(a, q)
  {
    match q
    case Get(k) => assert Sees(a, q, k);
    case Scan(_, _, _, _) =>
      if |ScanKeys(a, q.ns, q.start, q.end)| < q.limit {
        SameKeysExhausted(a, b, q);
      } else if q.limit > 0 {
        SameKeysPartial(a, b, q);
      }
      var keys := FirstKeys(a, q);
      forall i | 0 <= i < |keys|
        ensures SameValue(a, b, Key(q.ns, keys[i]))
      {
        assert keys[i] in keys;
        SeenIsListed(a, q, Key(q.ns, keys[i]));
      }
      SameRowsObserved(a, b, q);
  }

  /** Two states answer a query alike exactly if every key it sees has the same presence and value. */
  lemma ObserveIff(a: DB, b: DB, q: Query)
    ensures Observe(b, q) == Observe(a, q) <==> SameAsSeen(a, b, q)
  {
    if Observe(b, q) == Observe(a, q) {
      forall k | Sees(a, q, k)
        ensures SameValue(a, b, k)
      {
        SeenSame(a, b, q, k);
      }
    }
    if SameAsSeen(a, b, q) {
      SameSeenSame(a, b, q);
    }
  }

  // ---------------------------------------------------------------- a whole run

  /** The chaincode sees k in its first n queries. */
  ghost predicate Seen(next: Program, db: DB, n: nat, k: Key) {
    exists m :: 0 <= m < n && SeesAt(next, db, m, k)
  }

  ghost predicate SeesAt(next: Program, db: DB, m: nat, k: Key) {
    var q := next(Trace(next, db, m));
    q.Some? && Sees(db, q.value, k)
  }

  lemma {:induction false} TraceLength(next: Program, db: DB, n: nat)
    ensures |Trace(next, db, n)| <= n
    ensures next(Trace(next, db, n)).Some? ==> |Trace(next, db, n)| == n
  {
    if n > 0 {
      TraceLength(next, db, n - 1);
    }
  }

  /** Runs that agree after n queries agree after n - 1, and in the answer to the next. */
  lemma SameStep(next: Program, a: DB, b: DB, n: nat)
    requires n > 0 && Trace(next, a, n) == Trace(next, b, n)
    ensures Trace(next, a, n - 1) == Trace(next, b, n - 1)
    ensures var q := next(Trace(next, a, n - 1)); q.Some? ==> Observe(b, q.value) == Observe(a, q.value)
  {
    TraceLength(next, a, n - 1);
    TraceLength(next, b, n - 1);
    var t, t' := Trace(next, a, n - 1), Trace(next, b, n - 1);
    var s := Trace(next, a, n);
    if next(t).Some? {
      assert s[..|s| - 1] == t;
    }
    if next(t').Some? {
      assert s[..|s| - 1] == t';
    }
  }

  /** Two states give a chaincode the same observations exactly if every key it sees on one of them
      has the same presence and value on the other. */
  lemma {:induction false} TraceIff(next: Program, a: DB, b: DB, n: nat)
    ensures Trace(next, b, n) == Trace(next, a, n) <==> forall k :: Seen(next, a, n, k) ==> SameValue(a, b, k)
  {
    if n > 0 {
      TraceIff(next, a, b, n - 1);
      SeenStep(next, a, n);
      var q := next(Trace(next, a, n - 1));
      if q.Some? {
        ObserveIff(a, b, q.value);
      }
      if Trace(next, b, n) == Trace(next, a, n) {
        SameStep(next, a, b, n);
      }
    }
  }

  lemma SeenStep(next: Program, db: DB, n: nat)
    requires n > 0
    ensures forall k :: Seen(next, db, n, k) <==> Seen(next, db, n - 1, k) || SeesAt(next, db, n - 1, k)
  {
  }

  // ---------------------------------------------------------------- versions

  /** A scan whose record holds now has the same rows now, with the same versions. */
  lemma SameFirstKeys(db: DB, now: DB, q: Query)
    requires q.Scan? && q.limit > 0 && Holds(now, RecordOf(db, q))
    ensures FirstKeys(now, q) == FirstKeys(db, q) && SameVersions(db, now, q.ns, FirstKeys(db, q))
  {
    if |ScanKeys(db, q.ns, q.start, q.end)| < q.limit {
      ExhaustedScan(db, now, q);
    } else {
      PartialScan(db, now, q);
    }
  }

  /** When what was recorded for a query holds now, every key the query saw has the version it had. */
  lemma SeenVersion(db: DB, now: DB, q: Query, k: Key)
    requires Holds(now, RecordOf(db, q)) && Sees(db, q, k)
    ensures VersionIn(now, k) == VersionIn(db, k)
  {
    if q.Scan? {
      SameFirstKeys(db, now, q);
      SameSeen(db, now, q, k);
      SeenIsListed(db, q, k);
      SeenIsListed(now, q, k);
      if k in db {
        var i :| 0 <= i < |FirstKeys(db, q)| && FirstKeys(db, q)[i] == k.key;
        assert Key(q.ns, FirstKeys(db, q)[i]) == k;
      }
    }
  }

  /** What a query sees is what its record speaks about. */
  lemma SeenIsCovered(db: DB, now: DB, q: Query, k: Key)
    requires Holds(now, RecordOf(db, q)) && Sees(db, q, k)
    ensures Covers(RecordOf(db, q), k)
  {
    if q.Scan? && |ScanKeys(db, q.ns, q.start, q.end)| >= q.limit {
      LastKeyNotEmpty(db, now, q);
    }
  }

  /** When what was recorded for a query holds now and versions tell values, the query gives the same
      answer. */
  lemma SameObservation(db: DB, now: DB, q: Query)
    requires AgreesOn(db, now, RecordOf(db, q)) && Holds(now, RecordOf(db, q))
    ensures Observe(now, q) == Observe(db, q)
  {
    forall k | Sees(db, q, k)
      ensures SameValue(db, now, k)
    {
      SeenVersion(db, now, q, k);
      SeenIsCovered(db, now, q, k);
      assert AgreesAt(db, now, k);
    }
    ObserveIff(db, now, q);
  }
}
