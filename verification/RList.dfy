/** The stub's named lists, as duplicate-free sequences, and the pages queries cut from them. */
module RList {

  ghost predicate Unique(s: seq<string>) {
    forall i, j :: 0 <= i < j < |s| ==> s[i] != s[j]
  }

  function Remove(s: seq<string>, x: string): (r: seq<string>)
    ensures forall y :: y in r <==> y in s && y != x
  {
    if s == [] then []
    else if s[0] == x then Remove(s[1..], x)
    else
      var r := [s[0]] + Remove(s[1..], x);
      assert forall y :: y in s <==> y == s[0] || y in s[1..];
      r
  }

  /** Adding an element that is there already moves it to the end. */
  function Add(s: seq<string>, x: string): (r: seq<string>)
    ensures forall y :: y in r <==> y in s || y == x
  {
    Remove(s, x) + [x]
  }

  lemma {:induction false} RemoveUnique(s: seq<string>, x: string)
    requires Unique(s)
    ensures Unique(Remove(s, x))
  {
    if s != [] {
      RemoveUnique(s[1..], x);
      assert s[0] !in s[1..];
      assert s[0] !in Remove(s[1..], x);
    }
  }

  lemma AddUnique(s: seq<string>, x: string)
    requires Unique(s)
    ensures Unique(Add(s, x))
  {
    RemoveUnique(s, x);
    assert x !in Remove(s, x);
  }

  lemma {:induction false} RemoveAbsent(s: seq<string>, x: string)
    requires x !in s
    ensures Remove(s, x) == s
  {
    if s != [] {
      RemoveAbsent(s[1..], x);
      assert s == [s[0]] + s[1..];
    }
  }

  lemma AddAbsent(s: seq<string>, x: string)
    ensures x !in s ==> Add(s, x) == s + [x]
  {
    if x !in s {
      RemoveAbsent(s, x);
    }
  }

  /** Removing an element, and adding it again, leaves the others in their order. */
  lemma {:induction false} RemoveKeepsOrder(a: seq<string>, x: string, b: seq<string>)
    requires x !in a && x !in b
    ensures Remove(a + [x] + b, x) == a + b && Add(a + [x] + b, x) == a + b + [x]
  {
    var s := a + [x] + b;
    if a == [] {
      assert s[1..] == b && a + b == b;
      RemoveAbsent(b, x);
    } else {
      RemoveKeepsOrder(a[1..], x, b);
      assert s[1..] == a[1..] + [x] + b;
      assert a + b == [a[0]] + (a[1..] + b);
    }
  }

  // ---------------------------------------------------------------- pages

  /** The page number a query uses for the one it was asked for. */
  function Clamp(size: nat, pageSize: nat, asked: int): (page: nat)
    requires pageSize > 0
  {
    if asked < 0 then 0 else if asked > size / pageSize then size / pageSize else asked
  }

  function PageEnd(size: nat, pageSize: nat, page: nat): nat {
    if (page + 1) * pageSize > size then size else (page + 1) * pageSize
  }

  lemma PageBounds(size: nat, pageSize: nat, page: nat)
    requires pageSize > 0 && page <= size / pageSize
    ensures page * pageSize <= PageEnd(size, pageSize, page) <= size
  {
    assert page * pageSize <= size / pageSize * pageSize <= size;
    assert (page + 1) * pageSize == page * pageSize + pageSize;
  }

  function Page<T>(s: seq<T>, pageSize: nat, page: nat): seq<T>
    requires pageSize > 0 && page <= |s| / pageSize
  {
    PageBounds(|s|, pageSize, page);
    s[page * pageSize..PageEnd(|s|, pageSize, page)]
  }

  /** The first pages, put together. */
  function Pages<T>(s: seq<T>, pageSize: nat, n: nat): seq<T>
    requires pageSize > 0 && n <= |s| / pageSize + 1
  {
    if n == 0 then [] else Pages(s, pageSize, n - 1) + Page(s, pageSize, n - 1)
  }

  lemma {:induction false} PagesArePrefix<T>(s: seq<T>, pageSize: nat, n: nat)
    requires pageSize > 0 && n <= |s| / pageSize
    ensures n * pageSize <= |s| && Pages(s, pageSize, n) == s[..n * pageSize]
  {
    PageBounds(|s|, pageSize, n);
    if n > 0 {
      PagesArePrefix(s, pageSize, n - 1);
      assert (n - 1 + 1) * pageSize == n * pageSize == (n - 1) * pageSize + pageSize;
      assert s[..n * pageSize] == s[..(n - 1) * pageSize] + s[(n - 1) * pageSize..n * pageSize];
    }
  }

  /** The pages from 0 to the last one a query serves are the whole list, each element once. */
  lemma PagesCover<T>(s: seq<T>, pageSize: nat)
    requires pageSize > 0
    ensures Pages(s, pageSize, |s| / pageSize + 1) == s
  {
    var n := |s| / pageSize;
    PagesArePrefix(s, pageSize, n);
    assert |s| < (n + 1) * pageSize by {
      assert |s| == n * pageSize + |s| % pageSize;
      assert (n + 1) * pageSize == n * pageSize + pageSize;
    }
    assert s == s[..n * pageSize] + s[n * pageSize..];
  }

  function Reverse<T>(s: seq<T>): (r: seq<T>)
    ensures |r| == |s| && forall i :: 0 <= i < |s| ==> r[i] == s[|s| - 1 - i]
  {
    seq(|s|, i requires 0 <= i < |s| => s[|s| - 1 - i])
  }

  // ---------------------------------------------------------------- records

  /** The records a query collects for listed ids: ids that are empty or have none are skipped. */
  function Rows<T>(records: map<string, T>, ids: seq<string>): seq<T> {
    if ids == [] then []
    else
      var id := ids[|ids| - 1];
      Rows(records, ids[..|ids| - 1]) + if id != "" && id in records then [records[id]] else []
  }

  lemma {:induction false} RowsConcat<T>(records: map<string, T>, a: seq<string>, b: seq<string>)
    ensures Rows(records, a + b) == Rows(records, a) + Rows(records, b)
  {
    if b == [] {
      assert a + b == a;
    } else {
      RowsConcat(records, a, b[..|b| - 1]);
      assert (a + b)[..|a + b| - 1] == a + b[..|b| - 1];
    }
  }

  /** One more listed id. */
  lemma RowsNext<T>(records: map<string, T>, ids: seq<string>, first: nat, i: nat)
    requires first <= i < |ids|
    ensures Rows(records, ids[first..i + 1]) ==
      Rows(records, ids[first..i]) + if ids[i] != "" && ids[i] in records then [records[ids[i]]] else []
  {
    var s := ids[first..i + 1];
    assert s[|s| - 1] == ids[i];
    assert s[..|s| - 1] == ids[first..i];
  }

  /** What a query returns that is asked for a page. */
  function Query<T>(records: map<string, T>, ids: seq<string>, pageSize: nat, asked: int): seq<T>
    requires pageSize > 0
  {
    Rows(records, Page(ids, pageSize, Clamp(|ids|, pageSize, asked)))
  }

  /** What the queries for the first pages return, put together. */
  function PageRows<T>(records: map<string, T>, ids: seq<string>, pageSize: nat, n: nat): seq<T>
    requires pageSize > 0 && n <= |ids| / pageSize + 1
  {
    if n == 0 then []
    else PageRows(records, ids, pageSize, n - 1) + Query(records, ids, pageSize, n - 1)
  }

  /** A query for a page below the first is one for the first. */
  lemma BelowFirst<T>(records: map<string, T>, ids: seq<string>, pageSize: nat, asked: int)
    requires pageSize > 0 && asked < 0
    ensures Query(records, ids, pageSize, asked) == Rows(records, ids[..if pageSize > |ids| then |ids| else pageSize])
  {
    PageBounds(|ids|, pageSize, 0);
  }

  /** One for the last page or beyond shows what the full pages leave of the list. */
  lemma LastPage<T>(records: map<string, T>, ids: seq<string>, pageSize: nat, asked: int, full: nat)
    requires pageSize > 0 && asked >= full == |ids| / pageSize
    ensures full * pageSize <= |ids| && Query(records, ids, pageSize, asked) == Rows(records, ids[full * pageSize..])
  {
    RestOfList(|ids|, pageSize, full);
    assert Page(ids, pageSize, full) == ids[full * pageSize..];
  }

  lemma RestOfList(size: nat, pageSize: nat, full: nat)
    requires pageSize > 0 && full == size / pageSize
    ensures full * pageSize <= size && PageEnd(size, pageSize, full) == size
  {
    assert size == full * pageSize + size % pageSize;
    assert (full + 1) * pageSize == full * pageSize + pageSize;
  }

  /** What the queries for all pages return. */
  function AllRows<T>(records: map<string, T>, ids: seq<string>, pageSize: nat): seq<T>
    requires pageSize > 0
  {
    PageRows(records, ids, pageSize, |ids| / pageSize + 1)
  }

  lemma {:induction false} PageRowsJoin<T>(records: map<string, T>, ids: seq<string>, pageSize: nat, n: nat)
    requires pageSize > 0 && n <= |ids| / pageSize + 1
    ensures PageRows(records, ids, pageSize, n) == Rows(records, Pages(ids, pageSize, n))
  {
    if n > 0 {
      PageRowsJoin(records, ids, pageSize, n - 1);
      RowsConcat(records, Pages(ids, pageSize, n - 1), Page(ids, pageSize, n - 1));
    }
  }

  /** Asking for every page returns every listed record once, in the list's order. */
  lemma QueriesCover<T>(records: map<string, T>, ids: seq<string>, pageSize: nat)
    requires pageSize > 0
    ensures AllRows(records, ids, pageSize) == Rows(records, ids)
  {
    PageRowsJoin(records, ids, pageSize, |ids| / pageSize + 1);
    PagesCover(ids, pageSize);
  }

  /** The rows of ids that all have records, one for each. */
  lemma {:induction false} RowsOfListed<T>(records: map<string, T>, ids: seq<string>)
    requires forall i :: 0 <= i < |ids| ==> ids[i] != "" && ids[i] in records
    ensures |Rows(records, ids)| == |ids|
    ensures forall i :: 0 <= i < |ids| ==> Rows(records, ids)[i] == records[ids[i]]
  {
    if ids != [] {
      RowsOfListed(records, ids[..|ids| - 1]);
    }
  }

  lemma QueriesServeAll<T>(records: map<string, T>, ids: seq<string>, pageSize: nat)
    requires pageSize > 0 && forall i :: 0 <= i < |ids| ==> ids[i] != "" && ids[i] in records
    ensures var rows := AllRows(records, ids, pageSize);
      |rows| == |ids| && forall i :: 0 <= i < |ids| ==> rows[i] == records[ids[i]]
  {
    QueriesCover(records, ids, pageSize);
    RowsOfListed(records, ids);
  }

  /** The empty id is not shown. */
  lemma {:induction false} RowsSkipEmpty<T>(records: map<string, T>, ids: seq<string>)
    ensures Rows(records, Remove(ids, "")) == Rows(records, ids)
  {
    if ids != [] {
      RowsSkipEmpty(records, ids[1..]);
      var first := [ids[0]];
      assert ids == first + ids[1..];
      RowsConcat(records, first, ids[1..]);
      assert first[..0] == [];
      assert Rows(records, first) == if ids[0] != "" && ids[0] in records then [records[ids[0]]] else [];
      if ids[0] != "" {
        RowsConcat(records, first, Remove(ids[1..], ""));
      }
    }
  }

  /** Asking for every page shows every listed record but that of the empty id, once and in order. */
  lemma QueriesShowNamed<T>(records: map<string, T>, ids: seq<string>, pageSize: nat)
    requires pageSize > 0 && forall id :: id in ids ==> id in records
    ensures var rows := AllRows(records, ids, pageSize);
      var named := Remove(ids, "");
      |rows| == |named| && forall i :: 0 <= i < |named| ==> named[i] in records && rows[i] == records[named[i]]
  {
    QueriesCover(records, ids, pageSize);
    RowsSkipEmpty(records, ids);
    var named := Remove(ids, "");
    assert forall i :: 0 <= i < |named| ==> named[i] in named;
    RowsOfListed(records, named);
  }

  lemma ReverseUnique(s: seq<string>)
    requires Unique(s)
    ensures Unique(Reverse(s)) && forall x :: x in Reverse(s) <==> x in s
  {
    var r := Reverse(s);
    forall x
      ensures x in r <==> x in s
    {
      if x in s {
        var i :| 0 <= i < |s| && s[i] == x;
        assert r[|s| - 1 - i] == x;
      }
    }
  }

  /** What is shown of a list, the newest first. */
  function Shown(listed: seq<string>): seq<string> { Remove(Reverse(listed), "") }

  lemma ShownIsListed(listed: seq<string>)
    requires Unique(listed)
    ensures Unique(Shown(listed)) && forall x :: x in Shown(listed) <==> x in listed && x != ""
  {
    ReverseUnique(listed);
    RemoveUnique(Reverse(listed), "");
  }
}
