/** A chaincode's query iterator: the peer hands out the rows of a ledger iterator in pages of 100,
    the shim iterates over them and fetches the next page when it hands out the last row of one. */
module QueryPaging {

  const MAX_RESULT_LIMIT: nat := 100

  /** What the ledger iterator yields: a row, or a store or encoding error. */
  datatype Row = Row(bytes: string) | Broken

  datatype Response = Response(results: seq<string>, hasMore: bool)

  datatype Reply = Reply(response: Response) | Error

  ghost predicate Clean(rows: seq<Row>, lo: nat, hi: nat)
    requires lo <= hi <= |rows|
  {
    forall i :: lo <= i < hi ==> rows[i].Row?
  }

  function PageEnd(rows: seq<Row>, lo: nat): (hi: nat)
    requires lo <= |rows|
    ensures lo <= hi <= |rows|
  {
    if |rows| - lo < MAX_RESULT_LIMIT then |rows| else lo + MAX_RESULT_LIMIT
  }

  ghost predicate Shows(rows: seq<Row>, lo: nat, results: seq<string>) {
    lo + |results| <= |rows| && forall i :: 0 <= i < |results| ==> rows[lo + i] == Row(results[i])
  }

  lemma ShownIsClean(rows: seq<Row>, lo: nat, results: seq<string>)
    ensures Shows(rows, lo, results) ==> Clean(rows, lo, lo + |results|)
  {
    if Shows(rows, lo, results) {
      forall i | lo <= i < lo + |results|
        ensures rows[i].Row?
      {
        assert rows[lo + (i - lo)] == Row(results[i - lo]);
      }
    }
  }

  /** The peer's side of one query of a transaction. */
  class Query {
    const rows: seq<Row>
    var pos: nat        // the ledger iterator's position
    var closed: bool    // Close has been called on it
    var inTable: bool   // it is in the transaction's queryIteratorMap

    ghost predicate Valid()
      reads this
    {
      pos <= |rows| && inTable == !closed
    }

    constructor (rows: seq<Row>)
      ensures Valid() && this.rows == rows && pos == 0 && inTable
    {
      this.rows := rows;
      pos, closed, inTable := 0, false, true;
    }

    method Close()
      requires Valid()
      modifies this
      ensures Valid() && !inTable && closed && pos == old(pos)
    {
      closed := true;
      inTable := false;
    }

    /** One page: the next 100 rows, or all that are left. The iterator stays open exactly when
        the page is full; an error closes it. */
    method GetQueryResponse() returns (reply: Reply)
      requires Valid() && inTable
      modifies this
      ensures Valid()
      ensures var end := PageEnd(rows, old(pos));
        && (reply.Reply? <==> Clean(rows, old(pos), end))
        && (reply.Reply? ==>
             && pos == end
             && |reply.response.results| == end - old(pos)
             && Shows(rows, old(pos), reply.response.results)
             && reply.response.hasMore == (end - old(pos) == MAX_RESULT_LIMIT)
             && inTable == reply.response.hasMore)
        && (reply.Error? ==> closed && !inTable)
    {
      var results: seq<string> := [];
      var i := 0;
      var found, failed := true, false;
      while i < MAX_RESULT_LIMIT && found && !failed
        invariant 0 <= i <= MAX_RESULT_LIMIT && |results| <= i
        invariant Valid() && inTable
        invariant !failed ==> pos == old(pos) + |results| && Shows(rows, old(pos), results)
        invariant !failed && found ==> |results| == i
        invariant !failed && !found ==> pos == |rows| && |results| < MAX_RESULT_LIMIT
        invariant failed ==>
            old(pos) + |results| < PageEnd(rows, old(pos)) && rows[old(pos) + |results|].Broken?
        decreases MAX_RESULT_LIMIT - i
      {
        if pos == |rows| {
          found := false;
        } else {
          if rows[pos].Row? {
            results := results + [rows[pos].bytes];
          } else {
            failed := true;
          }
          pos := pos + 1;
        }
        i := i + 1;
      }
      ShownIsClean(rows, old(pos), results);
      if !found || failed {
        Close();
        if failed {
          return Error;
        }
      }
      return Reply(Response(results, found));
    }

    /** A QUERY_STATE_NEXT request. */
    method HandleNext() returns (reply: Reply)
      requires Valid()
      modifies this
      ensures Valid()
      ensures reply.Reply? <==> old(inTable) && Clean(rows, old(pos), PageEnd(rows, old(pos)))
      ensures reply.Reply? ==>
        && pos == PageEnd(rows, old(pos))
        && |reply.response.results| == pos - old(pos)
        && Shows(rows, old(pos), reply.response.results)
        && reply.response.hasMore == (pos - old(pos) == MAX_RESULT_LIMIT)
        && inTable == reply.response.hasMore
      ensures reply.Error? ==> closed && !inTable
    {
      if !inTable {
        return Error; // "query iterator not found"
      }
      reply := GetQueryResponse();
    }
  }

  datatype NextResult = Next(bytes: string) | FetchFailed | NoSuchKey | InvalidState

  /** The shim's CommonIterator. */
  class CommonIterator {
    const query: Query
    var response: Response
    var currentLoc: nat

    /** How many rows the pages before the cached one held, and whether fetching a page has failed. */
    ghost var start: nat
    ghost var failed: bool

    ghost predicate Cached()
      reads this, query
    {
      && query.Valid()
      && currentLoc <= |response.results|
      && Shows(query.rows, start, response.results)
      && start % MAX_RESULT_LIMIT == 0
      && start + |response.results| == PageEnd(query.rows, start)
      && response.hasMore == (|response.results| == MAX_RESULT_LIMIT)
      && (query.inTable ==> response.hasMore && query.pos == start + |response.results| && !failed)
    }

    /** When the cached rows are used up there are no more, unless a fetch has failed. */
    ghost predicate Valid()
      reads this, query
    {
      Cached() && (failed <==> response.hasMore && currentLoc == |response.results|)
    }

    /** The number of rows passed so far. */
    ghost function Passed(): nat
      reads this
    {
      start + currentLoc
    }

    /** Passing the row at p makes the shim fetch the page behind it. */
    ghost predicate FetchFails(p: nat)
      reads query
      requires p < |query.rows|
    {
      (p + 1) % MAX_RESULT_LIMIT == 0 &&
      !(query.inTable && Clean(query.rows, p + 1, PageEnd(query.rows, p + 1)))
    }

    constructor (query: Query, response: Response)
      requires query.Valid() && Shows(query.rows, 0, response.results)
      requires query.pos == |response.results| == PageEnd(query.rows, 0)
      requires query.inTable == response.hasMore == (|response.results| == MAX_RESULT_LIMIT)
      ensures this.query == query && Valid() && Passed() == 0 && !failed
    {
      this.query, this.response, currentLoc := query, response, 0;
      start, failed := 0, false;
    }

    /** HasNext tells exactly whether rows remain, unless a fetch has failed. */
    method HasNext() returns (r: bool)
      requires Valid()
      ensures r <==> failed || Passed() < |query.rows|
    {
      return currentLoc < |response.results| || response.hasMore;
    }

    method FetchNextQueryResult() returns (ok: bool)
      requires Cached() && !failed && response.hasMore && currentLoc == |response.results|
      modifies this, query
      ensures Valid() && Passed() == old(Passed())
      ensures failed == !ok
      ensures ok <==> old(query.inTable) && Clean(query.rows, Passed(), PageEnd(query.rows, Passed()))
      ensures ok ==> query.inTable == response.hasMore
    {
      var reply := query.HandleNext();
      ok := reply.Reply?;
      if ok {
        start := start + currentLoc;
        currentLoc, response := 0, reply.response;
      } else {
        failed := true;
      }
    }

    /** Next hands out the rows in their order, one each. "Invalid iterator state" is returned
        exactly after a failed fetch, and the call whose fetch fails loses its row. */
    method NextResult() returns (r: NextResult)
      requires Valid()
      modifies this, query
      ensures Valid()
      ensures old(failed) ==> r == InvalidState && failed && Passed() == old(Passed())
      ensures !old(failed) && old(Passed()) == |query.rows| ==>
        r == NoSuchKey && !failed && Passed() == old(Passed())
      ensures !old(failed) && old(Passed()) < |query.rows| ==>
        && Passed() == old(Passed()) + 1
        && failed == old(FetchFails(Passed()))
        && query.rows[old(Passed())].Row?
        && r == if failed then FetchFailed else Next(query.rows[old(Passed())].bytes)
      ensures !failed && old(query.inTable == response.hasMore) ==> query.inTable == response.hasMore
    {
      if currentLoc < |response.results| {
        var bytes := response.results[currentLoc];
        currentLoc := currentLoc + 1;
        if currentLoc == |response.results| && response.hasMore {
          var ok := FetchNextQueryResult();
          if !ok {
            return FetchFailed;
          }
        }
        return Next(bytes);
      } else if !response.hasMore {
        return NoSuchKey;
      }
      return InvalidState;
    }

    /** The chaincode may close its iterator at any time. */
    method Close()
      requires Valid()
      modifies query
      ensures Valid() && query.closed && Passed() == old(Passed())
    {
      query.Close();
    }
  }

  /** The position of the first error. */
  function FirstBroken(rows: seq<Row>): (e: nat)
    ensures e <= |rows|
    ensures forall i :: 0 <= i < e ==> rows[i].Row?
    ensures e < |rows| ==> rows[e].Broken?
  {
    if rows == [] || rows[0].Broken? then 0 else 1 + FirstBroken(rows[1..])
  }

  /** How many rows reach the chaincode: all of them, or, when a page cannot be read, those before
      it except the last, whose call reports the error. */
  function Delivered(rows: seq<Row>): (n: nat)
    ensures n == |rows| <==> forall i :: 0 <= i < |rows| ==> rows[i].Row?
    ensures n <= |rows|
  {
    var e := FirstBroken(rows);
    if e == |rows| then |rows|
    else if e < MAX_RESULT_LIMIT then 0
    else e / MAX_RESULT_LIMIT * MAX_RESULT_LIMIT - 1
  }

  lemma PageStart(lo: nat, e: nat)
    requires lo % 100 == 0 && lo <= e < lo + 100
    ensures e / 100 * 100 == lo
  {
    var q := lo / 100;
    assert lo == 100 * q;
    assert e / 100 == q;
  }

  lemma NoFurther(rows: seq<Row>, n: nat)
    requires n < |rows| && (n + 1) % MAX_RESULT_LIMIT == 0 && Clean(rows, 0, n + 1)
    requires !Clean(rows, n + 1, PageEnd(rows, n + 1))
    ensures FirstBroken(rows) < |rows| && Delivered(rows) == n
  {
    var e := FirstBroken(rows);
    assert n + 1 <= e < PageEnd(rows, n + 1);
    PageStart(n + 1, e);
  }

  /** A chaincode that drains a query: open it, then Next while HasNext. It gets the rows of the
      ledger iterator in their order, all of them when there is no error, whatever their number. */
  method Drain(rows: seq<Row>) returns (out: seq<string>, ok: bool)
    ensures ok <==> FirstBroken(rows) == |rows|
    ensures Shows(rows, 0, out) && |out| == Delivered(rows)
  {
    var query := new Query(rows);
    var reply := query.GetQueryResponse();
    if reply.Error? {
      return [], false;
    }
    var it := new CommonIterator(query, reply.response);
    out, ok := DrainPages(it);
  }

  method DrainPages(it: CommonIterator) returns (out: seq<string>, ok: bool)
    requires it.Valid() && !it.failed && it.Passed() == 0 && it.query.inTable == it.response.hasMore
    modifies it, it.query
    ensures ok <==> FirstBroken(it.query.rows) == |it.query.rows|
    ensures Shows(it.query.rows, 0, out) && |out| == Delivered(it.query.rows)
  {
    ghost var rows := it.query.rows;
    out := [];
    var more := it.HasNext();
    while more
      invariant it.Valid() && !it.failed && it.query.inTable == it.response.hasMore
      invariant it.Passed() == |out| && Shows(rows, 0, out)
      invariant more <==> |out| < |rows|
      decreases |rows| - |out|
    {
      var r := it.NextResult();
      if !r.Next? {
        ShownIsClean(rows, 0, out);
        NoFurther(rows, |out|);
        return out, false;
      }
      out := out + [r.bytes];
      more := it.HasNext();
    }
    ShownIsClean(rows, 0, out);
    ok := true;
  }
}
