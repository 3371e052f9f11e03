/** The shim's mock stub: a map of values and a linked list of its keys kept in order, and the
    iterator that walks the list for a range query. */
module MockStub {
  import opened Common
  import opened Lex

  function Compare(a: string, b: string): int {
    if a == b then 0 else if Less(a, b) then -1 else 1
  }

  // ---------------------------------------------------------------- the key list

  class Element {
    const value: string
    var next: Element?
    var prev: Element?

    constructor (value: string)
      ensures this.value == value
    {
      this.value := value;
    }
  }

  ghost function Values(nodes: seq<Element>): (s: seq<string>)
    ensures |s| == |nodes| && forall i :: 0 <= i < |s| ==> s[i] == nodes[i].value
  {
    seq(|nodes|, i requires 0 <= i < |nodes| => nodes[i].value)
  }

  /** The elements form a doubly linked list from front to back. */
  ghost predicate Linked(front: Element?, back: Element?, nodes: seq<Element>, repr: set<Element>)
    reads repr
  {
    && (forall i :: 0 <= i < |nodes| ==> nodes[i] in repr)
    && (nodes == [] ==> front == null && back == null)
    && (nodes != [] ==>
         && front == nodes[0] && nodes[0].prev == null
         && back == nodes[|nodes| - 1] && nodes[|nodes| - 1].next == null)
    && (forall i, j :: 0 <= i < j < |nodes| ==> nodes[i] != nodes[j])
    && (forall i, j :: 0 <= i < |nodes| && 0 <= j < |nodes| && j == i + 1 ==>
         nodes[i].next == nodes[j] && nodes[j].prev == nodes[i])
  }

  lemma NextOf(front: Element?, back: Element?, nodes: seq<Element>, repr: set<Element>, i: nat)
    requires Linked(front, back, nodes, repr) && i < |nodes|
    ensures nodes[i].next == if i + 1 < |nodes| then nodes[i + 1] else null
  {
    assert i + 1 < |nodes| ==> nodes[i].next == nodes[i + 1];
  }

  // ---------------------------------------------------------------- order

  lemma InsertSorted(s: seq<string>, i: nat, key: string)
    requires Sorted(s) && i <= |s|
    requires i > 0 ==> Less(s[i - 1], key)
    requires i < |s| ==> Less(key, s[i])
    ensures Sorted(s[..i] + [key] + s[i..])
    ensures forall k :: k in s[..i] + [key] + s[i..] <==> k in s || k == key
  {
    var r := s[..i] + [key] + s[i..];
    forall a, b | 0 <= a < b < |r|
      ensures Less(r[a], r[b])
    {
      if b == i && a < i - 1 {
        LessTransitive(s[a], s[i - 1], key);
      } else if a == i && b > i + 1 {
        LessTransitive(key, s[i], s[b - 1]);
      } else if a < i < b {
        assert r[a] == s[a] && r[b] == s[b - 1];
      }
    }
    assert s == s[..i] + s[i..];
  }

  lemma RemoveSorted(s: seq<string>, i: nat)
    requires Sorted(s) && i < |s|
    ensures Sorted(s[..i] + s[i + 1..])
    ensures forall k :: k in s[..i] + s[i + 1..] <==> k in s && k != s[i]
  {
    assert s == s[..i] + [s[i]] + s[i + 1..];
    forall j | 0 <= j < |s| && s[j] == s[i]
      ensures j == i
    {
      SortedNoDuplicates(s, i, j);
    }
  }

  lemma CompareIs(a: string, b: string)
    ensures Compare(a, b) < 0 <==> Less(a, b)
    ensures Compare(a, b) > 0 <==> Less(b, a)
    ensures Compare(a, b) >= 0 <==> Leq(b, a)
    ensures Compare(a, b) <= 0 <==> Leq(a, b)
  {
    LessTotal(a, b);
    if Less(a, b) {
      LessAsymmetric(a, b);
    } else if Less(b, a) {
      LessAsymmetric(b, a);
    }
  }

  // ---------------------------------------------------------------- the stub

  /** The keys are in order and those of the map. */
  ghost predicate Mirrors(nodes: seq<Element>, state: map<string, string>) {
    Sorted(Values(nodes)) && forall k :: k in Values(nodes) <==> k in state
  }

  lemma Spliced(was: seq<Element>, e: Element, i: nat)
    requires i <= |was|
    ensures var now := was[..i] + [e] + was[i..];
      |now| == |was| + 1 && forall k :: 0 <= k < |now| ==> now[k] == if k < i then was[k] else if k == i then e else was[k - 1]
  {
  }

  class Stub {
    var state: map<string, string>
    var front: Element?
    var back: Element?
    ghost var nodes: seq<Element>
    ghost var repr: set<Element>
    var txId: string

    ghost predicate Valid()
      reads this, repr
    {
      Linked(front, back, nodes, repr) && Mirrors(nodes, state)
    }

    constructor ()
      ensures Valid() && state == map[] && txId == ""
    {
      state, front, back, nodes, repr, txId := map[], null, null, [], {}, "";
    }

    method InsertBefore(key: string, mark: Element, ghost i: nat)
      requires Linked(front, back, nodes, repr) && i < |nodes| && nodes[i] == mark
      modifies this`front, this`nodes, this`repr, repr
      ensures |nodes| == old(|nodes|) + 1 && Linked(front, back, nodes, repr)
      ensures nodes == old(nodes)[..i] + [nodes[i]] + old(nodes)[i..] && fresh(repr - old(repr)) && nodes[i].value == key
    {
      ghost var was := nodes;
      assert i > 0 ==> mark.prev == nodes[i - 1];
      var e := new Element(key);
      e.next, e.prev := mark, mark.prev;
      if mark.prev == null {
        front := e;
      } else {
        mark.prev.next := e;
      }
      mark.prev := e;
      nodes, repr := nodes[..i] + [e] + nodes[i..], repr + {e};
      Spliced(was, e, i);
      assert e !in was;
      forall a, b | 0 <= a < |nodes| && 0 <= b < |nodes| && b == a + 1
        ensures nodes[a].next == nodes[b] && nodes[b].prev == nodes[a]
      {
        if b < i {
          assert old(was[a].next == was[b] && was[b].prev == was[a]);
        } else if a > i {
          assert old(was[a - 1].next == was[b - 1] && was[b - 1].prev == was[a - 1]);
        }
      }
    }

    method PushBack(key: string)
      requires Linked(front, back, nodes, repr)
      modifies this`front, this`back, this`nodes, this`repr, repr
      ensures |nodes| == old(|nodes|) + 1 && Linked(front, back, nodes, repr)
      ensures nodes == old(nodes) + [nodes[|nodes| - 1]] && fresh(repr - old(repr)) && nodes[|nodes| - 1].value == key
    {
      var e := new Element(key);
      e.next, e.prev := null, back;
      if back == null {
        front := e;
      } else {
        back.next := e;
      }
      back := e;
      nodes, repr := nodes + [e], repr + {e};
    }

    method Remove(e: Element, ghost i: nat)
      requires Linked(front, back, nodes, repr) && i < |nodes| && nodes[i] == e
      modifies this`front, this`back, this`nodes, this`repr, repr
      ensures Linked(front, back, nodes, repr) && nodes == old(nodes)[..i] + old(nodes)[i + 1..] && repr == old(repr)
    {
      ghost var was := nodes;
      assert i > 0 ==> e.prev == nodes[i - 1];
      assert i + 1 < |nodes| ==> e.next == nodes[i + 1];
      if e.prev == null {
        front := e.next;
      } else {
        e.prev.next := e.next;
      }
      if e.next == null {
        back := e.prev;
      } else {
        e.next.prev := e.prev;
      }
      nodes := nodes[..i] + nodes[i + 1..];
      assert forall k :: 0 <= k < |nodes| ==> nodes[k] == if k < i then was[k] else was[k + 1];
    }

    method PlaceBefore(key: string, elem: Element, ghost i: nat)
      requires Linked(front, back, nodes, repr) && Sorted(Values(nodes)) && i < |nodes| && nodes[i] == elem
      requires Less(key, elem.value) && (i > 0 ==> Less(nodes[i - 1].value, key))
      modifies this`front, this`nodes, this`repr, repr
      ensures Linked(front, back, nodes, repr) && Sorted(Values(nodes)) && fresh(repr - old(repr))
      ensures forall k :: k in Values(nodes) <==> k in Values(old(nodes)) || k == key
    {
      ghost var was := Values(nodes);
      InsertSorted(was, i, key);
      InsertBefore(key, elem, i);
      assert Values(nodes) == was[..i] + [key] + was[i..];
    }

    method PlaceLast(key: string)
      requires Linked(front, back, nodes, repr) && Sorted(Values(nodes))
      requires nodes != [] ==> Less(nodes[|nodes| - 1].value, key)
      modifies this`front, this`back, this`nodes, this`repr, repr
      ensures Linked(front, back, nodes, repr) && Sorted(Values(nodes)) && fresh(repr - old(repr))
      ensures forall k :: k in Values(nodes) <==> k in Values(old(nodes)) || k == key
    {
      ghost var was := Values(nodes);
      InsertSorted(was, |was|, key);
      PushBack(key);
      assert Values(nodes) == was[..|was|] + [key] + was[|was|..];
    }

    /** PutState's walk along the list: the key takes its place in the order. */
    method InsertKey(key: string)
      requires Linked(front, back, nodes, repr) && Sorted(Values(nodes))
      modifies this`front, this`back, this`nodes, this`repr, repr
      ensures Linked(front, back, nodes, repr) && Sorted(Values(nodes))
      ensures forall k :: k in Values(nodes) <==> k in Values(old(nodes)) || k == key
      ensures fresh(repr - old(repr))
    {
      var elem := front;
      ghost var i := 0;
      while elem != null
        invariant 0 <= i <= |nodes| && nodes == old(nodes) && repr == old(repr) && Linked(front, back, nodes, repr)
        invariant if i < |nodes| then elem == nodes[i] else elem == null && i == 0
        invariant i > 0 ==> Less(nodes[i - 1].value, key)
        decreases |nodes| - i
      {
        NextOf(front, back, nodes, repr, i);
        var comp := Compare(key, elem.value);
        CompareIs(key, elem.value);
        if comp < 0 {
          PlaceBefore(key, elem, i);
          return;
        } else if comp == 0 {
          assert key == Values(nodes)[i];
          return;
        } else if elem.next == null {
          PlaceLast(key);
          return;
        }
        elem := elem.next;
        i := i + 1;
      }
      PlaceLast(key);
    }

    method TakeOut(elem: Element, ghost i: nat)
      requires Linked(front, back, nodes, repr) && Sorted(Values(nodes)) && i < |nodes| && nodes[i] == elem
      modifies this`front, this`back, this`nodes, this`repr, repr
      ensures Linked(front, back, nodes, repr) && Sorted(Values(nodes)) && repr == old(repr)
      ensures forall k :: k in Values(nodes) <==> k in Values(old(nodes)) && k != elem.value
    {
      ghost var was := Values(nodes);
      RemoveSorted(was, i);
      Remove(elem, i);
      assert Values(nodes) == was[..i] + was[i + 1..];
    }

    /** DelState's walk along the list. */
    method DeleteKey(key: string)
      requires Linked(front, back, nodes, repr) && Sorted(Values(nodes))
      modifies this`front, this`back, this`nodes, this`repr, repr
      ensures Linked(front, back, nodes, repr) && Sorted(Values(nodes))
      ensures forall k :: k in Values(nodes) <==> k in Values(old(nodes)) && k != key
      ensures repr == old(repr)
    {
      var elem := front;
      ghost var i := 0;
      while elem != null
        invariant 0 <= i <= |nodes| && nodes == old(nodes) && repr == old(repr) && Linked(front, back, nodes, repr)
        invariant elem == if i < |nodes| then nodes[i] else null
        invariant forall j :: 0 <= j < i ==> nodes[j].value != key
        decreases |nodes| - i
      {
        if Compare(key, elem.value) == 0 {
          TakeOut(elem, i);
          return; // the removed element has no next
        }
        NextOf(front, back, nodes, repr, i);
        elem := elem.next;
        i := i + 1;
      }
    }

    method MockTransactionStart(id: string)
      requires Valid()
      modifies this`txId
      ensures Valid() && txId == id
    {
      txId := id;
    }

    method MockTransactionEnd()
      requires Valid()
      modifies this`txId
      ensures Valid() && txId == ""
    {
      txId := "";
    }

    /** Puts are refused outside a transaction. */
    method PutState(key: string, value: string) returns (ok: bool)
      requires Valid()
      modifies this`state, this`front, this`back, this`nodes, this`repr, repr
      ensures Valid() && fresh(repr - old(repr))
      ensures ok <==> txId != ""
      ensures state == if ok then old(state)[key := value] else old(state)
    {
      if txId == "" {
        return false;
      }
      state := state[key := value];
      InsertKey(key);
      return true;
    }

    method DelState(key: string)
      requires Valid()
      modifies this`state, this`front, this`back, this`nodes, this`repr, repr
      ensures Valid() && repr == old(repr)
      ensures state == old(state) - {key}
    {
      state := state - {key};
      DeleteKey(key);
    }
  }

  // ---------------------------------------------------------------- runs

  datatype Call = Start(id: string) | End | Put(key: string, value: string) | Del(key: string)

  /** The map and the transaction id after some calls. */
  function After(state: map<string, string>, txId: string, calls: seq<Call>): (map<string, string>, string) {
    if calls == [] then (state, txId)
    else
      var (s, id) := After(state, txId, calls[..|calls| - 1]);
      match calls[|calls| - 1]
      case Start(i) => (s, i)
      case End => (s, "")
      case Put(key, value) => (if id == "" then s else s[key := value], id)
      case Del(key) => (s - {key}, id)
  }

  /** A transaction is under way after these calls: the last call that starts or ends one starts it with
      an id, or there is none and it was under way before. */
  ghost predicate Open(calls: seq<Call>, txId: string) {
    || (txId != "" && forall i :: 0 <= i < |calls| ==> !calls[i].Start? && !calls[i].End?)
    || exists b :: 0 <= b < |calls| && calls[b].Start? && calls[b].id != "" && NoBoundaryAfter(calls, b)
  }

  ghost predicate NoBoundaryAfter(calls: seq<Call>, b: nat) {
    forall i :: b < i < |calls| ==> !calls[i].Start? && !calls[i].End?
  }

  lemma {:induction false} OpenIff(state: map<string, string>, txId: string, calls: seq<Call>)
    ensures After(state, txId, calls).1 != "" <==> Open(calls, txId)
  {
    if calls != [] {
      var front, last := calls[..|calls| - 1], calls[|calls| - 1];
      OpenIff(state, txId, front);
      if last.Start? && last.id != "" {
        assert NoBoundaryAfter(calls, |calls| - 1);
      } else if Open(front, txId) && !last.Start? && !last.End? {
        if b :| 0 <= b < |front| && front[b].Start? && front[b].id != "" && NoBoundaryAfter(front, b) {
          assert NoBoundaryAfter(calls, b);
        }
      } else if Open(calls, txId) && !last.Start? && !last.End? {
        if b :| 0 <= b < |calls| && calls[b].Start? && calls[b].id != "" && NoBoundaryAfter(calls, b) {
          assert front[b].Start? && NoBoundaryAfter(front, b);
        }
      }
    }
  }

  /** Call m decides about the key: it deletes it, or puts it in a transaction. */
  ghost predicate Decides(calls: seq<Call>, txId: string, m: nat, key: string) {
    m < |calls| && (calls[m] == Del(key) || (calls[m].Put? && calls[m].key == key && Open(calls[..m], txId)))
  }

  lemma DecidesFront(calls: seq<Call>, txId: string, m: nat, key: string)
    requires m + 1 < |calls|
    ensures Decides(calls, txId, m, key) <==> Decides(calls[..|calls| - 1], txId, m, key)
  {
    assert calls[..m] == calls[..|calls| - 1][..m];
  }

  /** What the map holds after any calls: what the last call that decides about a key says. */
  lemma {:induction false} LastCallHolds(state: map<string, string>, txId: string, calls: seq<Call>, m: nat, key: string)
    requires Decides(calls, txId, m, key) && forall l: nat :: m < l ==> !Decides(calls, txId, l, key)
    ensures var after := After(state, txId, calls).0;
      if calls[m].Put? then key in after && after[key] == calls[m].value else key !in after
  {
    var n := |calls| - 1;
    OpenIff(state, txId, calls[..n]);
    if m < n {
      DecidesFront(calls, txId, m, key);
      forall l: nat | m < l
        ensures !Decides(calls[..n], txId, l, key)
      {
        if l < n {
          DecidesFront(calls, txId, l, key);
        }
      }
      LastCallHolds(state, txId, calls[..n], m, key);
      assert !Decides(calls, txId, n, key);
    }
  }

  /** And what it held before if there is none. */
  lemma {:induction false} OthersHold(state: map<string, string>, txId: string, calls: seq<Call>, key: string)
    requires forall l: nat :: !Decides(calls, txId, l, key)
    ensures var after := After(state, txId, calls).0;
      (key in after <==> key in state) && (key in state ==> after[key] == state[key])
  {
    if calls != [] {
      var n := |calls| - 1;
      OpenIff(state, txId, calls[..n]);
      forall l: nat
        ensures !Decides(calls[..n], txId, l, key)
      {
        if l < n {
          DecidesFront(calls, txId, l, key);
        }
      }
      OthersHold(state, txId, calls[..n], key);
      assert !Decides(calls, txId, n, key);
    }
  }

  /** After any calls the linked list has exactly the keys of the map, in order. */
  method RunCalls(stub: Stub, calls: seq<Call>)
    requires stub.Valid()
    modifies stub, stub.repr
    ensures stub.Valid() && fresh(stub.repr - old(stub.repr))
    ensures (stub.state, stub.txId) == After(old(stub.state), old(stub.txId), calls)
    ensures Values(stub.nodes) == SortedKeys(stub.state.Keys)
  {
    for i := 0 to |calls|
      invariant stub.Valid() && fresh(stub.repr - old(stub.repr))
      invariant (stub.state, stub.txId) == After(old(stub.state), old(stub.txId), calls[..i])
    {
      assert calls[..i + 1][..i] == calls[..i];
      match calls[i] {
        case Start(id) => stub.MockTransactionStart(id);
        case End => stub.MockTransactionEnd();
        case Put(key, value) => var _ := stub.PutState(key, value);
        case Del(key) => stub.DelState(key);
      }
    }
    assert calls[..|calls|] == calls;
    SortedUnique(Values(stub.nodes), SortedKeys(stub.state.Keys));
  }

  // ---------------------------------------------------------------- range queries

  /** Both bounds are included; two empty bounds mean all keys. */
  predicate Matches(key: string, start: string, end: string) {
    (start == "" && end == "") || (Leq(start, key) && Leq(key, end))
  }

  /** The keys in the range among the first n. */
  function Select(keys: seq<string>, n: nat, start: string, end: string): seq<string>
    requires n <= |keys|
  {
    if n == 0 then []
    else Select(keys, n - 1, start, end) + if Matches(keys[n - 1], start, end) then [keys[n - 1]] else []
  }

  /** The index of the first key in the range from i on. */
  function First(keys: seq<string>, i: nat, start: string, end: string): (j: nat)
    requires i <= |keys|
    ensures i <= j <= |keys|
    decreases |keys| - i
  {
    if i == |keys| || Matches(keys[i], start, end) then i else First(keys, i + 1, start, end)
  }

  /** The selection from sorted keys is the sorted sequence of the keys in the range. */
  lemma {:induction false} SelectExact(keys: seq<string>, n: nat, start: string, end: string)
    requires Sorted(keys) && n <= |keys|
    ensures Sorted(Select(keys, n, start, end))
    ensures forall k :: k in Select(keys, n, start, end) <==> Matches(k, start, end) && OneOf(keys, n, k)
  {
    if n > 0 {
      SelectExact(keys, n - 1, start, end);
      var before := Select(keys, n - 1, start, end);
      forall i | 0 <= i < |before|
        ensures Less(before[i], keys[n - 1])
      {
        assert before[i] in before;
      }
      assert forall k :: OneOf(keys, n, k) <==> OneOf(keys, n - 1, k) || k == keys[n - 1];
    }
  }

  ghost predicate OneOf(keys: seq<string>, n: nat, k: string) {
    exists i :: 0 <= i < n && i < |keys| && keys[i] == k
  }

  lemma {:induction false} NothingAbove(keys: seq<string>, i: nat, start: string, end: string)
    requires Sorted(keys) && i < |keys| && Less(end, keys[i]) && (start != "" || end != "")
    ensures First(keys, i, start, end) == |keys|
    decreases |keys| - i
  {
    LessAsymmetric(end, keys[i]);
    if i + 1 < |keys| {
      LessTransitive(end, keys[i], keys[i + 1]);
      NothingAbove(keys, i + 1, start, end);
    }
  }

  /** Up to the first key in the range nothing is selected. */
  lemma {:induction false} SelectToFirst(keys: seq<string>, i: nat, start: string, end: string)
    requires i <= |keys|
    ensures var j := First(keys, i, start, end);
      && Select(keys, j, start, end) == Select(keys, i, start, end)
      && (j < |keys| ==> Select(keys, j + 1, start, end) == Select(keys, i, start, end) + [keys[j]])
    decreases |keys| - i
  {
    if i < |keys| && !Matches(keys[i], start, end) {
      SelectToFirst(keys, i + 1, start, end);
    }
  }

  class RangeQueryIterator {
    const stub: Stub
    const start: string
    const end: string
    var current: Element?
    var closed: bool
    ghost var pos: nat
    ghost const nodes: seq<Element>   // the stub's list and keys when the iterator was made
    ghost const keys: seq<string>
    ghost const repr: set<Element>

    /** The iterator stands at an element of that list, or behind it. */
    ghost predicate Valid()
      reads this
    {
      && |keys| == |nodes| && (forall i :: 0 <= i < |keys| ==> keys[i] == nodes[i].value)
      && pos <= |keys| && current == if pos < |keys| then nodes[pos] else null
    }

    /** The stub has not changed since. */
    ghost predicate Unchanged()
      reads stub, repr
    {
      && stub.nodes == nodes && stub.repr == repr && Linked(stub.front, stub.back, nodes, repr)
      && Sorted(keys) && forall i :: 0 <= i < |keys| ==> keys[i] in stub.state
    }

    /** The index of the next key of the range. */
    ghost function NextAt(): nat
      reads this
    {
      if pos <= |keys| then First(keys, pos, start, end) else |keys|
    }

    constructor (stub: Stub, start: string, end: string)
      requires stub.Valid()
      ensures Valid() && Unchanged() && !closed && pos == 0
      ensures this.stub == stub && this.start == start && this.end == end && keys == Values(stub.nodes)
    {
      this.stub, this.start, this.end := stub, start, end;
      current, closed, pos := stub.front, false, 0;
      nodes, keys, repr := stub.nodes, Values(stub.nodes), stub.repr;
    }

    /** True exactly when a key of the range is still to come. */
    method HasNext() returns (r: bool)
      requires Valid() && Unchanged()
      ensures r <==> !closed && NextAt() < |keys|
    {
      if closed {
        return false;
      }
      var elem := current;
      ghost var i := pos;
      while elem != null
        invariant pos <= i <= |keys| && elem == if i < |keys| then nodes[i] else null
        invariant NextAt() == First(keys, i, start, end)
        decreases |keys| - i
      {
        if start == "" && end == "" {
          return true;
        }
        CompareIs(elem.value, start);
        CompareIs(elem.value, end);
        if Compare(elem.value, start) >= 0 {
          if Compare(elem.value, end) <= 0 {
            return true;
          }
          NothingAbove(keys, i, start, end);
          return false;
        }
        NextOf(stub.front, stub.back, nodes, repr, i);
        elem := elem.next;
        i := i + 1;
      }
      return false;
    }

    /** Hands out the next key of the range and its value; it succeeds exactly when HasNext is true. */
    method Next() returns (r: Option<(string, string)>)
      requires Valid() && Unchanged()
      modifies this`current, this`pos
      ensures Valid() && Unchanged()
      ensures r.Some? <==> !closed && old(NextAt()) < |keys|
      ensures r.None? ==> pos == old(pos)
      ensures r.Some? ==>
        && pos == old(NextAt()) + 1 && r.value.0 == keys[pos - 1]
        && r.value.0 in stub.state && r.value.1 == stub.state[r.value.0]
    {
      var more := HasNext();
      if !more {
        return None;
      }
      while current != null
        invariant Valid() && NextAt() == old(NextAt()) < |keys|
        decreases |keys| - pos
      {
        CompareIs(current.value, start);
        CompareIs(current.value, end);
        NextOf(stub.front, stub.back, nodes, repr, pos);
        if (Compare(current.value, start) >= 0 && Compare(current.value, end) <= 0) || (start == "" && end == "") {
          var key := current.value;
          current, pos := current.next, pos + 1;
          return Some((key, stub.state[key]));
        }
        current, pos := current.next, pos + 1;
      }
      assert false;
    }

    method Close() returns (ok: bool)
      modifies this`closed
      ensures closed && ok == !old(closed)
    {
      ok := !closed;
      closed := true;
    }
  }

  ghost predicate RowsAre(state: map<string, string>, rows: seq<(string, string)>, keys: seq<string>) {
    |rows| == |keys| && forall i :: 0 <= i < |rows| ==>
      rows[i].0 == keys[i] && keys[i] in state && rows[i].1 == state[keys[i]]
  }

  lemma RowsGrow(state: map<string, string>, rows: seq<(string, string)>, keys: seq<string>, row: (string, string))
    requires RowsAre(state, rows, keys) && row.0 in state && row.1 == state[row.0]
    ensures RowsAre(state, rows + [row], keys + [row.0])
  {
  }

  method CollectOne(it: RangeQueryIterator, rows: seq<(string, string)>) returns (r: seq<(string, string)>)
    requires it.Valid() && it.Unchanged() && !it.closed && it.NextAt() < |it.keys|
    requires RowsAre(it.stub.state, rows, Select(it.keys, it.pos, it.start, it.end))
    modifies it`current, it`pos
    ensures it.Valid() && it.Unchanged() && it.pos > old(it.pos)
    ensures RowsAre(it.stub.state, r, Select(it.keys, it.pos, it.start, it.end))
  {
    ghost var had := Select(it.keys, it.pos, it.start, it.end);
    SelectToFirst(it.keys, it.pos, it.start, it.end);
    var next := it.Next();
    RowsGrow(it.stub.state, rows, had, next.value);
    r := rows + [next.value];
  }

  method Collect(it: RangeQueryIterator) returns (rows: seq<(string, string)>)
    requires it.Valid() && it.Unchanged() && !it.closed && it.pos == 0
    modifies it`current, it`pos
    ensures RowsAre(it.stub.state, rows, Select(it.keys, |it.keys|, it.start, it.end))
  {
    rows := [];
    var more := it.HasNext();
    while more
      invariant it.Valid() && it.Unchanged()
      invariant RowsAre(it.stub.state, rows, Select(it.keys, it.pos, it.start, it.end))
      invariant more <==> it.NextAt() < |it.keys|
      decreases |it.keys| - it.pos
    {
      rows := CollectOne(it, rows);
      more := it.HasNext();
    }
    SelectToFirst(it.keys, it.pos, it.start, it.end);
  }

  /** A range query over a stub that does not change returns the keys of the state in the range,
      each once and in order, with their values. */
  method QueryRange(stub: Stub, start: string, end: string) returns (rows: seq<(string, string)>)
    requires stub.Valid()
    ensures forall i, j :: 0 <= i < j < |rows| ==> Less(rows[i].0, rows[j].0)
    ensures forall i :: 0 <= i < |rows| ==>
      rows[i].0 in stub.state && Matches(rows[i].0, start, end) && rows[i].1 == stub.state[rows[i].0]
    ensures forall k :: k in stub.state && Matches(k, start, end) ==> exists i :: 0 <= i < |rows| && rows[i].0 == k
  {
    var it := new RangeQueryIterator(stub, start, end);
    ghost var keys := Values(stub.nodes);
    ghost var all := Select(keys, |keys|, start, end);
    SelectExact(keys, |keys|, start, end);
    rows := Collect(it);
    assert forall i :: 0 <= i < |all| ==> all[i] in all;
    forall k | k in stub.state && Matches(k, start, end)
      ensures exists i :: 0 <= i < |rows| && rows[i].0 == k
    {
      assert k in keys;
      assert OneOf(keys, |keys|, k);
      var i :| 0 <= i < |all| && all[i] == k;
      assert rows[i].0 == k;
    }
  }
}
